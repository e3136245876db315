/** The failures the repository layer raises or lets escape. */
module Errors {
  import opened JsValues

  datatype Error =
    /** `RepositoryNotFoundException`, carrying the resolved repository token. */
    | RepositoryNotFound(token: Value)
    /**
     * A JavaScript TypeError thrown by the layer's own code: reading a property
     * of `null`/`undefined`, calling a missing `classType`, setting a property
     * on a primitive.
     */
    | TypeError(reason: string)
}

/**
 * The JavaScript values the repository layer reads and writes: rows are property
 * maps, `undefined` and `null` are distinct, classes are opaque tokens whose name
 * and source text come from the environment.
 */
module JsValues {
  import opened Wrappers

  /** A class (constructor function) of the program, compared by identity. */
  datatype ClassToken = ClassToken(id: nat)

  /** A JavaScript value. Numbers are integers here; objects carry their class. */
  datatype Value =
    | Undefined
    | Null
    | Bool(b: bool)
    | Num(n: int)
    | Str(s: string)
    | Class(cls: ClassToken)
    | Obj(cls: ClassToken, fields: map<string, Value>)
    | Arr(elems: seq<Value>)

  /** An entity's own properties; a property that is absent reads as `undefined`. */
  type Row = map<string, Value>

  /** `row[key]` on an object. */
  function Get(row: Row, key: string): (v: Value)
    ensures key !in row ==> v == Undefined
    ensures key in row ==> v == row[key]
  {
    if key in row then row[key] else Undefined
  }

  /** JavaScript truthiness (`!!v`). */
  predicate Truthy(v: Value)
  {
    match v
    case Undefined => false
    case Null => false
    case Bool(b) => b
    case Num(n) => n != 0
    case Str(s) => s != ""
    case _ => true
  }

  /** `typeof v === 'object'` (true of `null`, as in JavaScript). */
  predicate TypeofObject(v: Value)
  {
    v.Null? || v.Obj? || v.Arr?
  }

  /**
   * `v[key]` for a named (non-index) key. `None` is the TypeError thrown when
   * `v` is `null` or `undefined`; other primitives, arrays and classes have no
   * own data properties of that name here and read as `undefined`.
   */
  function Prop(v: Value, key: string): (r: Option<Value>)
    ensures r.None? <==> v.Undefined? || v.Null?
    ensures v.Obj? ==> r == Some(Get(v.fields, key))
  {
    match v
    case Undefined => None
    case Null => None
    case Obj(_, fields) => Some(Get(fields, key))
    case _ => Some(Undefined)
  }

  /** `v[0]`, the way the grouping step reads the head of an array result. */
  function Head(v: Value): (r: Value)
    requires v.Arr?
    ensures |v.elems| == 0 ==> r == Undefined
    ensures |v.elems| > 0 ==> r == v.elems[0]
  {
    if |v.elems| > 0 then v.elems[0] else Undefined
  }

  /**
   * `v.constructor.name`. `None` is the TypeError for `null`/`undefined`; the
   * name of a program class comes from `className`.
   */
  function ConstructorName(className: ClassToken -> string, v: Value): (r: Option<string>)
    ensures r.None? <==> v.Undefined? || v.Null?
    ensures v.Obj? ==> r == Some(className(v.cls))
  {
    match v
    case Undefined => None
    case Null => None
    case Bool(_) => Some("Boolean")
    case Num(_) => Some("Number")
    case Str(_) => Some("String")
    case Class(_) => Some("Function")
    case Obj(cls, _) => Some(className(cls))
    case Arr(_) => Some("Array")
  }

  function DigitChar(d: nat): (c: char)
    requires d < 10
  {
    "0123456789"[d]
  }

  /** Decimal digits of a natural number, most significant first. */
  function NatToString(n: nat): (s: string)
    ensures |s| > 0
    ensures forall i :: 0 <= i < |s| ==> '0' <= s[i] <= '9'
  {
    if n < 10 then [DigitChar(n)] else NatToString(n / 10) + [DigitChar(n % 10)]
  }

  /** `String(n)` for an integral number. */
  function IntToString(n: int): (s: string)
    ensures |s| > 0
    ensures (n < 0) <==> s[0] == '-'
  {
    if n < 0 then "-" + NatToString(-n) else NatToString(n)
  }

  /**
   * `String(v)`, as template literals convert the parts of a key. A class
   * converts to its source text (`classText`), a plain object to
   * "[object Object]", an array to its elements joined by commas.
   */
  function ToStr(classText: ClassToken -> string, v: Value): string
    decreases v
  {
    match v
    case Undefined => "undefined"
    case Null => "null"
    case Bool(b) => if b then "true" else "false"
    case Num(n) => IntToString(n)
    case Str(s) => s
    case Class(c) => classText(c)
    case Obj(_, _) => "[object Object]"
    case Arr(elems) => Join(classText, elems)
  }

  /** `Array.prototype.join(',')`: `null` and `undefined` elements become "". */
  function Join(classText: ClassToken -> string, elems: seq<Value>): string
    decreases elems
  {
    if elems == [] then ""
    else
      var head := if elems[0].Undefined? || elems[0].Null? then "" else ToStr(classText, elems[0]);
      if |elems| == 1 then head else head + "," + Join(classText, elems[1..])
  }

  /**
   * One level of array flattening, as `acc.push(...v)` / `push(v)` and as the
   * arguments of `Array.prototype.concat` are spread: an array contributes its
   * elements, any other value itself.
   */
  function Spread(vs: seq<Value>): seq<Value>
    decreases |vs|
  {
    if vs == [] then []
    else
      var last := vs[|vs| - 1];
      Spread(vs[..|vs| - 1]) + (if last.Arr? then last.elems else [last])
  }

  /**
   * A value is in the spread list exactly when it is an element of one of
   * the arrays or one of the other values; without arrays nothing changes.
   */
  lemma {:induction false} SpreadMembers(vs: seq<Value>)
    ensures forall x :: x in Spread(vs) <==> exists i :: 0 <= i < |vs| && (if vs[i].Arr? then x in vs[i].elems else x == vs[i])
    ensures (forall i :: 0 <= i < |vs| ==> !vs[i].Arr?) ==> Spread(vs) == vs
    decreases |vs|
  {
    if vs != [] {
      var init := vs[..|vs| - 1];
      var last := vs[|vs| - 1];
      SpreadMembers(init);
      assert vs == init + [last];
      assert forall i :: 0 <= i < |init| ==> init[i] == vs[i];
      forall x | x in Spread(vs)
        ensures exists i :: 0 <= i < |vs| && (if vs[i].Arr? then x in vs[i].elems else x == vs[i])
      {
        if x !in Spread(init) {
          assert if last.Arr? then x in last.elems else x == last;
        }
      }
    }
  }

  lemma {:induction false} SpreadAppend(a: seq<Value>, b: seq<Value>)
    ensures Spread(a + b) == Spread(a) + Spread(b)
    decreases |b|
  {
    if b == [] {
      assert a + b == a;
    } else {
      var b' := b[..|b| - 1];
      assert (a + b)[..|a + b| - 1] == a + b';
      assert (a + b)[|a + b| - 1] == b[|b| - 1];
      SpreadAppend(a, b');
    }
  }

  /**
   * `s.split(sep)[0]` for a non-empty separator: the text before the first
   * occurrence of `sep`, or all of `s` when there is none.
   */
  function FirstSegment(s: string, sep: string): (r: string)
    requires sep != ""
    ensures r <= s
    decreases |s|
  {
    if |s| < |sep| then s
    else if s[..|sep|] == sep then ""
    else [s[0]] + FirstSegment(s[1..], sep)
  }

  /** A text that holds no character of the separator's first character ends at the separator. */
  lemma {:induction false} FirstSegmentBeforeSeparator(p: string, sep: string, rest: string)
    requires sep != ""
    requires forall i :: 0 <= i < |p| ==> p[i] != sep[0]
    ensures FirstSegment(p + sep + rest, sep) == p
    decreases |p|
  {
    var s := p + sep + rest;
    if p == [] {
      assert s[..|sep|] == sep;
    } else {
      assert s[0] == p[0];
      assert s[..|sep|] != sep by { assert s[..|sep|][0] == p[0]; }
      assert s[1..] == p[1..] + sep + rest;
      FirstSegmentBeforeSeparator(p[1..], sep, rest);
    }
  }

  /** A text without the separator's first character is its own first segment. */
  lemma {:induction false} FirstSegmentWithoutSeparator(p: string, sep: string)
    requires sep != ""
    requires forall i :: 0 <= i < |p| ==> p[i] != sep[0]
    ensures FirstSegment(p, sep) == p
    decreases |p|
  {
    if |p| >= |sep| {
      assert p[..|sep|] != sep by { assert p[..|sep|][0] == p[0]; }
      assert [p[0]] + p[1..] == p;
      FirstSegmentWithoutSeparator(p[1..], sep);
    }
  }
}

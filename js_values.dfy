/** The slice of JavaScript value semantics the upload field relies on:
    truthiness, `typeof`, the `||` operator and reading a `url` property,
    with or without optional chaining. */
module JsValues {
  import opened Wrappers

  /** A JavaScript value. An object is seen only through its `url` property
      (`Undefined` when the property is absent). Numbers are integers. */
  datatype JsVal =
    | Undefined
    | Null
    | Bool(b: bool)
    | Num(n: int)
    | Str(s: string)
    | Obj(url: JsVal)

  /** JavaScript's ToBoolean. */
  predicate Truthy(v: JsVal) {
    match v
    case Undefined => false
    case Null => false
    case Bool(b) => b
    case Num(n) => n != 0
    case Str(s) => s != ""
    case Obj(_) => true
  }

  /** The `typeof` operator. */
  function TypeOf(v: JsVal): string {
    match v
    case Undefined => "undefined"
    case Null => "object"
    case Bool(_) => "boolean"
    case Num(_) => "number"
    case Str(_) => "string"
    case Obj(_) => "object"
  }

  /** `a || b`: the first operand when it is truthy, the second otherwise. */
  function Or(a: JsVal, b: JsVal): (r: JsVal)
    ensures Truthy(r) <==> Truthy(a) || Truthy(b)
    ensures r == a || r == b
    ensures Truthy(a) ==> r == a
    ensures !Truthy(a) ==> r == b
  {
    if Truthy(a) then a else b
  }

  /** `v.url`; `None` when the access throws a TypeError (on null or undefined).
      A primitive has no `url` property. */
  function GetUrl(v: JsVal): (r: Option<JsVal>)
    ensures r.None? <==> v.Undefined? || v.Null?
    ensures r.Some? && r.value != Undefined ==> v.Obj? && r.value == v.url
    ensures v.Obj? ==> r == Some(v.url)
  {
    match v
    case Undefined => None
    case Null => None
    case Obj(u) => Some(u)
    case _ => Some(Undefined)
  }

  /** `v?.url`: optional chaining short-circuits to undefined on null or undefined. */
  function OptionalUrl(v: JsVal): (r: JsVal)
    ensures r != Undefined ==> v.Obj? && r == v.url
    ensures v.Obj? ==> r == v.url
  {
    match GetUrl(v)
    case None => Undefined
    case Some(u) => u
  }

  /** `v && typeof v === 'string'` holds exactly of the non-empty strings. */
  lemma TruthyStringIsNonEmpty(v: JsVal)
    ensures (Truthy(v) && TypeOf(v) == "string") <==> (v.Str? && v.s != "")
  {
    match v
    case Undefined => assert TypeOf(v)[0] == 'u';
    case Null => assert TypeOf(v)[0] == 'o';
    case Bool(_) => assert TypeOf(v)[0] == 'b';
    case Num(_) => assert TypeOf(v)[0] == 'n';
    case Str(_) =>
    case Obj(_) => assert TypeOf(v)[0] == 'o';
  }
}

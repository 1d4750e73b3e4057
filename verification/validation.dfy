/**
  The required-field check shared by the route handlers: the listed fields are
  looked up in the request body in order, and the first one that is missing is
  named in the error message.
 */
module Validation {
  import opened Common

  /** The JSON values a request body field can hold; an absent key reads as `Undefined`. */
  datatype JsValue =
    | Undefined
    | Null
    | Bool(b: bool)
    | Num(n: int)
    | NaN
    | Str(s: string)
    | Composite          // an object or an array: always truthy

  type Body = map<string, JsValue>

  /** `body[field]`. */
  function Field(body: Body, field: string): JsValue
  {
    if field in body then body[field] else Undefined
  }

  /** JavaScript truthiness. */
  predicate Truthy(v: JsValue)
  {
    match v
    case Undefined => false
    case Null => false
    case Bool(b) => b
    case Num(n) => n != 0
    case NaN => false
    case Str(s) => s != ""
    case Composite => true
  }

  /** `!(!v && v !== 0 && v !== false)`: a falsy value other than `0` and `false` is missing. */
  predicate Present(v: JsValue)
  {
    Truthy(v) || v == Num(0) || v == Bool(false)
  }

  /** Exactly `undefined`, `null`, the empty string and NaN count as missing. */
  lemma PresentMeaning(v: JsValue)
    ensures Present(v) <==> (v != Undefined && v != Null && v != Str("") && v != NaN)
  {
  }

  function RequiredMessage(field: string): string
  {
    field + " is required"
  }

  /**
    `validateRequired`: `None` when every listed field is present, otherwise the
    message naming the first missing field in list order.
   */
  function ValidateRequired(body: Body, fields: seq<string>): (r: Option<string>)
    ensures r.None? <==> forall i :: 0 <= i < |fields| ==> Present(Field(body, fields[i]))
    ensures r.Some? ==>
      exists i ::
        && 0 <= i < |fields|
        && !Present(Field(body, fields[i]))
        && (forall j :: 0 <= j < i ==> Present(Field(body, fields[j])))
        && r.value == RequiredMessage(fields[i])
    decreases |fields|
  {
    if |fields| == 0 then None
    else if !Present(Field(body, fields[0])) then Some(RequiredMessage(fields[0]))
    else
      var r := ValidateRequired(body, fields[1..]);
      assert forall i :: 1 <= i < |fields| ==> fields[i] == fields[1..][i - 1];
      r
  }

  /** Checking `a + b` is checking `a` first and only then `b`. */
  lemma {:induction false} ValidateConcat(body: Body, a: seq<string>, b: seq<string>)
    ensures ValidateRequired(body, a + b)
      == if ValidateRequired(body, a).Some? then ValidateRequired(body, a) else ValidateRequired(body, b)
    decreases |a|
  {
    if |a| > 0 {
      assert (a + b)[0] == a[0];
      assert (a + b)[1..] == a[1..] + b;
      ValidateConcat(body, a[1..], b);
    } else {
      assert a + b == b;
    }
  }

  /** Fields absent from the list are never looked at: only the listed fields decide the outcome. */
  lemma {:induction false} ValidateOnlyListed(body1: Body, body2: Body, fields: seq<string>)
    requires forall i :: 0 <= i < |fields| ==> Field(body1, fields[i]) == Field(body2, fields[i])
    ensures ValidateRequired(body1, fields) == ValidateRequired(body2, fields)
    decreases |fields|
  {
    if |fields| > 0 {
      assert forall i :: 0 <= i < |fields| - 1 ==> fields[1..][i] == fields[i + 1];
      ValidateOnlyListed(body1, body2, fields[1..]);
    }
  }

  /** Zero, `false` and any non-empty string count as present; an empty string does not. */
  lemma FalsyButPresent(field: string, s: string)
    ensures ValidateRequired(map[field := Num(0)], [field]).None?
    ensures ValidateRequired(map[field := Bool(false)], [field]).None?
    ensures s != "" ==> ValidateRequired(map[field := Str(s)], [field]).None?
    ensures ValidateRequired(map[field := Str("")], [field]) == Some(field + " is required")
    ensures ValidateRequired(map[], [field]) == Some(field + " is required")
  {
  }
}

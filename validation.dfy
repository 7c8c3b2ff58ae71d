/** The value validators: `validate_truthy`, `validate_falsy` and
    `validate_not_empty_string`. Each returns `True` or raises. */
module Validation {
  import opened Config

  /** Python truth-value testing: zero, the empty string, `False`, `None`
      and empty containers are false, everything else is true. */
  predicate Truthy(v: CV) {
    match v
    case Str(s) => |s| > 0
    case Int(n) => n != 0
    case Bool(b) => b
    case Null => false
    case List(xs) => |xs| > 0
    case Dict(e) => |e| > 0
  }

  /** The falsy values, listed. */
  lemma FalsyValues(v: CV)
    ensures !Truthy(v) <==>
      v == Str("") || v == Int(0) || v == Bool(false) || v == Null || v == List([]) || v == Dict([])
  {
  }

  /** `validate_truthy(name, val)`. */
  function ValidateTruthy(name: string, v: CV): (r: Result<bool>)
    ensures r.Ok? <==> Truthy(v)
    ensures r.Ok? ==> r.value
    ensures r.Err? ==> r.error == FalsyValue(name, v)
  {
    if !Truthy(v) then Err(FalsyValue(name, v)) else Ok(true)
  }

  /** `validate_falsy(name, val)`. */
  function ValidateFalsy(name: string, v: CV): (r: Result<bool>)
    ensures r.Ok? <==> !Truthy(v)
    ensures r.Ok? ==> r.value
    ensures r.Err? ==> r.error == TruthyValue(name, v)
  {
    if Truthy(v) then Err(TruthyValue(name, v)) else Ok(true)
  }

  /** `validate_not_empty_string(name, val)`: only the empty string fails;
      other falsy values pass. */
  function ValidateNotEmptyString(name: string, v: CV): (r: Result<bool>)
    ensures r.Err? <==> v == Str("")
    ensures r.Ok? ==> r.value
    ensures r.Err? ==> r.error == EmptyString(name)
  {
    if v == Str("") then Err(EmptyString(name)) else Ok(true)
  }

  /** Exactly one of `validate_truthy` and `validate_falsy` accepts a value. */
  lemma TruthyFalsyComplement(name: string, v: CV)
    ensures ValidateTruthy(name, v).Ok? <==> ValidateFalsy(name, v).Err?
  {
  }

  /** `validate_not_empty_string` is weaker than `validate_truthy`: what it
      rejects, `validate_truthy` rejects too, while `0`, `False`, `None` and
      empty containers pass it. */
  lemma NotEmptyWeakerThanTruthy(name: string, v: CV)
    ensures ValidateNotEmptyString(name, v).Err? ==> ValidateTruthy(name, v).Err?
    ensures ValidateTruthy(name, v).Err? && ValidateNotEmptyString(name, v).Ok? ==>
      v in {Int(0), Bool(false), Null, List([]), Dict([])}
  {
  }
}

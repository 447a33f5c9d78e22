/** `ScriptRuntimeES6.requireObjectCoercible`: the ECMAScript check that a
    value may be converted to an object. */
module ScriptRuntimeES6 {
  import opened Wrappers

  /** A JavaScript value: Java `null`, `undefined`, or any other value,
      known here only by an identity. */
  datatype JsValue = Null | Undefined | Other(id: nat)

  /** A `TypeError` built from a message key and the calling function's tag
      and name. */
  datatype ScriptError = TypeError(messageId: string, tag: string, functionName: string)

  const CALLED_NULL_OR_UNDEFINED := "msg.called.null.or.undefined"

  /** `requireObjectCoercible`: null and undefined raise a type error naming
      the function; every other value is returned as it is. */
  function RequireObjectCoercible(val: JsValue, tag: string, functionName: string): (r: Result<JsValue, ScriptError>)
    ensures r.Failure? <==> val.Null? || val.Undefined?
    ensures r.Success? ==> r.value == val
    ensures r.Failure? ==> r.error == TypeError(CALLED_NULL_OR_UNDEFINED, tag, functionName)
  {
    if val == Null || val == Undefined then Failure(TypeError(CALLED_NULL_OR_UNDEFINED, tag, functionName))
    else Success(val)
  }

  /** A value that passed once passes again, for any caller. */
  lemma RequireObjectCoercibleIdempotent(val: JsValue, tag: string, name: string, tag2: string, name2: string)
    requires RequireObjectCoercible(val, tag, name).Success?
    ensures RequireObjectCoercible(RequireObjectCoercible(val, tag, name).value, tag2, name2) ==
      RequireObjectCoercible(val, tag, name)
  {
  }
}

/**
 * Session identifiers: the `^[a-f0-9]{32}$` format check and the constructor's
 * choice between an explicit id, the inbound cookie value and a fresh random one.
 */
module Identity {
  import opened Php
  import opened Wrappers
  import opened Errors

  const ID_LENGTH: nat := 32
  /** `random_bytes(16)`: the number of random bytes a fresh id encodes. */
  const ID_RANDOM_BYTES: nat := 16

  /** `isValidId`: exactly 32 lower-case hexadecimal characters. */
  predicate IsValidId(id: string) {
    |id| == ID_LENGTH && forall i :: 0 <= i < |id| ==> IsLowerHexDigit(id[i])
  }

  /**
   * `isValidId($_COOKIE['SESSION_ID'] ?? null)`: a cookie value is a string, or an
   * array when the request sends `SESSION_ID[]`; only a string can be a valid id.
   */
  predicate IsValidCandidate(candidate: Option<Value>) {
    candidate.Some? && candidate.value.Str? && IsValidId(candidate.value.s)
  }

  /** A cookie value that `isValidId(?string $id)` cannot take: the call throws a TypeError. */
  predicate IsArrayCandidate(candidate: Option<Value>) {
    candidate.Some? && IsArray(candidate.value)
  }

  /** `bin2hex(random_bytes(16))`: a freshly generated id. */
  function FreshId(random: string): (id: string)
    requires |random| == ID_RANDOM_BYTES
    ensures IsValidId(id)
  {
    Bin2Hex(random)
  }

  /**
   * The id chosen at construction: an explicit id must be valid or construction fails;
   * without one, an array-valued cookie makes the validity check throw, a valid string
   * cookie is adopted, and otherwise a fresh id is drawn.
   */
  function ChooseId(explicit: Option<string>, cookie: Option<Value>, random: string): (r: Result<string, SessionError>)
    requires |random| == ID_RANDOM_BYTES
    ensures r.Failure? <==> if explicit.Some? then !IsValidId(explicit.value) else IsArrayCandidate(cookie)
    ensures explicit.Some? && r.Failure? ==> r.error == InvalidSessionId
    ensures explicit.None? && r.Failure? ==> r.error == CookieIdNotString
    ensures r.Success? ==> IsValidId(r.value)
    ensures explicit.Some? && r.Success? ==> r.value == explicit.value
    ensures explicit.None? && IsValidCandidate(cookie) ==> r == Success(cookie.value.s)
    ensures explicit.None? && !IsValidCandidate(cookie) && !IsArrayCandidate(cookie) ==> r == Success(FreshId(random))
  {
    if explicit.Some? then
      if IsValidId(explicit.value) then Success(explicit.value) else Failure(InvalidSessionId)
    else if IsArrayCandidate(cookie) then Failure(CookieIdNotString)
    else if IsValidCandidate(cookie) then Success(cookie.value.s)
    else Success(FreshId(random))
  }

  /** The inbound-injection case: a cookie value such as "../evil" is replaced, never reported. */
  lemma InjectedCookieIsReplaced(random: string)
    requires |random| == ID_RANDOM_BYTES
    ensures ChooseId(None, Some(Str("../evil")), random) == Success(FreshId(random))
    ensures ChooseId(Some("../evil"), None, random) == Failure(InvalidSessionId)
  {
    assert !IsValidId("../evil");
  }

  /**
   * A request sending `SESSION_ID[]=...` makes the cookie value an array: without
   * an explicit id the constructor throws instead of drawing a fresh id, while an
   * explicit id never looks at the cookie.
   */
  lemma ArrayCookieIsATypeError(random: string, id: string)
    requires |random| == ID_RANDOM_BYTES && IsValidId(id)
    ensures ChooseId(None, Some(List([Str(id)])), random) == Failure(CookieIdNotString)
    ensures ChooseId(Some(id), Some(List([Str(id)])), random) == Success(id)
  {
  }
}

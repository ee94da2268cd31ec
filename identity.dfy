/** Resolution of the client address from proxy headers (`getRealIP`). The
    endpoints create-thread, admin-auth and admin-boards carry identical
    copies of it. */
module Identity {
  import opened Wrappers
  import opened JsText

  /** The three headers the resolver reads; `None` is a header that is not
      present (`headers.get` returned null). */
  datatype Headers = Headers(
    cfConnectingIp: Option<string>,
    xForwardedFor: Option<string>,
    xRealIp: Option<string>)

  /** The first comma-separated element of a forwarded-for list, trimmed. */
  function ForwardedClient(xff: string): (r: string)
    ensures ',' !in r
    ensures r == [] || (!IsSpace(r[0]) && !IsSpace(r[|r| - 1]))
  {
    var first := Split(xff, ',')[0];
    assert first in Split(xff, ',');
    Trim(first)
  }

  /** The resolved address: `cf-connecting-ip`, else the first element of
      `x-forwarded-for`, else `x-real-ip`, else "unknown". A header counts
      only when it is non-empty. */
  function GetRealIP(h: Headers): (ip: string)
    ensures Truthy(h.cfConnectingIp) ==> ip == h.cfConnectingIp.value
    ensures !Truthy(h.cfConnectingIp) && Truthy(h.xForwardedFor) ==>
              ip == ForwardedClient(h.xForwardedFor.value)
    ensures !Truthy(h.cfConnectingIp) && !Truthy(h.xForwardedFor) && Truthy(h.xRealIp) ==>
              ip == h.xRealIp.value
    ensures !Truthy(h.cfConnectingIp) && !Truthy(h.xForwardedFor) && !Truthy(h.xRealIp) ==>
              ip == "unknown"
  {
    if Truthy(h.cfConnectingIp) then h.cfConnectingIp.value
    else if Truthy(h.xForwardedFor) then ForwardedClient(h.xForwardedFor.value)
    else if Truthy(h.xRealIp) then h.xRealIp.value
    else "unknown"
  }

  /** The edge header wins: whatever a client writes into `x-forwarded-for`
      or `x-real-ip` is ignored once `cf-connecting-ip` is set. */
  lemma EdgeHeaderWins(h: Headers, xff: Option<string>, realIp: Option<string>)
    requires Truthy(h.cfConnectingIp)
    ensures GetRealIP(Headers(h.cfConnectingIp, xff, realIp)) == GetRealIP(h)
  {
  }

  /** The forwarded-for element that is used is the one before the first
      comma: appending further hops after a comma does not change the address. */
  lemma {:induction false} LeftmostHopDecides(first: string, rest: string)
    requires ',' !in first
    ensures ForwardedClient(first + "," + rest) == Trim(first)
  {
    var s := first + "," + rest;
    assert forall k :: 0 <= k < |first| ==> s[k] == first[k];
    assert s[|first|] == ',';
    assert IndexOf(s, ',') == |first|;
    assert s[..|first|] == first;
  }

  /** A forwarded-for value that is only white space before its first comma
      resolves to the empty string; it does not fall through to `x-real-ip`. */
  lemma BlankForwardedHopIsKept(cf: Option<string>, first: string, rest: string, realIp: Option<string>)
    requires !Truthy(cf) && ',' !in first
    requires forall c :: c in first ==> IsSpace(c)
    ensures GetRealIP(Headers(cf, Some(first + "," + rest), realIp)) == ""
  {
    LeftmostHopDecides(first, rest);
  }
}

/**
 * The `origin` callback of the CORS options (src/config/corsOptions.ts:5-12)
 * over the list of src/config/allowedOrigins.ts:1-10.
 */
module Cors {
  import opened DiscussionModel

  /** The allowed origins, in the order of the list. */
  const ALLOWED_ORIGINS: seq<string> := [
    "http://localhost:5173",
    "http://localhost:5174",
    "http://localhost:5175",
    // an Origin header carries no path, so this entry never matches one
    "http://localhost/4000",
    "https://********.org"
  ]

  const NOT_ALLOWED := "CORS error: not allowed"

  /** What the callback hands to `callback`: `(null, true)` or an `Error`. */
  datatype Decision = Allow | Deny(message: string)

  /** `Array.prototype.indexOf`: the first index holding `x`, or -1. */
  function IndexOf(list: seq<string>, x: string): (i: int)
    ensures -1 <= i < |list|
    ensures i == -1 <==> x !in list
    ensures i >= 0 ==> list[i] == x && x !in list[..i]
  {
    if list == [] then -1
    else if list[0] == x then 0
    else
      var i := IndexOf(list[1..], x);
      if i == -1 then -1
      else
        assert list[..i + 1] == [list[0]] + list[1..][..i];
        i + 1
  }

  /** The callback for a request whose `Origin` header is `origin` (None when absent). */
  function CheckOrigin(origin: Option<string>): (d: Decision)
    ensures d.Allow? <==> origin.None? || origin.value == "" || origin.value in ALLOWED_ORIGINS
    ensures d.Deny? ==> d.message == NOT_ALLOWED
  {
    if origin.None? || origin.value == "" || IndexOf(ALLOWED_ORIGINS, origin.value) != -1 then Allow
    else Deny(NOT_ALLOWED)
  }

  /** Matching is exact: a trailing slash or an upper-case scheme is not allowed. */
  lemma NoNormalisation()
    ensures CheckOrigin(Some("http://localhost:5173/")) == Deny(NOT_ALLOWED)
    ensures CheckOrigin(Some("HTTP://localhost:5173")) == Deny(NOT_ALLOWED)
    ensures CheckOrigin(Some("http://localhost:4000")) == Deny(NOT_ALLOWED)
  {
    assert "http://localhost:5173/" != ALLOWED_ORIGINS[0] by {
      assert |"http://localhost:5173/"| != |ALLOWED_ORIGINS[0]|;
    }
    assert "HTTP://localhost:5173"[0] != ALLOWED_ORIGINS[0][0];
    assert "HTTP://localhost:5173"[0] != ALLOWED_ORIGINS[4][0];
    assert "http://localhost:4000"[16] != ALLOWED_ORIGINS[3][16];
  }
}

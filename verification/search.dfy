/**
 * The request check of `searchPosts`
 * (src/controllers/discussion.controller.ts:239-247): the `query` parameter,
 * or its first element when it is repeated, must be a string that is not
 * blank once trimmed.
 */
module Search {
  import opened FeedState

  /** A query-string parameter as the query parser hands it over. */
  datatype QueryValue = Missing | Text(s: string) | Repeated(items: seq<QueryValue>) | Nested

  /** The characters `String.prototype.trim` removes: white space and line terminators. */
  predicate IsJsSpace(c: char) {
    || c == '\t' || c == '\U{000B}' || c == '\U{000C}' || c == ' ' || c == '\U{00A0}' || c == '\U{FEFF}'
    || c == '\U{1680}' || ('\U{2000}' <= c <= '\U{200A}') || c == '\U{202F}' || c == '\U{205F}' || c == '\U{3000}'
    || c == '\n' || c == '\r' || c == '\U{2028}' || c == '\U{2029}'
  }

  function TrimStart(s: string): (r: string)
    ensures r == [] || !IsJsSpace(r[0])
    ensures exists k :: 0 <= k <= |s| && r == s[k..] && forall i :: 0 <= i < k ==> IsJsSpace(s[i])
  {
    if s != [] && IsJsSpace(s[0]) then
      var rest := s[1..];
      var r := TrimStart(rest);
      var k :| 0 <= k <= |rest| && r == rest[k..] && forall i :: 0 <= i < k ==> IsJsSpace(rest[i]);
      assert r == s[k + 1..];
      r
    else
      assert s == s[0..];
      s
  }

  function TrimEnd(s: string): (r: string)
    ensures r == [] || !IsJsSpace(r[|r| - 1])
    ensures exists k :: 0 <= k <= |s| && r == s[..k] && forall i :: k <= i < |s| ==> IsJsSpace(s[i])
  {
    if s != [] && IsJsSpace(s[|s| - 1]) then
      var init := s[..|s| - 1];
      var r := TrimEnd(init);
      var k :| 0 <= k <= |init| && r == init[..k] && forall i :: k <= i < |init| ==> IsJsSpace(init[i]);
      assert r == s[..k];
      r
    else
      assert s == s[..|s|];
      s
  }

  /** `String.prototype.trim`. */
  function Trim(s: string): string {
    TrimEnd(TrimStart(s))
  }

  /** A string trims to nothing exactly when every character of it is white space. */
  lemma TrimEmpty(s: string)
    ensures Trim(s) == "" <==> forall i :: 0 <= i < |s| ==> IsJsSpace(s[i])
  {
    var t := TrimStart(s);
    var k :| 0 <= k <= |s| && t == s[k..] && forall i :: 0 <= i < k ==> IsJsSpace(s[i]);
    var m :| 0 <= m <= |t| && Trim(s) == t[..m] && forall i :: m <= i < |t| ==> IsJsSpace(t[i]);
    assert t != [] ==> m > 0;
    if Trim(s) == "" {
      assert k == |s|;
    } else {
      assert !IsJsSpace(t[0]);
      assert s[k] == t[0];
    }
  }

  /** `Array.isArray(q) ? q[0] : q`: an empty repetition has no first element. */
  function Picked(q: QueryValue): QueryValue {
    match q
    case Repeated(items) => if items == [] then Missing else items[0]
    case _ => q
  }

  /** `searchPosts` up to the text search: 400 unless the picked value is a non-blank string, else the text to search for. */
  function SearchQuery(q: QueryValue): (r: Outcome<string>)
    ensures r.Err? ==> r.status == BadRequest
    ensures r.Ok? <==> Picked(q).Text? && exists i :: 0 <= i < |Picked(q).s| && !IsJsSpace(Picked(q).s[i])
    ensures r.Ok? ==> r.value == Picked(q).s
  {
    var p := Picked(q);
    if !p.Text? then Err(BadRequest)
    else
      TrimEmpty(p.s);
      if Trim(p.s) == "" then Err(BadRequest) else Ok(p.s)
  }
}

/**
 * `extractPublicIdFromImageUrl` (src/utils/helpers.ts:7-11): the public id
 * of an uploaded image is read off its URL by splitting on '/', keeping the
 * last two segments, joining them again and cutting the result before its
 * last '.'.
 */
module ImageUrl {

  /** The number of occurrences of `c` in `s`. */
  function Count(s: string, c: char): nat {
    if s == [] then 0 else (if s[0] == c then 1 else 0) + Count(s[1..], c)
  }

  lemma {:induction false} CountAppend(a: string, b: string, c: char)
    ensures Count(a + b, c) == Count(a, c) + Count(b, c)
  {
    if a == [] {
      assert a + b == b;
    } else {
      assert (a + b)[0] == a[0] && (a + b)[1..] == a[1..] + b;
      CountAppend(a[1..], b, c);
    }
  }

  lemma CountPrefix(a: string, b: string, c: char)
    requires a <= b
    ensures Count(a, c) <= Count(b, c)
  {
    assert a + b[|a|..] == b;
    CountAppend(a, b[|a|..], c);
  }

  lemma {:induction false} CountZero(s: string, c: char)
    ensures Count(s, c) == 0 <==> c !in s
  {
    if s != [] {
      CountZero(s[1..], c);
      assert c in s <==> s[0] == c || c in s[1..];
    }
  }

  /** `String.prototype.split('/')`: never empty, and no segment holds a '/'. */
  function Split(s: string): (r: seq<string>)
    ensures |r| >= 1
    ensures forall i :: 0 <= i < |r| ==> '/' !in r[i]
    ensures |r| == Count(s, '/') + 1
  {
    if s == [] then [""]
    else
      var rest := Split(s[1..]);
      if s[0] == '/' then [""] + rest
      else [[s[0]] + rest[0]] + rest[1..]
  }

  /** `Array.prototype.join('/')`. */
  function Join(segs: seq<string>): string {
    if segs == [] then ""
    else if |segs| == 1 then segs[0]
    else segs[0] + "/" + Join(segs[1..])
  }

  /** Splitting and joining again gives back the string. */
  lemma {:induction false} JoinSplit(s: string)
    ensures Join(Split(s)) == s
  {
    if s != [] {
      var rest := Split(s[1..]);
      JoinSplit(s[1..]);
      if s[0] == '/' {
        assert Join([""] + rest) == "" + "/" + Join(rest);
      } else if |rest| == 1 {
        assert Split(s) == [[s[0]] + rest[0]];
      } else {
        assert ([[s[0]] + rest[0]] + rest[1..])[1..] == rest[1..];
        assert Join(rest) == rest[0] + "/" + Join(rest[1..]);
      }
    }
  }

  /** Joining two non-empty runs of segments puts one '/' between them. */
  lemma {:induction false} JoinAppend(a: seq<string>, b: seq<string>)
    requires a != [] && b != []
    ensures Join(a + b) == Join(a) + "/" + Join(b)
  {
    if |a| > 1 {
      assert (a + b)[1..] == a[1..] + b;
      JoinAppend(a[1..], b);
    } else {
      assert (a + b)[1..] == b;
    }
  }

  /** `segments.slice(-2)`: the last two segments, or all of them when there are fewer. */
  function LastTwo(segs: seq<string>): (r: seq<string>)
    ensures |r| == if |segs| < 2 then |segs| else 2
    ensures segs == segs[..|segs| - |r|] + r
  {
    if |segs| < 2 then segs else segs[|segs| - 2..]
  }

  /** The rejoined last two segments of the URL. */
  function Tail(url: string): string {
    Join(LastTwo(Split(url)))
  }

  /** The tail is the end of the URL, after its second-to-last '/' if it has one. */
  lemma TailIsSuffix(url: string)
    ensures |Tail(url)| <= |url|
    ensures url[|url| - |Tail(url)|..] == Tail(url)
  {
    var segs := Split(url);
    var tail := LastTwo(segs);
    var head := segs[..|segs| - |tail|];
    JoinSplit(url);
    if head != [] {
      JoinAppend(head, tail);
      assert url == Join(head) + "/" + Tail(url);
    }
  }

  /** The tail holds at most one '/'. */
  lemma TailSlashes(url: string)
    ensures Count(Tail(url), '/') <= 1
  {
    var tail := LastTwo(Split(url));
    CountZero(tail[0], '/');
    if |tail| == 2 {
      CountZero(tail[1], '/');
      assert Join(tail[1..]) == tail[1];
      CountAppend(tail[0], "/", '/');
      CountAppend(tail[0] + "/", tail[1], '/');
    }
  }

  /** `String.prototype.lastIndexOf(c)`: the last index holding `c`, or -1. */
  function LastIndexOf(s: string, c: char): (i: int)
    ensures -1 <= i < |s|
    ensures i == -1 <==> c !in s
    ensures i >= 0 ==> s[i] == c && c !in s[i + 1..]
  {
    if s == [] then -1
    else if s[|s| - 1] == c then |s| - 1
    else
      var i := LastIndexOf(s[..|s| - 1], c);
      assert s[..|s| - 1] + [s[|s| - 1]] == s;
      if i >= 0 then assert s[i + 1..] == s[..|s| - 1][i + 1..] + [s[|s| - 1]]; i else i
  }

  /** `String.prototype.substring(0, end)`: a negative end counts as 0, one past the length as the length. */
  function Prefix(s: string, end: int): (r: string)
    ensures |r| == if end < 0 then 0 else if end > |s| then |s| else end
    ensures r <= s
  {
    if end < 0 then "" else if end > |s| then s else s[..end]
  }

  /** `publicId.substring(0, publicId.lastIndexOf('.'))`: the text before the last '.', or "" without one. */
  function BeforeLastDot(s: string): (r: string)
    ensures r <= s
    ensures '.' !in s ==> r == ""
    ensures '.' in s ==> |r| < |s| && s[|r|] == '.' && '.' !in s[|r| + 1..]
  {
    Prefix(s, LastIndexOf(s, '.'))
  }

  /** `extractPublicIdFromImageUrl`. */
  function PublicId(url: string): (r: string)
    ensures r == BeforeLastDot(Tail(url))
    ensures r <= Tail(url)
  {
    BeforeLastDot(Tail(url))
  }

  /** The public id is a prefix of the tail with at most one '/'. */
  lemma PublicIdSlashes(url: string)
    ensures Count(PublicId(url), '/') <= 1
  {
    TailSlashes(url);
    CountPrefix(PublicId(url), Tail(url), '/');
  }
}

/** The join page's `handleJoin`: from what the user typed (a poll id or a
    link to a poll) work out the poll id and navigate to `/poll/<id>`, or do
    nothing. Pure string handling: trim, split on '/', drop empty segments,
    look for the segment after `poll`. */
module JoinPage {
  import opened Common

  // ----- JavaScript string primitives -----

  /** The characters `String.prototype.trim` removes: JavaScript's
      WhiteSpace and LineTerminator code points. */
  predicate IsJsSpace(c: char) {
    c == '\t' || c == '\n' || c == '\U{000B}' || c == '\U{000C}' || c == '\r' || c == ' ' ||
    c == '\U{00A0}' || c == '\U{1680}' || ('\U{2000}' <= c <= '\U{200A}') ||
    c == '\U{2028}' || c == '\U{2029}' || c == '\U{202F}' || c == '\U{205F}' ||
    c == '\U{3000}' || c == '\U{FEFF}'
  }

  function TrimStart(s: string): (r: string)
    ensures |r| <= |s| && r == s[|s| - |r|..]
    ensures forall i :: 0 <= i < |s| - |r| ==> IsJsSpace(s[i])
    ensures r != [] ==> !IsJsSpace(r[0])
  {
    if s != [] && IsJsSpace(s[0]) then TrimStart(s[1..]) else s
  }

  function TrimEnd(s: string): (r: string)
    ensures |r| <= |s| && r == s[..|r|]
    ensures forall i :: |r| <= i < |s| ==> IsJsSpace(s[i])
    ensures r != [] ==> !IsJsSpace(r[|r| - 1])
  {
    if s != [] && IsJsSpace(s[|s| - 1]) then TrimEnd(s[..|s| - 1]) else s
  }

  /** `s.trim()`: the middle of `s` between its leading and trailing white
      space. */
  function Trim(s: string): (r: string)
    ensures var i := |s| - |TrimStart(s)|;
      i + |r| <= |s| && r == s[i..i + |r|] &&
      (forall k :: 0 <= k < i ==> IsJsSpace(s[k])) &&
      (forall k :: i + |r| <= k < |s| ==> IsJsSpace(s[k]))
    ensures r != [] ==> !IsJsSpace(r[0]) && !IsJsSpace(r[|r| - 1])
  {
    var t := TrimStart(s);
    var r := TrimEnd(t);
    TrimMiddle(s, t, r);
    r
  }

  /** Trimming the front to `t` and then the back of `t` to `r` leaves
      `r` in the middle of `s`, white space on either side of it and none
      at either of its ends. */
  lemma TrimMiddle(s: string, t: string, r: string)
    requires |t| <= |s| && t == s[|s| - |t|..]
    requires forall k :: 0 <= k < |s| - |t| ==> IsJsSpace(s[k])
    requires t != [] ==> !IsJsSpace(t[0])
    requires |r| <= |t| && r == t[..|r|]
    requires forall k :: |r| <= k < |t| ==> IsJsSpace(t[k])
    requires r != [] ==> !IsJsSpace(r[|r| - 1])
    ensures var i := |s| - |t|;
      i + |r| <= |s| && r == s[i..i + |r|] &&
      (forall k :: 0 <= k < i ==> IsJsSpace(s[k])) &&
      (forall k :: i + |r| <= k < |s| ==> IsJsSpace(s[k]))
    ensures r != [] ==> !IsJsSpace(r[0]) && !IsJsSpace(r[|r| - 1])
  {
    TrimmedTail(s, t, r);
    if r != [] {
      assert r[0] == t[0];
    }
  }

  lemma TrimmedTail(s: string, t: string, r: string)
    requires |t| <= |s| && t == s[|s| - |t|..]
    requires |r| <= |t| && r == t[..|r|]
    requires forall k :: |r| <= k < |t| ==> IsJsSpace(t[k])
    ensures forall k :: |s| - |t| + |r| <= k < |s| ==> IsJsSpace(s[k])
  {
    var i := |s| - |t|;
    forall k | i + |r| <= k < |s|
      ensures IsJsSpace(s[k])
    {
      assert s[k] == t[k - i];
    }
  }

  /** The pieces joined back with '/' between them (the inverse of `Split`). */
  function Joined(pieces: seq<string>): string
    requires pieces != []
  {
    if |pieces| == 1 then pieces[0] else pieces[0] + "/" + Joined(pieces[1..])
  }

  /** `s.split('/')`: the pieces between the slashes, empty ones included;
      the empty string gives one empty piece. */
  function Split(s: string): (r: seq<string>)
    ensures r != [] && Joined(r) == s
    ensures forall i :: 0 <= i < |r| ==> '/' !in r[i]
  {
    if s == [] then [""]
    else if s[0] == '/' then
      var t := Split(s[1..]);
      assert s == "/" + s[1..];
      [""] + t
    else
      var t := Split(s[1..]);
      var r := [[s[0]] + t[0]] + t[1..];
      assert Joined(r) == s by {
        if |t| > 1 {
          assert r[1..] == t[1..];
          assert Joined(t) == t[0] + "/" + Joined(t[1..]);
        }
        assert s == [s[0]] + s[1..];
      }
      r
  }

  /** `.filter(Boolean)`: the non-empty pieces, in order. */
  function NonEmpty(pieces: seq<string>): (r: seq<string>)
    ensures |r| <= |pieces|
    ensures forall i :: 0 <= i < |r| ==> r[i] != [] && r[i] in pieces
  {
    if pieces == [] then []
    else (if pieces[0] != [] then [pieces[0]] else []) + NonEmpty(pieces[1..])
  }

  /** `segments.indexOf(w)`: the first position of `w`, or -1. */
  function IndexOf(segments: seq<string>, w: string): (k: int)
    ensures -1 <= k < |segments|
    ensures k >= 0 ==> segments[k] == w && forall j :: 0 <= j < k ==> segments[j] != w
    ensures k == -1 ==> w !in segments
  {
    if segments == [] then -1
    else if segments[0] == w then 0
    else
      var k := IndexOf(segments[1..], w);
      if k == -1 then -1 else k + 1
  }

  predicate StartsWith(s: string, prefix: string) {
    |prefix| <= |s| && s[..|prefix|] == prefix
  }

  /** The longest prefix of `s` holding none of `stops`. */
  function TakeUntil(s: string, stops: set<char>): (r: string)
    ensures |r| <= |s| && r == s[..|r|]
    ensures forall i :: 0 <= i < |r| ==> r[i] !in stops
    ensures |r| < |s| ==> s[|r|] in stops
  {
    if s == [] || s[0] in stops then [] else [s[0]] + TakeUntil(s[1..], stops)
  }

  function DropLeadingSlashes(s: string): (r: string)
    ensures |r| <= |s| && r == s[|s| - |r|..]
    ensures forall i :: 0 <= i < |s| - |r| ==> s[i] == '/'
    ensures r != [] ==> r[0] != '/'
  {
    if s != [] && s[0] == '/' then DropLeadingSlashes(s[1..]) else s
  }

  // ----- The page's logic -----

  /** What follows `http://` or `https://`; an input without either prefix
      gets `https://` put in front (`input.match(/^https?:\/\//)`), so it is
      all authority and path. */
  function AfterScheme(input: string): string {
    if StartsWith(input, "https://") then input[8..]
    else if StartsWith(input, "http://") then input[7..]
    else input
  }

  /** The `pathname` of `new URL(...)`, or `None` where the constructor
      throws. Approximation of the URL parser: leading slashes before the
      host are skipped, the host runs to the first '/', '?' or '#', parsing
      fails when the host is empty or holds a space, and the path runs to the
      first '?' or '#'. */
  function Pathname(input: string): (r: Option<string>)
    ensures r.Some? ==> '?' !in r.value && '#' !in r.value
    ensures r.Some? && r.value != [] ==> r.value[0] == '/'
  {
    var rest := DropLeadingSlashes(AfterScheme(input));
    var host := TakeUntil(rest, {'/', '?', '#'});
    if host == [] || ' ' in host then None
    else Some(TakeUntil(rest[|host|..], {'?', '#'}))
  }

  /** The last non-empty segment, or `fallback` when there is none. */
  function LastOr(segments: seq<string>, fallback: string): string {
    if |segments| > 0 then segments[|segments| - 1] else fallback
  }

  /** The id a parsed link's path segments give: the segment after the
      first `poll` if there is one, else the last segment, else `fallback`. */
  function IdFromSegments(segments: seq<string>, fallback: string): (r: string)
    ensures segments != [] ==> r in segments
    ensures segments == [] ==> r == fallback
  {
    var p := IndexOf(segments, "poll");
    if p != -1 && p + 1 < |segments| && segments[p + 1] != [] then segments[p + 1]
    else LastOr(segments, fallback)
  }

  /** `idToJoin` before the trailing-slash clean-up, for a trimmed input. */
  function ExtractId(input: string): (r: string)
    ensures r == input || (r != [] && '/' !in r)
  {
    if '/' !in input then input
    else match Pathname(input)
      case Some(path) => IdFromSegments(NonEmpty(Split(path)), input)
      case None => LastOr(NonEmpty(Split(input)), input)
  }

  /** `replace(/\/$/, '')`: one trailing slash goes. */
  function StripTrailingSlash(id: string): (r: string)
    ensures if id != [] && id[|id| - 1] == '/' then id == r + "/" else r == id
  {
    if id != [] && id[|id| - 1] == '/' then id[..|id| - 1] else id
  }

  const MinIdLength: nat := 5

  /** `handleJoin`: the path navigated to, or `None` when the page stays
      (empty input, or an id shorter than five characters). */
  function JoinTarget(raw: string): (r: Option<string>)
    ensures Trim(raw) == [] ==> r.None?
  {
    var input := Trim(raw);
    if input == [] then None
    else
      var id := StripTrailingSlash(ExtractId(input));
      if |id| < MinIdLength then None else Some("/poll/" + id)
  }

  // ----- What the page promises -----

  /** The page navigates exactly to `/poll/` followed by the cleaned-up id,
      and only when that id has at least five characters. */
  lemma NavigatesToCleanId(raw: string)
    requires Trim(raw) != []
    ensures var id := StripTrailingSlash(ExtractId(Trim(raw)));
      JoinTarget(raw) == if |id| >= 5 then Some("/poll/" + id) else None
  {
  }

  /** An input without '/' is the id as typed (trimmed). */
  lemma PlainIdVerbatim(raw: string)
    requires Trim(raw) != [] && '/' !in Trim(raw)
    ensures JoinTarget(raw) == if |Trim(raw)| >= 5 then Some("/poll/" + Trim(raw)) else None
  {
  }

  /** When a link's path holds `poll` followed by another segment, the id
      is the segment after the first `poll`. */
  lemma SegmentAfterPoll(segments: seq<string>, fallback: string, p: nat)
    requires forall j :: 0 <= j < |segments| ==> segments[j] != []
    requires p + 1 < |segments| && segments[p] == "poll"
    requires forall j :: 0 <= j < p ==> segments[j] != "poll"
    ensures IdFromSegments(segments, fallback) == segments[p + 1]
  {
  }

  /** Otherwise the id is the last segment of the path; a path without
      segments keeps the whole input. */
  lemma LastSegmentOtherwise(segments: seq<string>, fallback: string)
    requires forall p :: 0 <= p < |segments| - 1 ==> segments[p] != "poll"
    ensures IdFromSegments(segments, fallback) == LastOr(segments, fallback)
  {
  }

  /** A link the URL parser accepts is read through its path segments. */
  lemma ParsedLinkUsesPath(input: string)
    requires '/' in input && Pathname(input).Some?
    ensures ExtractId(input) == IdFromSegments(NonEmpty(Split(Pathname(input).value)), input)
  {
  }

  /** Where the URL constructor throws, the id is the last non-empty
      segment of the input itself. */
  lemma UnparsableFallsBack(input: string)
    requires '/' in input && Pathname(input).None?
    ensures ExtractId(input) == LastOr(NonEmpty(Split(input)), input)
  {
  }

  /** Splitting at the first slash: a '/'-free head is the first piece. */
  lemma {:induction false} SplitAtSlash(a: string, b: string)
    requires '/' !in a
    ensures Split(a + "/" + b) == [a] + Split(b)
  {
    if a == [] {
      assert a + "/" + b == "/" + b;
      assert ("/" + b)[1..] == b;
    } else {
      assert (a + "/" + b)[1..] == a[1..] + "/" + b;
      SplitAtSlash(a[1..], b);
      assert [a[0]] + a[1..] == a;
    }
  }

  /** `filter(Boolean)` drops exactly the empty pieces: every non-empty
      piece is kept, as often as it occurs. */
  lemma {:induction false} NonEmptyKeepsPieces(pieces: seq<string>)
    ensures multiset(NonEmpty(pieces)) == multiset(pieces)[[] := 0]
  {
    if pieces != [] {
      NonEmptyKeepsPieces(pieces[1..]);
      assert pieces == [pieces[0]] + pieces[1..];
      assert multiset(pieces) == multiset{pieces[0]} + multiset(pieces[1..]);
    }
  }

  /** `filter(Boolean)` keeps the pieces in order: filtering a
      concatenation is concatenating the filtered parts. */
  lemma {:induction false} NonEmptyConcat(a: seq<string>, b: seq<string>)
    ensures NonEmpty(a + b) == NonEmpty(a) + NonEmpty(b)
  {
    if a != [] {
      var ab := a + b;
      var head := if a[0] != [] then [a[0]] else [];
      assert ab[0] == a[0] && ab[1..] == a[1..] + b;
      assert NonEmpty(ab) == head + NonEmpty(a[1..] + b);
      assert NonEmpty(a) == head + NonEmpty(a[1..]);
      NonEmptyConcat(a[1..], b);
    } else {
      assert a + b == b;
    }
  }

  lemma {:induction false} SplitWithoutSlash(a: string)
    requires '/' !in a
    ensures Split(a) == [a]
  {
    if a != [] {
      SplitWithoutSlash(a[1..]);
      assert [a[0]] + a[1..] == a;
    }
  }

  lemma {:induction false} TakeUntilStops(a: string, b: string, stops: set<char>)
    requires forall i :: 0 <= i < |a| ==> a[i] !in stops
    requires b == [] || b[0] in stops
    ensures TakeUntil(a + b, stops) == a
  {
    if a != [] {
      assert (a + b)[1..] == a[1..] + b;
      TakeUntilStops(a[1..], b, stops);
    }
  }

  lemma TrimUnchanged(s: string)
    requires s != [] && !IsJsSpace(s[0]) && !IsJsSpace(s[|s| - 1])
    ensures Trim(s) == s
  {
  }

  /** The path of a link with an explicit `https://` scheme and a host. */
  lemma {:induction false} PathnameOfLink(host: string, path: string)
    requires host != [] && forall i :: 0 <= i < |host| ==> host[i] !in {'/', '?', '#', ' '}
    requires path != [] && path[0] == '/' && forall i :: 0 <= i < |path| ==> path[i] !in {'?', '#'}
    ensures Pathname("https://" + host + path) == Some(path)
  {
    var link := "https://" + host + path;
    assert StartsWith(link, "https://");
    var rest := host + path;
    assert link[8..] == rest;
    assert DropLeadingSlashes(rest) == rest;
    TakeUntilStops(host, path, {'/', '?', '#'});
    assert rest[|host|..] == path;
    TakeUntilStops(path, [], {'?', '#'});
    assert path + [] == path;
  }

  /** The segments of a `/poll/<id>` path. */
  lemma {:induction false} PollPathSegments(id: string)
    requires id != [] && '/' !in id
    ensures NonEmpty(Split("/poll/" + id)) == ["poll", id]
  {
    SplitAtSlash("", "poll/" + id);
    assert "" + "/" + ("poll/" + id) == "/poll/" + id;
    SplitAtSlash("poll", id);
    assert "poll" + "/" + id == "poll/" + id;
    SplitWithoutSlash(id);
    var pieces := ["", "poll", id];
    assert Split("/poll/" + id) == pieces;
    assert pieces[1..][1..][1..] == [];
    assert NonEmpty(pieces[1..][1..]) == [id];
    assert NonEmpty(pieces[1..]) == ["poll", id];
  }

  /** `handleJoin` on an input it leaves untouched by trimming and whose
      extracted id is already clean. */
  lemma {:induction false} JoinTargetOfTrimmed(input: string, id: string)
    requires input != [] && !IsJsSpace(input[0]) && !IsJsSpace(input[|input| - 1])
    requires StripTrailingSlash(ExtractId(input)) == id && |id| >= 5
    ensures JoinTarget(input) == Some("/poll/" + id)
  {
    TrimUnchanged(input);
  }

  lemma {:induction false} ShareLinkId(host: string, id: string)
    requires host != [] && forall i :: 0 <= i < |host| ==> host[i] !in {'/', '?', '#', ' '}
    requires id != [] && forall i :: 0 <= i < |id| ==> id[i] !in {'/', '?', '#'}
    ensures ExtractId("https://" + host + ("/poll/" + id)) == id
  {
    var path := "/poll/" + id;
    var link := "https://" + host + path;
    assert link[8 + |host|] == '/';
    assert '/' !in id;
    PathnameOfLink(host, path);
    PollPathSegments(id);
    assert IndexOf(["poll", id], "poll") == 0;
  }

  /** The share link of a poll (`https://<host>/poll/<id>`, as the poll
      view copies it) leads back to that poll, for any host and any id of at
      least five characters that the link grammar leaves intact. */
  lemma {:induction false} ShareLinkRoundTrip(host: string, id: string)
    requires host != [] && forall i :: 0 <= i < |host| ==> host[i] !in {'/', '?', '#', ' '}
    requires |id| >= 5 && forall i :: 0 <= i < |id| ==> id[i] !in {'/', '?', '#'}
    requires !IsJsSpace(id[|id| - 1])
    ensures JoinTarget("https://" + host + ("/poll/" + id)) == Some("/poll/" + id)
  {
    var link := "https://" + host + ("/poll/" + id);
    assert link[0] == 'h' && link[|link| - 1] == id[|id| - 1];
    ShareLinkId(host, id);
    assert id[|id| - 1] != '/';
    JoinTargetOfTrimmed(link, id);
  }

  lemma {:induction false} EmptyPathId(host: string)
    requires host != [] && forall i :: 0 <= i < |host| ==> host[i] !in {'/', '?', '#', ' '}
    ensures ExtractId("https://" + host + "/") == "https://" + host + "/"
  {
    var link := "https://" + host + "/";
    assert link[|link| - 1] == '/';
    PathnameOfLink(host, "/");
    SplitAtSlash("", "");
    assert "" + "/" + "" == "/";
    var segments := NonEmpty(Split("/"));
    assert segments == [];
    assert IdFromSegments(segments, link) == link;
    ParsedLinkUsesPath(link);
  }

  lemma StripSlashOf(id: string)
    ensures StripTrailingSlash(id + "/") == id
  {
    assert (id + "/")[..|id|] == id;
  }

  /** A link whose path is empty keeps the whole input, minus one trailing
      slash, as the id: `https://<host>/` leads to `/poll/https://<host>`. */
  lemma {:induction false} EmptyPathKeepsInput(host: string)
    requires host != [] && forall i :: 0 <= i < |host| ==> host[i] !in {'/', '?', '#', ' '}
    ensures JoinTarget("https://" + host + "/") == Some("/poll/" + ("https://" + host))
  {
    var id := "https://" + host;
    var link := id + "/";
    EmptyPathId(host);
    StripSlashOf(id);
    assert link[0] == 'h';
    JoinTargetOfTrimmed(link, id);
  }
}

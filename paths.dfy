/**
 * How the local upload provider names things: the namespace token that the
 * pattern `::(\w*)::` extracts from a file's declared name, the location a
 * file is stored at below the uploads folder, its absolute path on disk and
 * the root-relative URL handed back to the caller.
 */
module Paths {
  import opened Wrappers

  // ---------------------------------------------------------------------------
  // The pattern `::(\w*)::`
  // ---------------------------------------------------------------------------

  /** A character `\w` matches in a JavaScript regular expression without the
      `i` flag (the `u` flag does not widen it): an ASCII letter or digit, or `_`. */
  predicate IsWordChar(c: char) {
    'a' <= c <= 'z' || 'A' <= c <= 'Z' || '0' <= c <= '9' || c == '_'
  }

  predicate AllWordChars(s: string) {
    forall k :: 0 <= k < |s| ==> IsWordChar(s[k])
  }

  /** The pattern matches `s` at index `i` with `tok` as its capture:
      two colons, `tok` (word characters only), two colons. */
  predicate IsMatchAt(s: string, i: nat, tok: string) {
    && i + |tok| + 4 <= |s|
    && s[i] == ':' && s[i + 1] == ':'
    && s[i + 2 .. i + 2 + |tok|] == tok && AllWordChars(tok)
    && s[i + 2 + |tok|] == ':' && s[i + 3 + |tok|] == ':'
  }

  /** The match `exec` reports: the leftmost index at which the pattern matches. */
  ghost predicate IsLeftmostMatch(s: string, i: nat, tok: string) {
    IsMatchAt(s, i, tok) && forall j: nat, t :: j < i ==> !IsMatchAt(s, j, t)
  }

  /** Where a greedy `\w*` that starts at index `j` stops. */
  function WordRunEnd(s: string, j: nat): (e: nat)
    requires j <= |s|
    ensures j <= e <= |s|
    ensures forall k :: j <= k < e ==> IsWordChar(s[k])
    ensures e == |s| || !IsWordChar(s[e])
    decreases |s| - j
  {
    if j < |s| && IsWordChar(s[j]) then WordRunEnd(s, j + 1) else j
  }

  /** A match at `i` captures exactly the run of word characters after the
      opening colons: backtracking `\w*` cannot help, as `:` is not a word
      character. */
  lemma CaptureIsWordRun(s: string, i: nat, tok: string)
    requires IsMatchAt(s, i, tok)
    ensures WordRunEnd(s, i + 2) == i + 2 + |tok|
  {
    var m := i + 2 + |tok|;
    assert forall k :: i + 2 <= k < m ==> s[k] == tok[k - (i + 2)];
    assert !IsWordChar(s[m]);
  }

  /** What the matcher finds when it tries index `i` and no other. */
  function MatchAt(s: string, i: nat): Option<string> {
    if i + 2 <= |s| && s[i] == ':' && s[i + 1] == ':' then
      var e := WordRunEnd(s, i + 2);
      if e + 2 <= |s| && s[e] == ':' && s[e + 1] == ':' then Some(s[i + 2 .. e]) else None
    else
      None
  }

  /** Trying index `i` finds a match exactly when the pattern matches there,
      and then its capture is the only one possible. */
  lemma MatchAtCharacterised(s: string, i: nat)
    ensures forall tok :: IsMatchAt(s, i, tok) <==> MatchAt(s, i) == Some(tok)
  {
    if MatchAt(s, i).Some? {
      var e := WordRunEnd(s, i + 2);
      assert IsMatchAt(s, i, s[i + 2 .. e]);
    }
    forall tok | IsMatchAt(s, i, tok)
      ensures MatchAt(s, i) == Some(tok)
    {
      CaptureIsWordRun(s, i, tok);
    }
  }

  /** A match of the pattern: where it starts and what the group `sid` captured. */
  datatype Match = Match(index: nat, sid: string)

  /** The matcher's scan: try each start index from `from` on, stop at the first that matches. */
  function FirstMatchFrom(s: string, from: nat): (r: Option<Match>)
    ensures r.Some? ==> from <= r.value.index && IsMatchAt(s, r.value.index, r.value.sid)
    ensures forall j: nat, t :: from <= j && (r.None? || j < r.value.index) ==> !IsMatchAt(s, j, t)
    decreases |s| - from
  {
    if |s| <= from then None
    else
      MatchAtCharacterised(s, from);
      match MatchAt(s, from)
      case Some(tok) => Some(Match(from, tok))
      case None => FirstMatchFrom(s, from + 1)
  }

  /** `regex.exec(name)` on a freshly built pattern, whose scan starts at index 0. */
  function Exec(s: string): (r: Option<Match>)
    ensures r.Some? ==> IsLeftmostMatch(s, r.value.index, r.value.sid)
    ensures r.None? ==> forall j: nat, t :: !IsMatchAt(s, j, t)
  {
    FirstMatchFrom(s, 0)
  }

  /** The pattern has at most one leftmost match. */
  lemma LeftmostMatchIsUnique(s: string, i: nat, tok: string, j: nat, t: string)
    requires IsLeftmostMatch(s, i, tok) && IsLeftmostMatch(s, j, t)
    ensures i == j && tok == t
  {
    MatchAtCharacterised(s, i);
  }

  /** The namespace of an uploaded file: the capture of the leftmost match of
      `::(\w*)::` in its declared name, where an empty capture, like no match
      at all, means there is none. */
  function Namespace(name: string): (ns: Option<string>)
    ensures ns.Some? ==> ns.value != [] && AllWordChars(ns.value)
    ensures ns.Some? ==> ':' !in ns.value && '/' !in ns.value
    ensures forall i: nat, tok :: IsLeftmostMatch(name, i, tok) ==>
              ns == (if tok == [] then None else Some(tok))
    ensures (forall i: nat, tok :: !IsMatchAt(name, i, tok)) ==> ns == None
  {
    match Exec(name)
    case None => None
    case Some(m) =>
      LeftmostAgrees(name, m);
      if m.sid == [] then None else Some(m.sid)
  }

  lemma LeftmostAgrees(s: string, m: Match)
    requires IsLeftmostMatch(s, m.index, m.sid)
    ensures forall i: nat, tok :: IsLeftmostMatch(s, i, tok) ==> i == m.index && tok == m.sid
  {
    forall i: nat, tok | IsLeftmostMatch(s, i, tok)
      ensures i == m.index && tok == m.sid
    {
      LeftmostMatchIsUnique(s, i, tok, m.index, m.sid);
    }
  }

  /** An empty capture at the leftmost match hides every later `::tok::`:
      such a name has no namespace even though a non-empty token follows. */
  lemma EmptyCaptureHidesLaterToken(s: string, i: nat, j: nat, tok: string)
    requires IsLeftmostMatch(s, i, [])
    requires IsMatchAt(s, j, tok) && tok != []
    ensures i < j && Namespace(s) == None
  {
    MatchAtCharacterised(s, j);
  }

  /** `photo.png` contains no `::tok::`, so it has no namespace. */
  lemma NoNamespaceExample(name: string)
    requires name == "photo.png"
    ensures Namespace(name) == None
  {
    assert forall j: nat, t :: !IsMatchAt(name, j, t);
  }

  /** `::user42::avatar.png` has namespace `user42`. */
  lemma NamespaceExample(name: string)
    requires name == "::user42::avatar.png"
    ensures Namespace(name) == Some("user42")
  {
    assert name[2..8] == "user42";
    assert IsLeftmostMatch(name, 0, "user42");
  }

  /** `::::x::` has no namespace although `::x::` occurs in it: the leftmost
      match is `::::`, with an empty capture. */
  lemma EmptyCaptureExample(name: string)
    requires name == "::::x::"
    ensures IsMatchAt(name, 2, "x") && Namespace(name) == None
  {
    assert IsMatchAt(name, 0, []);
    assert IsMatchAt(name, 2, "x");
    EmptyCaptureHidesLaterToken(name, 0, 2, "x");
  }

  // ---------------------------------------------------------------------------
  // Layout below the uploads folder, paths on disk and URLs
  // ---------------------------------------------------------------------------

  /** Where a file is stored below the uploads folder: in the namespace
      directory when there is a namespace, else directly in the folder. */
  datatype Location = Location(namespace: Option<string>, fileName: string)

  /** The stored file's location: a function of (namespace, hash, ext) alone. */
  function TargetLocation(ns: Option<string>, hash: string, ext: string): (r: Location)
    ensures r == Location(None, hash + ext) <==> ns.None?
    ensures r.fileName == hash + ext
  {
    Location(ns, hash + ext)
  }

  /** Where `delete` looks, whatever namespace the file was stored under. */
  function FlatLocation(hash: string, ext: string): Location {
    Location(None, hash + ext)
  }

  const UploadsFolderName: string := "uploads"

  /** The uploads folder below the framework's public directory. */
  function UploadPath(publicRoot: string): string {
    publicRoot + "/" + UploadsFolderName
  }

  /** The absolute path of a location (joining with `/`; no normalisation):
      it lies below the uploads folder and ends with the file name. */
  function DiskPath(uploadPath: string, loc: Location): (p: string)
    ensures |p| >= |uploadPath| + 1 + |loc.fileName| && p[..|uploadPath| + 1] == uploadPath + "/"
    ensures p[|p| - |loc.fileName|..] == loc.fileName
  {
    match loc.namespace
    case Some(n) => uploadPath + "/" + n + "/" + loc.fileName
    case None => uploadPath + "/" + loc.fileName
  }

  /** The URL assigned to `file.url` after a successful store. */
  function Url(ns: Option<string>, hash: string, ext: string): (u: string)
    ensures |u| >= 9 + |hash + ext| && u[..9] == "/uploads/"
    ensures u[|u| - |hash + ext|..] == hash + ext
  {
    if ns.Some? then "/uploads/" + ns.value + "/" + hash + ext
    else "/uploads/" + hash + ext
  }

  /** The URL, served from the public directory, names the file the provider wrote. */
  lemma UrlMirrorsDiskPath(publicRoot: string, ns: Option<string>, hash: string, ext: string)
    ensures DiskPath(UploadPath(publicRoot), TargetLocation(ns, hash, ext))
            == publicRoot + Url(ns, hash, ext)
  {
    var f := hash + ext;
    var up := UploadPath(publicRoot);
    var head := "/uploads/";
    assert publicRoot + head == up + "/" by {
      assert head == "/" + UploadsFolderName + "/";
    }
    match ns
    case None =>
      assert Url(ns, hash, ext) == head + f by {
        ConcatAssoc(head, hash, ext);
      }
      ConcatAssoc(publicRoot, head, f);
    case Some(n) =>
      var tail := n + "/" + f;
      assert Url(ns, hash, ext) == head + tail by {
        ConcatAssoc(head + n + "/", hash, ext);
        ConcatAssoc(head + n, "/", f);
        ConcatAssoc(head, n, "/" + f);
        ConcatAssoc(n, "/", f);
      }
      ConcatAssoc(publicRoot, head, tail);
      assert DiskPath(up, TargetLocation(ns, hash, ext)) == (up + "/") + tail by {
        ConcatAssoc(up + "/" + n, "/", f);
        ConcatAssoc(up + "/", n, "/" + f);
        ConcatAssoc(n, "/", f);
      }
  }

  lemma ConcatAssoc(a: string, b: string, c: string)
    ensures a + (b + c) == a + b + c
  {
  }

  /** The first index of `c` in `s`, if any. */
  function IndexOf(s: string, c: char): (r: Option<nat>)
    ensures r.Some? ==> r.value < |s| && s[r.value] == c && c !in s[..r.value]
    ensures r.None? ==> c !in s
  {
    if s == [] then None
    else if s[0] == c then Some(0)
    else
      match IndexOf(s[1..], c)
      case None => None
      case Some(k) =>
        assert s[..k + 1] == [s[0]] + s[1..][..k];
        Some(k + 1)
  }

  /** The location a URL of the provider's shape refers to: the inverse of `Url`. */
  function LocationOfUrl(url: string): Option<Location> {
    var prefix := "/uploads/";
    if |url| < |prefix| || url[..|prefix|] != prefix then None
    else
      var rest := url[|prefix|..];
      match IndexOf(rest, '/')
      case None => Some(Location(None, rest))
      case Some(k) => Some(Location(Some(rest[..k]), rest[k + 1..]))
  }

  /** The URL determines where the file was stored, provided the namespace,
      and for a flat file the file name, contain no `/`. */
  lemma UrlRoundTrip(ns: Option<string>, hash: string, ext: string)
    requires ns.Some? ==> '/' !in ns.value
    requires ns.None? ==> '/' !in hash + ext
    ensures LocationOfUrl(Url(ns, hash, ext)) == Some(TargetLocation(ns, hash, ext))
  {
    var url := Url(ns, hash, ext);
    var prefix := "/uploads/";
    assert url[..|prefix|] == prefix;
    var rest := url[|prefix|..];
    match ns
    case None =>
      assert rest == hash + ext;
    case Some(n) =>
      assert rest == n + "/" + (hash + ext);
      var k := IndexOf(rest, '/');
      assert rest[|n|] == '/';
      assert rest[..|n|] == n;
      assert forall q :: 0 <= q < |n| ==> rest[q] == n[q];
      assert rest[|n| + 1..] == hash + ext;
  }
}

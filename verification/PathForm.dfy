/**
 The canonical form of a path-like argument, and when canonicalising twice is the same as once.
 */
module PathForm {
  import opened Common

  /** The characters ECMAScript's `\s` and `trim` both treat as white space. */
  predicate IsSpace(c: char) {
    '\U{9}' <= c <= '\U{d}' || c == ' ' || c == '\U{a0}' || c == '\U{1680}' || '\U{2000}' <= c <= '\U{200a}'
    || c == '\U{2028}' || c == '\U{2029}' || c == '\U{202f}' || c == '\U{205f}' || c == '\U{3000}' || c == '\U{feff}'
  }

  function Slashes(s: string): (r: string)
    ensures |r| == |s|
  {
    if s == [] then [] else [if s[0] == '\\' then '/' else s[0]] + Slashes(s[1..])
  }

  /** Every run of white space becomes one blank. */
  function CollapseRuns(s: string): string {
    if s == [] then []
    else if !IsSpace(s[0]) then [s[0]] + CollapseRuns(s[1..])
    else if |s| > 1 && IsSpace(s[1]) then CollapseRuns(s[1..])
    else [' '] + CollapseRuns(s[1..])
  }

  function TrimStart(s: string): string {
    if s != [] && IsSpace(s[0]) then TrimStart(s[1..]) else s
  }

  function TrimEnd(s: string): string {
    if s != [] && IsSpace(s[|s| - 1]) then TrimEnd(s[..|s| - 1]) else s
  }

  function Trim(s: string): string {
    TrimEnd(TrimStart(s))
  }

  function StripTrailingSlashes(s: string): string {
    if s != [] && s[|s| - 1] == '/' then StripTrailingSlashes(s[..|s| - 1]) else s
  }

  function Split(s: string): (parts: seq<string>)
    ensures parts != []
  {
    if s == [] then [[]] else Prepend(s[0], Split(s[1..]))
  }

  function Prepend(c: char, parts: seq<string>): (r: seq<string>)
    requires parts != []
    ensures r != []
  {
    if c == '/' then [[]] + parts else [[c] + parts[0]] + parts[1..]
  }

  function Join(segments: seq<string>): string {
    if segments == [] then []
    else if |segments| == 1 then segments[0]
    else segments[0] + ['/'] + Join(segments[1..])
  }

  function Push(segments: seq<string>, raw: string): seq<string> {
    var part := Trim(raw);
    if part == "" || part == "." then segments
    else if part == ".." then if segments == [] then [] else segments[..|segments| - 1]
    else segments + [part]
  }

  function Resolve(segments: seq<string>, parts: seq<string>): seq<string>
    decreases |parts|
  {
    if parts == [] then segments else Resolve(Push(segments, parts[0]), parts[1..])
  }

  predicate IsLetter(c: char) {
    'a' <= c <= 'z' || 'A' <= c <= 'Z'
  }

  predicate IsSchemeChar(c: char) {
    IsLetter(c) || '0' <= c <= '9' || c == '+' || c == '.' || c == '-'
  }

  predicate SchemeEnds(s: string, k: nat) {
    0 < k && k + 3 <= |s| && s[k..k + 3] == "://" && IsLetter(s[0]) && forall i :: 0 < i < k ==> IsSchemeChar(s[i])
  }

  predicate IsUri(s: string) {
    exists k :: 0 < k < |s| && SchemeEnds(s, k)
  }

  function Tidied(value: string): string {
    Trim(CollapseRuns(Slashes(value)))
  }

  function Root(root: Option<string>): string {
    if root.Some? then StripTrailingSlashes(Slashes(root.value)) else ""
  }

  function Show(segments: seq<string>): string {
    if segments == [] then "." else Join(segments)
  }

  function Segments(s: string): seq<string> {
    Resolve([], Split(s))
  }

  function Unrooted(s: string): string {
    if IsUri(s) then s else Show(Segments(if "~/" <= s then s[2..] else s))
  }

  predicate Under(s: string, prefix: string) {
    prefix != "" && (s == prefix || prefix + "/" <= s)
  }

  function Normalize(value: string, root: Option<string>): string {
    Relative(Tidied(value), Root(root))
  }

  function Relative(s: string, prefix: string): string {
    if !Under(s, prefix) then Unrooted(s)
    else if s == prefix then "."
    else Unrooted(s[|prefix| + 1..])
  }

  method NormalizePathLike(value: string, root: Option<string>) returns (r: string)
    ensures r == Normalize(value, root)
  {
    var s := Tidied(value);
    if root.Some? && root.value != "" {
      var prefix := StripTrailingSlashes(Slashes(root.value));
      if prefix != "" {
        if s == prefix {
          return ".";
        }
        if prefix + "/" <= s {
          s := s[|prefix| + 1..];
        }
      }
    }
    if IsUri(s) {
      return s;
    }
    if "~/" <= s {
      s := s[2..];
    }
    var segments := [];
    var parts := Split(s);
    for i := 0 to |parts|
      invariant Resolve([], parts) == Resolve(segments, parts[i..])
    {
      assert parts[i..][0] == parts[i] && parts[i..][1..] == parts[i + 1..];
      var part := Trim(parts[i]);
      if part == "" || part == "." {
        continue;
      }
      if part == ".." {
        if |segments| > 0 {
          segments := segments[..|segments| - 1];
        }
        continue;
      }
      segments := segments + [part];
    }
    r := if |segments| == 0 then "." else Join(segments);
  }

  // ----- tidy text

  /** White space only as single blanks, and no backslash. */
  ghost predicate Clean(s: string) {
    (forall i :: 0 <= i < |s| ==> s[i] != '\\' && (IsSpace(s[i]) ==> s[i] == ' '))
    && forall i, j :: 0 <= i < j < |s| && j == i + 1 ==> !IsSpace(s[i]) || !IsSpace(s[j])
  }

  predicate Trimmed(s: string) {
    s != [] ==> !IsSpace(s[0]) && !IsSpace(s[|s| - 1])
  }

  predicate NoBackslash(s: string) {
    forall i :: 0 <= i < |s| ==> s[i] != '\\'
  }

  lemma {:induction false} SlashesForward(s: string)
    ensures NoBackslash(Slashes(s)) && (NoBackslash(s) ==> Slashes(s) == s)
    decreases |s|
  {
    if s != [] {
      SlashesForward(s[1..]);
      if NoBackslash(s) {
        assert forall i :: 0 <= i < |s| - 1 ==> s[1..][i] == s[i + 1];
        assert s == [s[0]] + s[1..];
      }
    }
  }

  lemma {:induction false} CollapseClean(s: string)
    requires NoBackslash(s)
    ensures Clean(CollapseRuns(s)) && (CollapseRuns(s) == [] <==> s == [])
    ensures s != [] ==> (IsSpace(CollapseRuns(s)[0]) <==> IsSpace(s[0]))
    decreases |s|
  {
    if s != [] {
      CollapseClean(s[1..]);
    }
  }

  lemma {:induction false} CollapseIdle(s: string)
    requires Clean(s)
    ensures CollapseRuns(s) == s
    decreases |s|
  {
    if s != [] {
      CollapseIdle(s[1..]);
      assert s == [s[0]] + s[1..];
    }
  }

  lemma {:induction false} TrimStartSlice(s: string) returns (i: nat)
    ensures i <= |s| && TrimStart(s) == s[i..] && (i < |s| ==> !IsSpace(s[i]))
    decreases |s|
  {
    i := 0;
    if s != [] && IsSpace(s[0]) {
      var k := TrimStartSlice(s[1..]);
      i := k + 1;
    }
  }

  lemma {:induction false} TrimEndSlice(s: string) returns (j: nat)
    ensures j <= |s| && TrimEnd(s) == s[..j] && (j > 0 ==> !IsSpace(s[j - 1]))
    decreases |s|
  {
    j := |s|;
    if s != [] && IsSpace(s[|s| - 1]) {
      j := TrimEndSlice(s[..|s| - 1]);
      assert s[..|s| - 1][..j] == s[..j];
    }
  }

  lemma TrimSlice(s: string) returns (i: nat, j: nat)
    ensures i <= j <= |s| && Trim(s) == s[i..j] && Trimmed(Trim(s))
  {
    i := TrimStartSlice(s);
    var k := TrimEndSlice(s[i..]);
    j := i + k;
    assert s[i..][..k] == s[i..j];
  }

  lemma TidiedIs(value: string)
    ensures Clean(Tidied(value)) && Trimmed(Tidied(value))
  {
    SlashesForward(value);
    CollapseClean(Slashes(value));
    var i, j := TrimSlice(CollapseRuns(Slashes(value)));
  }

  lemma TidiedIdle(s: string)
    requires Clean(s) && Trimmed(s)
    ensures Tidied(s) == s
  {
    SlashesForward(s);
    CollapseIdle(s);
  }

  // ----- segments

  /** What a canonical path may have between its slashes. */
  ghost predicate Proper(seg: string) {
    seg != "" && seg != "." && seg != ".." && '/' !in seg && Clean(seg) && Trimmed(seg)
  }

  ghost predicate AllProper(segments: seq<string>) {
    forall i :: 0 <= i < |segments| ==> Proper(segments[i])
  }

  ghost predicate CleanPart(part: string) {
    Clean(part) && '/' !in part
  }

  lemma {:induction false} SplitClean(s: string)
    requires Clean(s)
    ensures forall i :: 0 <= i < |Split(s)| ==> CleanPart(Split(s)[i])
    ensures s != [] && s[0] != '/' ==> Split(s)[0] != [] && Split(s)[0][0] == s[0]
    ensures Split(s)[0] != [] ==> s != [] && Split(s)[0][0] == s[0]
    decreases |s|
  {
    if s != [] {
      SplitClean(s[1..]);
    }
  }

  lemma PushProper(segments: seq<string>, raw: string)
    requires AllProper(segments) && CleanPart(raw)
    ensures AllProper(Push(segments, raw))
  {
    var i, j := TrimSlice(raw);
  }

  lemma {:induction false} ResolveProper(segments: seq<string>, parts: seq<string>)
    requires AllProper(segments) && forall i :: 0 <= i < |parts| ==> CleanPart(parts[i])
    ensures AllProper(Resolve(segments, parts))
    decreases |parts|
  {
    if parts != [] {
      PushProper(segments, parts[0]);
      ResolveProper(Push(segments, parts[0]), parts[1..]);
    }
  }

  lemma {:induction false} ResolveIdle(segments: seq<string>, parts: seq<string>)
    requires AllProper(parts)
    ensures Resolve(segments, parts) == segments + parts
    decreases |parts|
  {
    if parts != [] {
      assert Proper(parts[0]);
      ResolveIdle(segments + [parts[0]], parts[1..]);
      assert segments + [parts[0]] + parts[1..] == segments + parts;
    }
  }

  lemma {:induction false} SplitOne(seg: string, rest: string)
    requires '/' !in seg
    ensures Split(seg) == [seg]
    ensures Split(seg + ['/'] + rest) == [seg] + Split(rest)
    decreases |seg|
  {
    var s := seg + ['/'] + rest;
    if seg == [] {
      assert s[1..] == rest;
    } else {
      SplitOne(seg[1..], rest);
      assert s[1..] == seg[1..] + ['/'] + rest;
      assert seg == [seg[0]] + seg[1..];
    }
  }

  lemma {:induction false} SplitJoin(segments: seq<string>)
    requires segments != [] && AllProper(segments)
    ensures Split(Join(segments)) == segments
    decreases |segments|
  {
    assert Proper(segments[0]);
    if |segments| == 1 {
      SplitOne(segments[0], "");
    } else {
      SplitJoin(segments[1..]);
      SplitOne(segments[0], Join(segments[1..]));
    }
  }

  ghost predicate NoDoubleSlash(s: string) {
    forall i, j :: 0 <= i < j < |s| && j == i + 1 ==> s[i] != '/' || s[j] != '/'
  }

  lemma {:induction false} JoinTidy(segments: seq<string>)
    requires segments != [] && AllProper(segments)
    ensures var s := Join(segments); s != [] && Clean(s) && Trimmed(s) && NoDoubleSlash(s) && s[0] != '/'
    decreases |segments|
  {
    assert Proper(segments[0]);
    if |segments| > 1 {
      JoinTidy(segments[1..]);
      TwoTidy(segments[0], Join(segments[1..]));
    } else {
      assert forall i :: 0 <= i < |segments[0]| ==> segments[0][i] in segments[0];
    }
  }

  lemma TwoTidy(a: string, b: string)
    requires Proper(a) && b != [] && Clean(b) && Trimmed(b) && NoDoubleSlash(b) && b[0] != '/'
    ensures var s := a + ['/'] + b; Clean(s) && Trimmed(s) && NoDoubleSlash(s) && s[0] != '/'
  {
    assert forall i :: 0 <= i < |a| ==> a[i] in a;
  }

  lemma NotUri(s: string)
    requires NoDoubleSlash(s)
    ensures !IsUri(s)
  {
    forall k | 0 < k < |s|
      ensures !SchemeEnds(s, k)
    {
      if k + 3 <= |s| {
        assert s[k..k + 3][1] == s[k + 1] && s[k..k + 3][2] == s[k + 2];
      }
    }
  }

  // ----- length

  function Weight(parts: seq<string>): nat {
    if parts == [] then 0 else |parts[0]| + 1 + Weight(parts[1..])
  }

  lemma {:induction false} WeightConcat(a: seq<string>, b: seq<string>)
    ensures Weight(a + b) == Weight(a) + Weight(b)
    decreases |a|
  {
    if a == [] {
      assert a + b == b;
    } else {
      WeightConcat(a[1..], b);
      assert (a + b)[1..] == a[1..] + b;
    }
  }

  lemma {:induction false} SplitWeight(s: string)
    ensures Weight(Split(s)) == |s| + 1
    decreases |s|
  {
    if s != [] {
      SplitWeight(s[1..]);
    }
  }

  lemma PushWeight(segments: seq<string>, raw: string)
    ensures Weight(Push(segments, raw)) <= Weight(segments) + |raw| + 1
  {
    var i, j := TrimSlice(raw);
    WeightConcat(segments, [Trim(raw)]);
    if segments != [] {
      var n := |segments| - 1;
      WeightConcat(segments[..n], [segments[n]]);
      assert segments[..n] + [segments[n]] == segments;
    }
  }

  lemma {:induction false} ResolveWeight(segments: seq<string>, parts: seq<string>)
    ensures Weight(Resolve(segments, parts)) <= Weight(segments) + Weight(parts)
    decreases |parts|
  {
    if parts != [] {
      PushWeight(segments, parts[0]);
      ResolveWeight(Push(segments, parts[0]), parts[1..]);
    }
  }

  lemma {:induction false} JoinWeight(segments: seq<string>)
    requires segments != []
    ensures |Join(segments)| + 1 == Weight(segments)
    decreases |segments|
  {
    if |segments| > 1 {
      JoinWeight(segments[1..]);
    }
  }

  /** Canonicalising never lengthens, except that nothing becomes a dot. */
  lemma UnrootedShort(s: string)
    ensures |Unrooted(s)| <= Max(1, |s|)
  {
    var t := if "~/" <= s then s[2..] else s;
    SplitWeight(t);
    ResolveWeight([], Split(t));
    if Segments(t) != [] {
      JoinWeight(Segments(t));
    }
  }

  // ----- canonical form

  /** A dot, a URI, or proper segments between single slashes. */
  ghost predicate Canonical(r: string) {
    && Clean(r) && Trimmed(r)
    && (r == "." || IsUri(r) || (r == Join(Segments(r)) && Segments(r) != [] && AllProper(Segments(r))))
  }

  lemma JoinCanonical(segments: seq<string>)
    requires segments != [] && AllProper(segments)
    ensures Canonical(Join(segments)) && Segments(Join(segments)) == segments
    ensures !IsUri(Join(segments)) && Join(segments) != ""
  {
    JoinTidy(segments);
    SplitJoin(segments);
    ResolveIdle([], segments);
    assert [] + segments == segments;
    NotUri(Join(segments));
  }

  lemma ShownCanonical(t: string)
    requires Clean(t)
    ensures Canonical(Show(Segments(t))) && Show(Segments(t)) != ""
  {
    SplitClean(t);
    ResolveProper([], Split(t));
    if Segments(t) != [] {
      JoinCanonical(Segments(t));
    }
  }

  lemma UnrootedCanonical(s: string)
    requires Clean(s) && (s != [] ==> !IsSpace(s[|s| - 1]))
    ensures Canonical(Unrooted(s)) && Unrooted(s) != ""
  {
    if IsUri(s) {
      var k :| 0 < k < |s| && SchemeEnds(s, k);
    } else {
      ShownCanonical(if "~/" <= s then s[2..] else s);
    }
  }

  /** Every result is canonical. */
  lemma NormalizeCanonical(value: string, root: Option<string>)
    ensures Canonical(Normalize(value, root)) && Normalize(value, root) != ""
  {
    TidiedIs(value);
    RelativeCanonical(Tidied(value), Root(root));
  }

  lemma RelativeCanonical(s: string, prefix: string)
    requires Clean(s) && Trimmed(s)
    ensures Canonical(Relative(s, prefix)) && Relative(s, prefix) != ""
  {
    if !Under(s, prefix) {
      UnrootedCanonical(s);
    } else if s != prefix {
      CleanFrom(s, |prefix| + 1);
      UnrootedCanonical(s[|prefix| + 1..]);
    }
  }

  lemma CleanFrom(s: string, n: nat)
    requires Clean(s) && n <= |s|
    ensures Clean(s[n..])
  {
  }

  lemma DotResolves()
    ensures Unrooted(".") == "."
  {
    SplitOne(".", "");
    assert Trim(".") == ".";
    assert Segments(".") == [];
    assert !IsUri(".");
  }

  lemma UnrootedIdle(r: string)
    requires Canonical(r) && r != ""
    ensures Unrooted(r) == r <==> !("~/" <= r)
  {
    if "~/" <= r {
      UriStart(r);
      UnrootedShort(r[2..]);
      TildeStep(r);
    } else if r == "." {
      DotResolves();
    } else if !IsUri(r) {
      assert Show(Segments(r)) == r;
    }
  }

  lemma UriStart(r: string)
    requires "~/" <= r
    ensures !IsUri(r)
  {
    assert r[0] == '~';
  }

  lemma TildeStep(r: string)
    requires "~/" <= r && !IsUri(r)
    ensures |Unrooted(r)| < |r|
  {
    SplitWeight(r[2..]);
    ResolveWeight([], Split(r[2..]));
    if Segments(r[2..]) != [] {
      JoinWeight(Segments(r[2..]));
    }
  }

  /**
   Normalizing is idempotent exactly when the first result neither starts with a home prefix nor lies
   under the root again.
   */
  lemma IdempotentIff(value: string, root: Option<string>)
    ensures var r := Normalize(value, root);
            Normalize(r, root) == r <==> r == "." || (!("~/" <= r) && !Under(r, Root(root)))
  {
    NormalizeCanonical(value, root);
    TidiedIdle(Normalize(value, root));
    RelativeIdle(Normalize(value, root), Root(root));
  }

  lemma RelativeIdle(r: string, prefix: string)
    requires Canonical(r) && r != ""
    ensures Relative(r, prefix) == r <==> r == "." || (!("~/" <= r) && !Under(r, prefix))
  {
    UnrootedIdle(r);
    if Under(r, prefix) && r != prefix {
      UnrootedShort(r[|prefix| + 1..]);
    }
  }

  /** A rooted home path loses its tilde only on the second pass. */
  lemma TwiceDiffers(seg: string)
    requires Proper(seg)
    ensures Normalize("/~/" + seg, None) == "~/" + seg && Normalize("~/" + seg, None) != "~/" + seg
  {
    var path := HomePath(seg);
    assert "/~/" + seg == "/" + path;
    RootedIdle(path);
    HomeDropped(path);
  }

  lemma HomeDropped(path: string)
    requires Canonical(path) && "~/" <= path
    ensures Normalize(path, None) != path
  {
    TidiedIdle(path);
    RelativeIdle(path, "");
  }

  /** Under a relative root, a path that repeats the root loses it once more on the second pass. */
  lemma TwiceUnderRoot(root: string, seg: string)
    requires Proper(root) && Proper(seg) && root != "~"
    ensures Normalize(root + "/" + root + "/" + seg, Some(root)) == root + "/" + seg
    ensures Normalize(root + "/" + seg, Some(root)) != root + "/" + seg
  {
    var path := root + "/" + seg;
    assert path == root + ['/'] + seg == Join([root, seg]);
    JoinCanonical([root, seg]);
    JoinTidy([root, seg]);
    NotHome(root, seg);
    assert root + "/" + root + "/" + seg == root + "/" + path;
    RootIs(root);
    RepeatedRoot(root, path);
    TidiedIdle(path);
    RelativeIdle(path, root);
  }

  lemma NotHome(root: string, seg: string)
    requires Proper(root) && root != "~"
    ensures !("~/" <= root + "/" + seg)
  {
    if |root| > 1 {
      assert root[1] in root;
      assert (root + "/" + seg)[1] == root[1];
    } else {
      assert (root + "/" + seg)[0] == root[0] && root == [root[0]];
    }
  }

  lemma RootIs(root: string)
    requires Proper(root)
    ensures Root(Some(root)) == root
  {
    SlashesForward(root);
    assert root[|root| - 1] in root;
  }

  lemma RepeatedRoot(root: string, path: string)
    requires Proper(root) && Canonical(path) && path != "" && path != "." && !IsUri(path) && !("~/" <= path)
    requires path[0] != '/'
    ensures Relative(Tidied(root + "/" + path), root) == path
  {
    var s := root + "/" + path;
    CanonicalJoins(root, path);
    TidiedIdle(s);
    assert root + "/" <= s && s[|root| + 1..] == path;
    UnrootedIdle(path);
  }

  lemma CanonicalJoins(a: string, b: string)
    requires Proper(a) && Clean(b) && Trimmed(b) && b != "" && b[0] != '/'
    ensures Clean(a + "/" + b) && Trimmed(a + "/" + b)
  {
  }

  /** With no root, or one that starts at a slash, the home prefix is the only exception. */
  lemma SlashRootedIff(value: string, root: Option<string>)
    requires Root(root) == "" || Root(root)[0] == '/'
    ensures var r := Normalize(value, root); Normalize(r, root) == r <==> !("~/" <= r)
  {
    NormalizeCanonical(value, root);
    IdempotentIff(value, root);
    CanonicalStart(Normalize(value, root));
  }

  lemma CanonicalStart(r: string)
    requires Canonical(r) && r != ""
    ensures r[0] != '/'
  {
    if IsUri(r) {
      var k :| 0 < k < |r| && SchemeEnds(r, k);
    } else if r != "." {
      JoinTidy(Segments(r));
    }
  }

  lemma HomePath(seg: string) returns (path: string)
    requires Proper(seg)
    ensures path == "~/" + seg && Canonical(path) && !IsUri(path)
  {
    path := "~/" + seg;
    assert Proper("~");
    JoinCanonical(["~", seg]);
    assert path == "~" + ['/'] + seg == Join(["~", seg]);
  }

  lemma RootedIdle(r: string)
    requires Canonical(r) && !IsUri(r) && r != "." && r != ""
    ensures Normalize("/" + r, None) == r
  {
    var s := "/" + r;
    TidiedIdle(s);
    assert s == "" + ['/'] + r;
    SplitOne("", r);
    assert Split(s)[1..] == Split(r);
    assert Push([], "") == [];
    assert !IsUri(s) by {
      assert s[0] == '/';
    }
  }

  // ----- resolution is compositional

  lemma PrependConcat(c: char, parts: seq<string>, more: seq<string>)
    requires parts != []
    ensures Prepend(c, parts + more) == Prepend(c, parts) + more
  {
    assert (parts + more)[1..] == parts[1..] + more;
  }

  lemma {:induction false} SplitConcat(a: string, b: string)
    ensures Split(a + ['/'] + b) == Split(a) + Split(b)
    decreases |a|
  {
    var s := a + ['/'] + b;
    if a == [] {
      assert s[1..] == b;
    } else {
      SplitConcat(a[1..], b);
      assert s[1..] == a[1..] + ['/'] + b;
      PrependConcat(a[0], Split(a[1..]), Split(b));
    }
  }

  lemma TailConcat<T>(a: seq<T>, b: seq<T>)
    requires a != []
    ensures (a + b)[0] == a[0] && (a + b)[1..] == a[1..] + b
  {
  }

  lemma {:induction false} ResolveConcat(segments: seq<string>, a: seq<string>, b: seq<string>)
    ensures Resolve(segments, a + b) == Resolve(Resolve(segments, a), b)
    decreases |a|
  {
    if a == [] {
      assert a + b == b;
    } else {
      var next := Push(segments, a[0]);
      TailConcat(a, b);
      ResolveConcat(next, a[1..], b);
      assert Resolve(segments, a + b) == Resolve(next, a[1..] + b);
      assert Resolve(segments, a) == Resolve(next, a[1..]);
    }
  }

  /** A directory may be replaced by its canonical form without changing what a path below it means. */
  lemma CanonicalDirectory(a: string, b: string)
    requires Clean(a)
    ensures Segments(Show(Segments(a)) + "/" + b) == Segments(a + "/" + b)
  {
    var dir := Segments(a);
    SplitConcat(a, b);
    SplitConcat(Show(dir), b);
    ResolveConcat([], Split(a), Split(b));
    ResolveConcat([], Split(Show(dir)), Split(b));
    SplitClean(a);
    ResolveProper([], Split(a));
    if dir == [] {
      DotResolves();
    } else {
      JoinCanonical(dir);
    }
  }

  lemma ParentPart(segments: seq<string>, parts: seq<string>)
    requires |parts| > 0 && parts[0] == ".."
    ensures Resolve(segments, parts)
            == Resolve(if segments == [] then [] else segments[..|segments| - 1], parts[1..])
  {
    assert Trim("..") == "..";
  }

  /** Stepping into a directory and out again is no step, and the root is its own parent. */
  lemma ParentCancels(a: string, seg: string, b: string)
    requires Proper(seg)
    ensures Segments(a + "/" + (seg + "/" + ("../" + b))) == Segments(a + "/" + b)
    ensures Segments("../" + b) == Segments(b)
  {
    var up := "../" + b;
    assert up == ".." + ['/'] + b;
    SplitConcat(a, seg + "/" + up);
    SplitConcat(seg, up);
    SplitConcat(a, b);
    SplitOne(seg, "");
    SplitOne("..", b);
    ResolveConcat([], Split(a), [seg] + Split(up));
    ResolveConcat([], Split(a), Split(b));
    ParentPart([], Split(up));
    var dir := Resolve([], Split(a));
    ResolveConcat(dir, [seg], Split(up));
    ResolveIdle(dir, [seg]);
    ParentPart(dir + [seg], Split(up));
  }
}

/**
 What canonicalising does to roots, home prefixes, separators and white space, as laws of the whole
 function.
 */
module PathLaws {
  import opened Common
  import opened PathForm

  // ----- roots

  /** A root as a session directory is given: tidy, not empty, and not ending in a slash. */
  ghost predicate IsRoot(root: string) {
    root != "" && Clean(root) && Trimmed(root) && root[|root| - 1] != '/'
  }

  lemma RootKept(root: string)
    requires IsRoot(root)
    ensures Root(Some(root)) == root
  {
    SlashesForward(root);
  }

  lemma {:induction false} SlashesConcat(a: string, b: string)
    ensures Slashes(a + b) == Slashes(a) + Slashes(b)
    decreases |a|
  {
    if a == [] {
      assert a + b == b;
    } else {
      SlashesConcat(a[1..], b);
      assert (a + b)[1..] == a[1..] + b;
    }
  }

  /** A slash after the root makes no difference. */
  lemma TrailingSlash(value: string, root: string)
    ensures Normalize(value, Some(root + "/")) == Normalize(value, Some(root))
  {
    SlashesConcat(root, "/");
    assert Slashes("/") == "/";
    var s := Slashes(root);
    assert (s + "/")[..|s|] == s;
  }

  lemma TidyJoins(a: string, b: string)
    requires Clean(a) && Trimmed(a) && Clean(b) && Trimmed(b) && a != "" && b != ""
    ensures Clean(a + "/" + b) && Trimmed(a + "/" + b)
  {
  }

  /** The root itself is the dot, and what lies under it is taken as if there were no root. */
  lemma StripsRoot(root: string, p: string)
    requires IsRoot(root) && Clean(p) && Trimmed(p) && p != ""
    ensures Normalize(root, Some(root)) == "."
    ensures Normalize(root + "/" + p, Some(root)) == Normalize(p, None)
  {
    var s := root + "/" + p;
    RootKept(root);
    TidiedIdle(root);
    TidyJoins(root, p);
    TidiedIdle(s);
    TidiedIdle(p);
    assert root + "/" <= s && s[|root| + 1..] == p;
  }

  /** Every canonical path under a root is found again, unless it starts with a home prefix. */
  lemma UnderRootIff(root: string, p: string)
    requires IsRoot(root) && Canonical(p) && p != ""
    ensures Normalize(root + "/" + p, Some(root)) == p <==> !("~/" <= p)
  {
    StripsRoot(root, p);
    TidiedIdle(p);
    UnrootedIdle(p);
  }

  /** A root that ends inside a segment is no root of the path. */
  lemma OutsideRoot(root: string, rest: string)
    requires IsRoot(root) && rest != "" && rest[0] != '/' && Clean(root + rest) && Trimmed(root + rest)
    ensures Normalize(root + rest, Some(root)) == Normalize(root + rest, None)
  {
    var s := root + rest;
    RootKept(root);
    TidiedIdle(s);
    assert s[|root|] == rest[0] && |s| > |root|;
  }

  // ----- home prefixes and separators

  /** A home prefix is dropped once. */
  lemma HomeStripped(p: string)
    requires Canonical(p) && p != "" && p != "." && !IsUri(p)
    ensures Normalize("~/" + p, None) == p
  {
    var s := "~/" + p;
    assert s == "~" + "/" + p;
    TidyJoins("~", p);
    TidiedIdle(s);
    UriStart(s);
    assert s[2..] == p;
  }

  /** Backslashes separate segments as slashes do. */
  lemma Backslashes(value: string, root: Option<string>)
    ensures Normalize(Slashes(value), root) == Normalize(value, root)
    ensures NoBackslash(Slashes(value)) && |Slashes(value)| == |value|
    ensures forall i :: 0 <= i < |value| ==> Slashes(value)[i] == if value[i] == '\\' then '/' else value[i]
  {
    SlashesForward(value);
    SlashesForward(Slashes(value));
    SlashesAt(value);
  }

  lemma {:induction false} SlashesAt(s: string)
    ensures forall i :: 0 <= i < |s| ==> Slashes(s)[i] == if s[i] == '\\' then '/' else s[i]
    decreases |s|
  {
    if s != [] {
      SlashesAt(s[1..]);
      forall i | 0 <= i < |s|
        ensures Slashes(s)[i] == if s[i] == '\\' then '/' else s[i]
      {
        assert i > 0 ==> s[1..][i - 1] == s[i];
      }
    }
  }

  /** A letter, then letters, digits, plus signs, dots and hyphens. */
  predicate IsScheme(s: string) {
    && s != "" && ('a' <= s[0] <= 'z' || 'A' <= s[0] <= 'Z')
    && forall i :: 0 <= i < |s| ==>
      'a' <= s[i] <= 'z' || 'A' <= s[i] <= 'Z' || '0' <= s[i] <= '9' || s[i] in {'+', '.', '-'}
  }

  /** Tidy URIs stay as they are. */
  lemma UriKept(scheme: string, rest: string)
    requires IsScheme(scheme) && Clean(scheme + "://" + rest) && Trimmed(scheme + "://" + rest)
    ensures Normalize(scheme + "://" + rest, None) == scheme + "://" + rest
  {
    var s, k := scheme + "://" + rest, |scheme|;
    TidiedIdle(s);
    assert s[k..k + 3] == "://";
    assert SchemeEnds(s, k);
  }

  // ----- white space

  predicate Blank(w: string) {
    forall i :: 0 <= i < |w| ==> IsSpace(w[i])
  }

  /** A run of white space is one blank, and text without any stays. */
  lemma {:induction false} CollapseBlank(w: string)
    requires w != "" && Blank(w)
    ensures CollapseRuns(w) == " "
    decreases |w|
  {
    if |w| > 1 {
      assert IsSpace(w[1]);
      CollapseBlank(w[1..]);
    } else {
      assert CollapseRuns(w[1..]) == [];
    }
  }

  /** Runs are collapsed each for itself, wherever the text is cut outside a run. */
  lemma {:induction false} CollapseConcat(a: string, b: string)
    requires a == "" || b == "" || !IsSpace(a[|a| - 1]) || !IsSpace(b[0])
    ensures CollapseRuns(a + b) == CollapseRuns(a) + CollapseRuns(b)
    decreases |a|
  {
    if a == "" {
      assert a + b == b;
    } else if b == "" {
      assert a + b == a;
    } else {
      assert (a + b)[1..] == a[1..] + b && (a + b)[0] == a[0];
      assert |a + b| > 1 && (a + b)[1] == if |a| > 1 then a[1] else b[0];
      CollapseConcat(a[1..], b);
      if |a| == 1 {
        assert a[1..] == "" && CollapseRuns(a[1..]) == "";
      }
    }
  }

  lemma {:induction false} TrimStartBlank(w: string, s: string)
    requires Blank(w)
    ensures TrimStart(w + s) == TrimStart(s)
    decreases |w|
  {
    if w == "" {
      assert w + s == s;
    } else {
      assert (w + s)[0] == w[0] && (w + s)[1..] == w[1..] + s;
      TrimStartBlank(w[1..], s);
    }
  }

  lemma {:induction false} TrimEndBlank(s: string, w: string)
    requires Blank(w)
    ensures TrimEnd(s + w) == TrimEnd(s)
    decreases |w|
  {
    if w == "" {
      assert s + w == s;
    } else {
      var n := |w| - 1;
      assert (s + w)[|s + w| - 1] == w[n] && (s + w)[..|s + w| - 1] == s + w[..n];
      TrimEndBlank(s, w[..n]);
    }
  }

  /** Trimming takes white space off both ends, and only that. */
  lemma TrimIs(before: string, s: string, behind: string)
    requires Blank(before) && Blank(behind) && Trimmed(s) && s != ""
    ensures Trim(before + s + behind) == s
  {
    TrimStartBlank(before, s + behind);
    assert before + s + behind == before + (s + behind);
    assert (s + behind)[0] == s[0];
    TrimEndBlank(s, behind);
  }
}

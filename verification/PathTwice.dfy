/**
 When a second normalization changes nothing, told from the input: the condition of
 `PathForm.IdempotentIff` on the result, read off the segments the input resolves to.
 */
module PathTwice {
  import opened Common
  import opened PathForm

  lemma JoinPrepend(c: char, parts: seq<string>)
    requires parts != []
    ensures Join(Prepend(c, parts)) == [c] + Join(parts)
  {
    if c == '/' {
      assert Prepend(c, parts)[1..] == parts;
    } else {
      assert Prepend(c, parts)[1..] == parts[1..];
    }
  }

  lemma {:induction false} JoinSplit(s: string)
    ensures Join(Split(s)) == s
    decreases |s|
  {
    if s != [] {
      JoinSplit(s[1..]);
      JoinPrepend(s[0], Split(s[1..]));
    }
  }

  lemma {:induction false} JoinConcat(a: seq<string>, b: seq<string>)
    requires a != [] && b != []
    ensures Join(a + b) == Join(a) + ['/'] + Join(b)
    decreases |a|
  {
    if |a| == 1 {
      assert (a + b)[1..] == b;
    } else {
      JoinConcat(a[1..], b);
      assert (a + b)[1..] == a[1..] + b;
    }
  }

  /** A canonical path lies under a prefix exactly when the prefix, cut at its slashes, begins its segments. */
  lemma UnderIff(segments: seq<string>, prefix: string)
    requires segments != [] && AllProper(segments)
    ensures Under(Join(segments), prefix) <==> prefix != "" && Split(prefix) <= segments
  {
    if Under(Join(segments), prefix) {
      SplitJoin(segments);
      PrefixSplit(Join(segments), prefix);
    } else if Split(prefix) <= segments {
      UnderPrefix(segments, prefix);
    }
  }

  lemma PrefixSplit(s: string, prefix: string)
    requires Under(s, prefix)
    ensures Split(prefix) <= Split(s)
  {
    if s != prefix {
      var rest := s[|prefix| + 1..];
      SplitConcat(prefix, rest);
      assert s == prefix + ['/'] + rest;
    }
  }

  lemma UnderPrefix(segments: seq<string>, prefix: string)
    requires Split(prefix) <= segments
    ensures Join(segments) == prefix || prefix + "/" <= Join(segments)
  {
    var parts := Split(prefix);
    var rest := segments[|parts|..];
    JoinSplit(prefix);
    assert segments == parts + rest;
    if rest == [] {
      assert segments == parts;
    } else {
      JoinConcat(parts, rest);
    }
  }

  /** A canonical path starts with the home prefix exactly when its first of several segments is a tilde. */
  lemma HomeIff(segments: seq<string>)
    requires segments != [] && AllProper(segments)
    ensures "~/" <= Join(segments) <==> |segments| >= 2 && segments[0] == "~"
  {
    var s := Join(segments);
    SplitOne("~", "");
    UnderIff(segments, "~");
    assert "~" + "/" == "~/";
    SplitJoin(segments);
    if segments == ["~"] {
      assert s == "~";
    }
  }

  /** The text left once the root is taken off. */
  function Inner(s: string, prefix: string): string {
    if !Under(s, prefix) then s else if s == prefix then "" else s[|prefix| + 1..]
  }

  /** The segments a text resolves to, without a leading home prefix. */
  function Places(s: string): seq<string> {
    Segments(if "~/" <= s then s[2..] else s)
  }

  predicate Again(s: string, prefix: string) {
    if IsUri(s) then Under(s, prefix)
    else
      var places := Places(s);
      places != [] && ((|places| >= 2 && places[0] == "~") || (prefix != "" && Split(prefix) <= places))
  }

  lemma PlacesProper(s: string)
    requires Clean(s)
    ensures AllProper(Places(s))
  {
    var t := if "~/" <= s then s[2..] else s;
    SplitClean(t);
    ResolveProper([], Split(t));
  }

  lemma UriNotHome(s: string)
    requires IsUri(s)
    ensures !("~/" <= s) && s != "."
  {
    if "~/" <= s {
      UriStart(s);
    }
  }

  lemma AgainIff(s: string, prefix: string)
    requires Clean(s)
    ensures var r := Unrooted(s); Again(s, prefix) <==> r != "." && ("~/" <= r || Under(r, prefix))
  {
    if IsUri(s) {
      UriNotHome(s);
    } else if Places(s) != [] {
      PlacesProper(s);
      HomeIff(Places(s));
      UnderIff(Places(s), prefix);
      JoinCanonical(Places(s));
      DotNotProper(Places(s));
    }
  }

  lemma DotNotProper(segments: seq<string>)
    requires segments != [] && AllProper(segments)
    ensures Join(segments) != "."
  {
    SplitJoin(segments);
    SplitOne(".", "");
  }

  /**
   A second pass changes something exactly when the input, its root taken off, is a URI under the root
   again, or resolves to segments that begin with a tilde directory or with the parts of the root.
   */
  lemma TwiceIff(value: string, root: Option<string>)
    ensures var r := Normalize(value, root);
            Normalize(r, root) != r <==> Again(Inner(Tidied(value), Root(root)), Root(root))
  {
    var s, prefix := Tidied(value), Root(root);
    TidiedIs(value);
    IdempotentIff(value, root);
    if Under(s, prefix) && s == prefix {
      assert Places("") == [];
    } else {
      if Under(s, prefix) {
        CleanFrom(s, |prefix| + 1);
      }
      AgainIff(Inner(s, prefix), prefix);
    }
  }
}

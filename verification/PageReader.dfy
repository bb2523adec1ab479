/**
 `readSlice` and its bounded, least-recently-used cache of verified page indexes.
 */
module PageReader {
  import opened Common
  import opened Utf8
  import opened Paging

  /** A cached index, keyed by artifact, for the file version its signature names. */
  datatype Entry = Entry(key: string, signature: nat, sha256: Digest, checkpoints: seq<Checkpoint>)

  /** The content file behind an open handle. */
  datatype File = File(signature: nat, content: Bytes)

  datatype Page = Page(content: Text, nextOffset: nat)

  /** How the reads of one call come back, and whether the file still has its signature after each phase. */
  datatype Conditions = Conditions(
    indexing: nat -> nat, slicing: nat -> nat, keptAfterIndex: bool, keptAfterSlice: bool)

  ghost predicate Undisturbed(c: Conditions) {
    NeverEmpty(c.indexing) && NeverEmpty(c.slicing) && c.keptAfterIndex && c.keptAfterSlice
  }

  function Without(es: seq<Entry>, key: string): seq<Entry> {
    if es == [] then []
    else if es[|es| - 1].key == key then Without(es[..|es| - 1], key)
    else Without(es[..|es| - 1], key) + [es[|es| - 1]]
  }

  lemma {:induction false} WithoutMembers(es: seq<Entry>, key: string)
    ensures |Without(es, key)| <= |es|
    ensures forall e :: e in Without(es, key) <==> e in es && e.key != key
    decreases |es|
  {
    if es != [] {
      WithoutMembers(es[..|es| - 1], key);
      assert es == es[..|es| - 1] + [es[|es| - 1]];
    }
  }

  lemma {:induction false} WithoutDistinct(es: seq<Entry>, key: string)
    requires Distinct(es)
    ensures Distinct(Without(es, key))
    decreases |es|
  {
    if es != [] {
      var n := |es| - 1;
      WithoutDistinct(es[..n], key);
      WithoutMembers(es[..n], key);
      assert forall e :: e in es[..n] ==> e.key != es[n].key;
    }
  }

  /** Taking a key out again changes nothing. */
  lemma {:induction false} WithoutTwice(es: seq<Entry>, key: string)
    ensures Without(Without(es, key), key) == Without(es, key)
    decreases |es|
  {
    if es != [] {
      WithoutTwice(es[..|es| - 1], key);
      if es[|es| - 1].key != key {
        WithoutSnoc(Without(es[..|es| - 1], key), es[|es| - 1]);
        assert Without(Without(es[..|es| - 1], key) + [es[|es| - 1]], key)
            == Without(Without(es[..|es| - 1], key), key) + [es[|es| - 1]] by {
          var all := Without(es[..|es| - 1], key) + [es[|es| - 1]];
          assert all[..|all| - 1] == Without(es[..|es| - 1], key);
        }
      }
    }
  }

  lemma WithoutSnoc(es: seq<Entry>, e: Entry)
    ensures Without(es + [e], e.key) == Without(es, e.key)
  {
    assert (es + [e])[..|es|] == es;
  }

  lemma {:induction false} WithoutFewer(es: seq<Entry>, e: Entry)
    requires e in es
    ensures |Without(es, e.key)| < |es|
    decreases |es|
  {
    var n := |es| - 1;
    if es[n].key == e.key {
      WithoutMembers(es[..n], e.key);
    } else {
      assert e in es[..n];
      WithoutFewer(es[..n], e);
    }
  }

  ghost predicate Distinct(es: seq<Entry>) {
    forall i, j :: 0 <= i < j < |es| ==> es[i].key != es[j].key
  }

  function Newest(es: seq<Entry>): seq<Entry> {
    es[Max(0, |es| - MAX_PAGE_INDEXES)..]
  }

  lemma NewestOnly(es: seq<Entry>, e: Entry)
    requires Distinct(es)
    ensures var all := Without(es, e.key) + [e];
            Distinct(Newest(all)) && forall x :: x in Newest(all) ==> x in es || x == e
  {
    WithoutMembers(es, e.key);
    WithoutDistinct(es, e.key);
    var all := Without(es, e.key) + [e];
    assert Distinct(all) by {
      assert forall x :: x in Without(es, e.key) ==> x.key != e.key;
    }
  }

  class PageReader {
    /** The content behind each file signature: a signature names one version of one file. */
    ghost const contentOf: nat -> Bytes
    var pageIndexes: seq<Entry>       // in Map insertion order, oldest first

    ghost predicate EntryOk(e: Entry) {
      && IndexOk(Decode, contentOf(e.signature), e.checkpoints) && |e.checkpoints| <= MAX_PAGE_CHECKPOINTS + 1
      && e.sha256 == Sha256(contentOf(e.signature))
    }

    ghost predicate Valid()
      reads this
    {
      && |pageIndexes| <= MAX_PAGE_INDEXES && Distinct(pageIndexes)
      && forall e :: e in pageIndexes ==> EntryOk(e)
    }

    constructor (ghost contentOf: nat -> Bytes)
      ensures Valid() && pageIndexes == [] && this.contentOf == contentOf
    {
      this.contentOf := contentOf;
      pageIndexes := [];
    }

    /** The entry is a verified index of the file under the key. */
    ghost predicate Indexes(e: Entry, key: string, file: File) {
      EntryOk(e) && e.key == key && e.signature == file.signature
    }

    method Find(key: string) returns (r: Option<Entry>)
      ensures r.Some? ==> r.value in pageIndexes && r.value.key == key
      ensures r.None? ==> forall e :: e in pageIndexes ==> e.key != key
    {
      r := None;
      for i := 0 to |pageIndexes|
        invariant r.Some? ==> r.value in pageIndexes && r.value.key == key
        invariant r.None? ==> forall j :: 0 <= j < i ==> pageIndexes[j].key != key
      {
        if pageIndexes[i].key == key {
          r := Some(pageIndexes[i]);
        }
      }
    }

    method Forget(key: string)
      requires Valid()
      modifies this
      ensures Valid() && pageIndexes == Without(old(pageIndexes), key)
    {
      WithoutMembers(pageIndexes, key);
      WithoutDistinct(pageIndexes, key);
      pageIndexes := Without(pageIndexes, key);
    }

    /** Inserts as the newest entry, then evicts from the front until at most 16 remain. */
    method Remember(e: Entry)
      requires Valid() && EntryOk(e)
      modifies this
      ensures Valid() && pageIndexes == Newest(Without(old(pageIndexes), e.key) + [e])
    {
      NewestOnly(pageIndexes, e);
      pageIndexes := Without(pageIndexes, e.key) + [e];
      pageIndexes := Evict(pageIndexes);
    }

    /** Drops the oldest entries until at most 16 remain. */
    static method Evict(es: seq<Entry>) returns (kept: seq<Entry>)
      ensures kept == Newest(es)
    {
      kept := es;
      while |kept| > MAX_PAGE_INDEXES
        invariant |kept| <= |es| && kept == es[|es| - |kept|..] && |kept| >= Min(|es|, MAX_PAGE_INDEXES)
      {
        kept := kept[1..];
      }
    }

    /** The cached index for this very file version, or a freshly built and verified one. */
    method IndexFor(key: string, file: File, sha256: Digest, avail: nat -> nat) returns (r: Option<Entry>)
      requires Valid() && file.content == contentOf(file.signature)
      modifies this
      ensures Valid() && Without(pageIndexes, key) == Without(old(pageIndexes), key)
      ensures r.Some? ==> EntryOk(r.value) && r.value.key == key && r.value.signature == file.signature
      ensures r.Some? ==> sha256 == Sha256(file.content)
      ensures NeverEmpty(avail) && sha256 == Sha256(file.content) ==> r.Some?
      ensures r.None? ==> forall e :: e in pageIndexes ==> e.key != key
    {
      WithoutTwice(pageIndexes, key);
      WithoutMembers(pageIndexes, key);
      var cached := Find(key);
      if cached.Some? && cached.value.signature == file.signature && cached.value.sha256 == sha256 {
        WithoutFewer(pageIndexes, cached.value);
        WithoutSnoc(Without(pageIndexes, key), cached.value);
        Remember(cached.value);
        return cached;
      }
      Forget(key);
      DecodePiecewise();
      var built := PageIndex(Decode, file.content, sha256, avail);
      if built.None? {
        return None;
      }
      return Some(Entry(key, file.signature, sha256, built.value));
    }

    /**
     One page: exactly the requested slice of the decoded content and the offset after
     it.  The cache stays within 16 entries and keeps the most recently used.
     */
    method ReadSlice(key: string, file: File, size: nat, sha256: Digest, offset: int, maxChars: int, c: Conditions)
        returns (r: Option<Page>)
      requires Valid() && file.content == contentOf(file.signature)
      modifies this
      ensures Valid()
      ensures r.Some? ==>
                var start, limit := Max(0, offset), Max(1, maxChars);
                && r.value.content == Slice(Decode(file.content), start, start + limit)
                && r.value.nextOffset == start + |r.value.content|
      ensures r.Some? ==>
                exists e :: Indexes(e, key, file) && pageIndexes == Newest(Without(old(pageIndexes), key) + [e])
      ensures r.Some? ==> sha256 == Sha256(file.content) && size == |file.content|
      ensures r.Some? ==> c.keptAfterIndex && c.keptAfterSlice
      ensures r.None? && size == |file.content| && (NeverEmpty(c.slicing) || !c.keptAfterIndex) ==>
                forall e :: e in pageIndexes ==> e.key != key
      ensures Undisturbed(c) && size == |file.content| && sha256 == Sha256(file.content) ==> r.Some?
    {
      if |file.content| != size {
        return None;
      }
      var index := IndexFor(key, file, sha256, c.indexing);
      if index.None? {
        return None;
      }
      if !c.keptAfterIndex {
        WithoutMembers(pageIndexes, key);
        Forget(key);
        return None;
      }
      var start, limit := Max(0, offset), Max(1, maxChars);
      DecodePiecewise();
      var slice := ReadIndexedSlice(Decode, file.content, index.value.checkpoints, start, limit, c.slicing);
      if slice.None? {
        return None;
      }
      if !c.keptAfterSlice {
        WithoutMembers(pageIndexes, key);
        Forget(key);
        return None;
      }
      Remember(index.value);
      assert Indexes(index.value, key, file);
      return Some(Page(slice.value, start + |slice.value|));
    }

    /**
     Following `nextOffset` from 0 until an empty page terminates and yields exactly the full text,
     however the reads of each page come back.
     */
    method ReadAll(key: string, file: File, maxChars: int, conditions: nat -> Conditions) returns (text: Text)
      requires Valid() && file.content == contentOf(file.signature) && forall n :: Undisturbed(conditions(n))
      modifies this
      ensures Valid() && text == Decode(file.content)
    {
      ghost var full := Decode(file.content);
      text := [];
      var offset, pages: nat := 0, 0;
      while true
        invariant Valid()
        invariant offset <= |full| && text == full[..offset]
        decreases |full| - offset
      {
        var page := ReadSlice(key, file, |file.content|, Sha256(file.content), offset, maxChars, conditions(pages));
        if page.value.content == [] {
          break;
        }
        text := text + page.value.content;
        offset, pages := page.value.nextOffset, pages + 1;
      }
    }
  }
}

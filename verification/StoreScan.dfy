/**
 Opening the whole store: every journal found is replayed and every pair is looked at, content by its
 size only, so one key's files can close the store to all.  Exactly which files do, and which crashes
 leave such files.
 */
module StoreScan {
  import opened Common
  import opened JournalDisk
  import opened Journal
  import opened JournalFragile
  import opened JournalProtocol

  datatype Id = Id(category: string, name: string)

  /** What replaying a journal leaves. */
  function Replayed(t: Txn): Files {
    match t
    case PutTxn(m, c) => Files(None, Some(c), Some(m))
    case DeleteTxn => Files(None, None, None)
  }

  function Recovered(f: Files): Files {
    if f.txn.Some? then Replayed(f.txn.value) else f
  }

  /** The look at a pair without a journal. */
  predicate LooksWhole(k: Key, f: Files) {
    if f.json.None? then f.txt.None?
    else MetaValid(k, f.json.value) && f.txt.Some? && |f.txt.value| == f.json.value.size
  }

  /** Files over which the store opens. */
  predicate Opens(k: Key, f: Files) {
    if f.txn.Some? then TxnValid(k, f.txn.value) else LooksWhole(k, f)
  }

  lemma RecoveredLooks(k: Key, f: Files)
    requires f.txn.Some? ==> TxnValid(k, f.txn.value)
    ensures LooksWhole(k, Recovered(f)) <==> Opens(k, f)
  {
  }

  lemma RecoveredValue(f: Files)
    ensures Value(Recovered(f)) == Value(f) && Recovered(f).txn.None?
  {
  }

  class Store {
    const key: Id -> Key
    var files: map<Id, Files>
    var immutableKeys: set<Id>

    constructor (key: Id -> Key, files: map<Id, Files>)
      ensures this.key == key && this.files == files && immutableKeys == {}
    {
      this.key := key;
      this.files := files;
      immutableKeys := {};
    }

    function Ids(category: string): set<Id>
      reads this
    {
      set id | id in files && id.category == category
    }

    /** Replays the journals of one category, in any order, until one is rejected. */
    method RecoverJournals(category: string) returns (ok: bool)
      modifies this`files
      ensures files.Keys == old(files.Keys)
      ensures forall id :: id in files ==> files[id] == old(files[id]) || files[id] == Recovered(old(files[id]))
      ensures forall id :: id in files && id.category != category ==> files[id] == old(files[id])
      ensures ok <==> forall id :: id in old(files) && id.category == category && old(files[id]).txn.Some? ==>
                TxnValid(key(id), old(files[id]).txn.value)
      ensures ok ==> forall id :: id in files && id.category == category ==> files[id] == Recovered(old(files[id]))
    {
      var todo := Ids(category);
      while todo != {}
        invariant files.Keys == old(files.Keys) && todo <= old(Ids(category))
        invariant forall id :: id in files && (id in todo || id.category != category) ==> files[id] == old(files[id])
        invariant forall id :: id in files && id.category == category && id !in todo ==>
          && files[id] == Recovered(old(files[id]))
          && (old(files[id]).txn.Some? ==> TxnValid(key(id), old(files[id]).txn.value))
        decreases |todo|
      {
        var id :| id in todo;
        todo := todo - {id};
        var found := files[id].txn;
        if found.Some? {
          if !TxnValid(key(id), found.value) {
            return false;
          }
          files := files[id := Replayed(found.value)];
        }
      }
      ok := true;
    }

    method LookAtPairs(category: string) returns (ok: bool)
      modifies this`immutableKeys
      ensures ok <==> forall id :: id in files && id.category == category ==> LooksWhole(key(id), files[id])
      ensures ok ==> immutableKeys == old(immutableKeys) + Immutables(files, Ids(category))
    {
      var known;
      ok, known := Look(key, files, Ids(category));
      immutableKeys := immutableKeys + known;
    }

    method ScanCategory(category: string) returns (ok: bool)
      modifies this`files, this`immutableKeys
      ensures files.Keys == old(files.Keys)
      ensures forall id :: id in files ==> files[id] == old(files[id]) || files[id] == Recovered(old(files[id]))
      ensures forall id :: id in files && id.category != category ==> files[id] == old(files[id])
      ensures ok <==> forall id :: id in old(files) && id.category == category ==> Opens(key(id), old(files[id]))
      ensures ok ==> forall id :: id in files && id.category == category ==> files[id] == Recovered(old(files[id]))
      ensures ok ==> immutableKeys == old(immutableKeys) + Immutables(files, Ids(category))
    {
      ok := RecoverJournals(category);
      if ok {
        forall id | id in files && id.category == category
          ensures LooksWhole(key(id), files[id]) <==> Opens(key(id), old(files[id]))
        {
          RecoveredLooks(key(id), old(files[id]));
        }
        ok := LookAtPairs(category);
      }
    }

    /**
     The store opens if and only if every key's files let it.  It keeps every key's value either way;
     when it opens, no journal is left and the immutable keys are known.
     */
    method Scan(categories: set<string>) returns (ok: bool)
      requires forall id :: id in files ==> id.category in categories
      modifies this`files, this`immutableKeys
      ensures files.Keys == old(files.Keys)
      ensures forall id :: id in files ==> Value(files[id]) == Value(old(files[id]))
      ensures ok <==> forall id :: id in old(files) ==> Opens(key(id), old(files[id]))
      ensures ok ==> forall id :: id in files ==> files[id] == Recovered(old(files[id]))
      ensures ok ==> immutableKeys == old(immutableKeys) + Immutables(files, files.Keys)
    {
      ok := ScanAll(categories);
      forall id | id in files
        ensures Value(files[id]) == Value(old(files[id]))
      {
        RecoveredValue(old(files[id]));
      }
    }

    method ScanAll(categories: set<string>) returns (ok: bool)
      requires forall id :: id in files ==> id.category in categories
      modifies this`files, this`immutableKeys
      ensures files.Keys == old(files.Keys)
      ensures forall id :: id in files ==> files[id] == old(files[id]) || files[id] == Recovered(old(files[id]))
      ensures ok <==> forall id :: id in old(files) ==> Opens(key(id), old(files[id]))
      ensures ok ==> forall id :: id in files ==> files[id] == Recovered(old(files[id]))
      ensures ok ==> immutableKeys == old(immutableKeys) + Immutables(files, files.Keys)
    {
      var todo := categories;
      ghost var done: set<Id> := {};
      while todo != {}
        invariant todo <= categories && files.Keys == old(files.Keys)
        invariant done == set id | id in files && id.category !in todo
        invariant forall id :: id in files && id !in done ==> files[id] == old(files[id])
        invariant forall id :: id in done ==> files[id] == Recovered(old(files[id])) && Opens(key(id), old(files[id]))
        invariant immutableKeys == old(immutableKeys) + Immutables(files, done)
        decreases |todo|
      {
        var category :| category in todo;
        ghost var before := files;
        ok := ScanCategory(category);
        if !ok {
          return;
        }
        ImmutablesBoth(before, files, done, Ids(category));
        todo, done := todo - {category}, done + Ids(category);
      }
      assert done == files.Keys;
      ok := true;
    }
  }

  /** Looks at the pairs of some keys, in any order, until one is rejected. */
  method Look(key: Id -> Key, files: map<Id, Files>, ids: set<Id>) returns (ok: bool, known: set<Id>)
    requires ids <= files.Keys
    ensures ok <==> forall id :: id in ids ==> LooksWhole(key(id), files[id])
    ensures ok ==> known == Immutables(files, ids)
  {
    var todo, done := ids, {};
    known := {};
    while todo != {}
      invariant todo + done == ids
      invariant forall id :: id in done ==> LooksWhole(key(id), files[id])
      invariant known == Immutables(files, done)
      decreases |todo|
    {
      var id :| id in todo;
      if !LooksWhole(key(id), files[id]) {
        return false, known;
      }
      ImmutablesNext(files, done, id);
      if Immutable(files[id]) {
        known := known + {id};
      }
      todo, done := todo - {id}, done + {id};
    }
    assert done == ids;
    ok := true;
  }

  predicate Immutable(f: Files) {
    f.json.Some? && f.json.value.immutable
  }

  function Immutables(files: map<Id, Files>, ids: set<Id>): set<Id> {
    set id | id in ids && id in files && Immutable(files[id])
  }

  lemma ImmutablesNext(files: map<Id, Files>, ids: set<Id>, id: Id)
    requires id in files
    ensures Immutables(files, ids + {id}) == Immutables(files, ids) + if Immutable(files[id]) then {id} else {}
  {
  }

  lemma ImmutablesBoth(before: map<Id, Files>, files: map<Id, Files>, a: set<Id>, b: set<Id>)
    requires forall id :: id in a ==> id in before && id in files && files[id] == before[id]
    ensures Immutables(files, a + b) == Immutables(before, a) + Immutables(files, b)
  {
  }
}

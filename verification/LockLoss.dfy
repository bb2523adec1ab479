/**
 Two runs of the bootstrap that a system crash can spoil: one opener alone, and one whose record is
 acted upon before it is durable.
 */
module LockLoss {
  import opened Common
  import opened LockBootstrap
  import opened LockRecovery
  import opened LockDurability
  import opened LockCrash

  lemma RootExtends(ss: seq<Root>, es: seq<Action>, a: Action)
    requires RootRun(ss, es) && Allowed(ss[|es|], a)
    ensures RootRun(ss + [Follow(ss[|es|], a)], es + [a])
  {
    var ss', es' := ss + [Follow(ss[|es|], a)], es + [a];
    forall n {:trigger es'[n]} | 0 <= n < |es'|
      ensures Allowed(ss'[n], es'[n]) && ss'[n + 1] == Follow(ss'[n], es'[n])
    {
      assert n < |es| ==> ss'[n] == ss[n] && ss'[n + 1] == ss[n + 1] && es'[n] == es[n];
    }
  }

  ghost predicate Reachable(s: Root) {
    exists ss, es :: RootRun(ss, es) && ss[|es|] == s
  }

  lemma Reaches(s: Root, a: Action)
    requires Reachable(s) && Allowed(s, a)
    ensures Reachable(Follow(s, a))
  {
    var ss, es :| RootRun(ss, es) && ss[|es|] == s;
    RootExtends(ss, es, a);
    assert (ss + [Follow(s, a)])[|es + [a]|] == Follow(s, a);
  }

  lemma NewReachable()
    ensures Reachable(NEW_ROOT)
  {
    assert RootRun([NEW_ROOT], []);
  }

  const R := Rec(0, 0)
  const STAGED := Fs(None, None, None, map[0 := 0], map[0 := 0], 1, map[])
  const MARKED := Fs(None, Some(R), None, map[0 := 0], map[0 := 0], 1, map[0 := 0])
  const PLACED := MARKED.(locks := Some(0), stage := map[])
  const PUBLISHED := PLACED.(domain := Some(R))

  function At(fs: Fs, pc: Pc, synced: Fs, pending: seq<NameOp>, syncing: set<nat>): Root {
    Root(State(fs, map[0 := pc]), synced, pending, syncing, map[0 := 0])
  }

  lemma Stages()
    ensures Reachable(At(STAGED, Claim(0), EMPTY_ROOT, [AddStage(0, 0)], {}))
  {
    NewReachable();
    var s1 := Follow(NEW_ROOT, Begin(0));
    Reaches(NEW_ROOT, Begin(0));
    var s2 := Follow(s1, Move(0));
    Reaches(s1, Move(0));
    var s3 := Follow(s2, Move(0));
    Reaches(s2, Move(0));
    var s4 := Follow(s3, Move(0));
    Reaches(s3, Move(0));
    var s5 := Follow(s4, Move(0));
    Reaches(s4, Move(0));
    Reaches(s5, Move(0));
    assert Follow(s5, Move(0)) == At(STAGED, Claim(0), EMPTY_ROOT, [AddStage(0, 0)], {});
  }

  /** A call that only looks. */
  lemma Looks(fs: Fs, pc: Pc, pc': Pc, synced: Fs)
    requires Reachable(At(fs, pc, synced, [], {})) && !Halted(pc) && Step(fs, 0, pc) == (fs, pc')
    requires Issued(fs, 0, pc) == [] && !Syncs(fs, pc) && fs.tokens == map[0 := 0]
    ensures Reachable(At(fs, pc', synced, [], {}))
  {
    var s := At(fs, pc, synced, [], {});
    Reaches(s, Move(0));
    assert Follow(s, Move(0)) == At(fs, pc', synced, [], {});
  }

  /** A call that changes a name the opener is to sync. */
  lemma Changes(fs: Fs, pc: Pc, fs': Fs, pc': Pc, op: NameOp, synced: Fs, pending: seq<NameOp>)
    requires Reachable(At(fs, pc, synced, pending, {})) && !Halted(pc) && Step(fs, 0, pc) == (fs', pc')
    requires Issued(fs, 0, pc) == [op] && Syncs(fs, pc) && fs'.tokens == map[0 := 0]
    ensures Reachable(At(fs', pc', synced, pending + [op], {0})) && Reachable(At(fs', pc', fs', [], {}))
  {
    var s := At(fs, pc, synced, pending, {});
    Reaches(s, Move(0));
    var s' := At(fs', pc', synced, pending + [op], {0});
    assert Follow(s, Move(0)) == s';
    Reaches(s', SyncRoot(0));
    assert Follow(s', SyncRoot(0)) == At(fs', pc', fs', [], {});
  }

  /** One opener alone passes through a state that a crash can make unopenable: its marker linked, not yet synced. */
  lemma Claims()
    ensures var s := At(MARKED, CheckDomain(R, true), EMPTY_ROOT, [AddStage(0, 0), SetMarker(Some(R))], {0});
            Reachable(s) && !Recoverable(s)
    ensures Reachable(At(MARKED, CheckDomain(R, true), MARKED, [], {}))
  {
    Stages();
    var before, op := [AddStage(0, 0)], SetMarker(Some(R));
    Changes(STAGED, Claim(0), MARKED, CheckDomain(R, true), op, EMPTY_ROOT, before);
    assert before + [op] == [AddStage(0, 0), op] && op in before + [op];
  }

  lemma Places()
    ensures Reachable(At(PLACED, CheckNamed(0, Fresh(R)), PLACED, [], {}))
  {
    Claims();
    Looks(MARKED, CheckDomain(R, true), CheckToken(R, 0), MARKED);
    Looks(MARKED, CheckToken(R, 0), LstatPath(R, 0), MARKED);
    Looks(MARKED, LstatPath(R, 0), RenameStage(R, 0), MARKED);
    Changes(MARKED, RenameStage(R, 0), PLACED, CheckNamed(0, Fresh(R)), MoveStage(0, 0), MARKED, []);
  }

  /** The record is linked and not yet synced. */
  lemma Publishes()
    ensures Reachable(At(PUBLISHED, Validate(R, Some(R), 0), PLACED, [SetDomain(R)], {0}))
  {
    Places();
    Looks(PLACED, CheckNamed(0, Fresh(R)), EnsureToken(R, 0), PLACED);
    Looks(PLACED, EnsureToken(R, 0), PublishDomain(R, 0), PLACED);
    Changes(PLACED, PublishDomain(R, 0), PUBLISHED, Validate(R, Some(R), 0), SetDomain(R), PLACED, []);
  }

  /** The second opener while the first has not synced its record. */
  function Both(pc: Pc): Root {
    var first := Validate(R, Some(R), 0);
    Root(State(PUBLISHED, map[0 := first, 1 := pc]), PLACED, [SetDomain(R)], {0}, map[0 := 0])
  }

  lemma SecondLooks(pc: Pc, pc': Pc)
    requires Reachable(Both(pc)) && !Halted(pc) && Step(PUBLISHED, 1, pc) == (PUBLISHED, pc')
    requires Issued(PUBLISHED, 1, pc) == [] && !Syncs(PUBLISHED, pc)
    ensures Reachable(Both(pc'))
  {
    Reaches(Both(pc), Move(1));
    assert Follow(Both(pc), Move(1)) == Both(pc');
  }

  lemma SecondStarts()
    ensures Reachable(Both(ReadDomain))
  {
    Publishes();
    var s := At(PUBLISHED, Validate(R, Some(R), 0), PLACED, [SetDomain(R)], {0});
    Reaches(s, Begin(1));
    assert Follow(s, Begin(1)) == Both(ReadDomain);
  }

  /** A second opener finds the record and moves the marker away before the record is synced. */
  lemma Removes() returns (s: Root)
    ensures Reachable(s) && s.base.fs == PUBLISHED.(marker := None) && s.synced == PLACED
    ensures s.pending == [SetDomain(R), SetMarker(None)] && s.written == map[0 := 0]
  {
    SecondStarts();
    SecondLooks(ReadDomain, ReadMarker(Some(R)));
    SecondLooks(ReadMarker(Some(R)), RemoveMarker(R, ToOpen(R)));
    SecondLooks(RemoveMarker(R, ToOpen(R)), Quarantine(R, ToOpen(R)));
    var last := Both(Quarantine(R, ToOpen(R)));
    Reaches(last, Move(1));
    s := Follow(last, Move(1));
  }

  /**
   It happens: a crash keeps the removal of the marker, loses the record that justified it, and every
   later opener refuses the directory it finds.
   */
  lemma LostRecordRun(j: nat) returns (s: Root, f: Fs)
    ensures Reachable(s) && CrashRoot(s, f) && f.domain.None? && f.marker.None? && f.locks == Some(0)
    ensures Alone(f, j, ReadDomain, 24) == (f, Failed(Unproven))
  {
    s := Removes();
    f := PLACED.(marker := None);
    var keep := [false, true];
    assert Kept(PLACED, s.pending, keep) == f by {
      assert s.pending[..1] == [SetDomain(R)] && keep[..1] == [false];
      assert [SetDomain(R)][..0] == [] && [false][..0] == [];
      assert Kept(PLACED, [SetDomain(R)], [false]) == PLACED;
    }
    Refused(f, j);
  }
}

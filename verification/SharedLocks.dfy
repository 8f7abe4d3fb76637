/** When a verifier that nobody competes with gets to work, and what that asks of an inventory
    (rust/src/downloads.rs, rust/src/inventory.rs, rust/src/verification.rs). */
module SharedLocks {
  import opened Common
  import opened LockProtocol
  import Inventory

  // --- a process on its own ------------------------------------------------------------------

  /** Only `p` holds locks, and the lock files of different paths are different files. */
  ghost predicate Undisputed(s: State, p: Pid) {
    && Inv(s) && p in s.procs
    && (forall i :: i in s.holder ==> s.holder[i] == p)
    && (forall a, b :: a in s.procs[p].locks && b in s.procs[p].locks && a in s.files && b in s.files && s.files[a] == s.files[b] ==> a == b)
  }

  /** And what it has open is still what the path names. */
  ghost predicate OnItsWay(s: State, p: Pid) {
    && Undisputed(s, p) && Distinct(s.procs[p].locks)
    && var q := s.procs[p];
    && !q.phase.Ended?
    && (q.phase.Opened? || q.phase.Flocked? ==> Get(s.files, q.locks[q.phase.n]) == Some(q.phase.inode))
  }

  /** A stretch of a run in which only `p` does anything. */
  ghost predicate OwnRun(states: seq<State>, labels: seq<Label>, p: Pid) {
    && |states| == |labels| + 1
    && forall j :: 0 <= j < |labels| ==> labels[j].Act? && labels[j].p == p && Next(states[j], states[j + 1], labels[j], true)
  }

  lemma NotHeldYet(s: State, p: Pid)
    requires OnItsWay(s, p) && s.procs[p].phase.Opened?
    ensures s.procs[p].phase.inode !in s.holder
  {
    var q := s.procs[p];
    assert Secured(s, p);
    forall j | 0 <= j < |q.held| ensures q.held[j] != q.phase.inode {
      assert q.locks[j] in q.locks && q.locks[q.phase.n] in q.locks;
      assert q.locks[j] != q.locks[q.phase.n];
    }
    assert q.phase.inode in s.holder ==> Owns(s, s.holder[q.phase.inode], q.phase.inode);
  }

  lemma StepStaysOnItsWay(s: State, p: Pid, unused: Inode)
    requires OnItsWay(s, p) && !s.procs[p].phase.Working? && Unused(s, unused)
    ensures OnItsWay(Step(s, p, unused), p)
    ensures Secured(s, p) && Secured(Step(s, p, unused), p)
    ensures Rank(Step(s, p, unused).procs[p]) < Rank(s.procs[p])
  {
    hide Inv, Secured, Rank, Distinct;
    var q, t := s.procs[p], Step(s, p, unused);
    NoProcessWaits(s, p, unused);
    InvKept(s, t, Act(p, unused));
    PhaseInRange(s, p);
    if q.phase.Opened? {
      NotHeldYet(s, p);
    }
    StepKeepsList(s, p, unused);
    PhaseInRange(t, p);
    hide Unused;
    assert !t.procs[p].phase.Ended?;
    assert forall i :: i in t.holder ==> t.holder[i] == p;
  }

  lemma PhaseInRange(s: State, p: Pid)
    requires Inv(s) && p in s.procs
    ensures s.procs[p].phase.Opened? || s.procs[p].phase.Flocked? ==> s.procs[p].phase.n < |s.procs[p].locks|
  {
    assert Secured(s, p);
  }

  lemma StepKeepsList(s: State, p: Pid, unused: Inode)
    requires p in s.procs
    ensures var t := Step(s, p, unused); p in t.procs && t.procs[p].locks == s.procs[p].locks && t.procs[p].verifier == s.procs[p].verifier
  {
  }

  // --- an inode to spare -----------------------------------------------------------------------

  lemma {:induction false} Above(s: set<nat>) returns (b: nat)
    ensures forall x :: x in s ==> x < b
  {
    if s == {} {
      b := 0;
    } else {
      var x :| x in s;
      var c := Above(s - {x});
      b := if c > x then c else x + 1;
      assert s == (s - {x}) + {x};
    }
  }

  lemma SomeUnused(s: State) returns (i: Inode)
    ensures Unused(s, i)
  {
    var opening := set p | p in s.procs && s.procs[p].phase.Opened? :: s.procs[p].phase.inode;
    var flocked := set p | p in s.procs && s.procs[p].phase.Flocked? :: s.procs[p].phase.inode;
    i := Above(s.files.Values + s.holder.Keys + opening + flocked);
    assert forall p :: p in s.procs && s.procs[p].phase.Opened? ==> s.procs[p].phase.inode in opening;
    assert forall p :: p in s.procs && s.procs[p].phase.Flocked? ==> s.procs[p].phase.inode in flocked;
  }

  // --- the exact condition -----------------------------------------------------------------------

  lemma {:induction false} WalksToWork(s: State, p: Pid) returns (states: seq<State>, labels: seq<Label>)
    requires OnItsWay(s, p) && Secured(s, p)
    ensures OwnRun(states, labels, p) && states[0] == s
    ensures p in states[|labels|].procs && states[|labels|].procs[p].phase.Working?
    decreases Rank(s.procs[p])
  {
    if s.procs[p].phase.Working? {
      states, labels := [s], [];
    } else {
      var unused := SomeUnused(s);
      StepStaysOnItsWay(s, p, unused);
      NoProcessWaits(s, p, unused);
      var more, others := WalksToWork(Step(s, p, unused), p);
      states, labels := [s] + more, [Act(p, unused)] + others;
    }
  }

  lemma {:induction false} OwnRunKeepsLocks(states: seq<State>, labels: seq<Label>, p: Pid, j: nat)
    requires OwnRun(states, labels, p) && j < |states| && Inv(states[0]) && p in states[0].procs
    ensures Inv(states[j]) && p in states[j].procs && states[j].procs[p].locks == states[0].procs[p].locks
  {
    hide Inv;
    if j > 0 {
      OwnRunKeepsLocks(states, labels, p, j - 1);
      InvKept(states[j - 1], states[j], labels[j - 1]);
      StepKeepsList(states[j - 1], p, labels[j - 1].unused);
    }
  }

  ghost predicate CanReachWork(s: State, p: Pid) {
    exists states, labels :: OwnRun(states, labels, p) && states[0] == s && AtWork(states[|labels|], p)
  }

  ghost predicate AtWork(s: State, p: Pid) { p in s.procs && s.procs[p].phase.Working? }

  /** A process that starts while nobody holds a lock, and that nobody then disturbs, gets to work
      exactly when its list names no lock twice. */
  lemma ReachesWorkIff(s: State, p: Pid)
    requires Undisputed(s, p) && s.procs[p].phase == Entering(0) && s.holder == map[]
    ensures CanReachWork(s, p) <==> Distinct(s.procs[p].locks)
  {
    if Distinct(s.procs[p].locks) {
      assert Secured(s, p);
      var states, labels := WalksToWork(s, p);
      assert AtWork(states[|labels|], p);
    }
    if CanReachWork(s, p) {
      var states, labels :| OwnRun(states, labels, p) && states[0] == s && AtWork(states[|labels|], p);
      OwnRunKeepsLocks(states, labels, p, |labels|);
      SharedLockNeverWorks(states[|labels|], p);
    }
  }

  // --- what it asks of an inventory ---------------------------------------------------------------

  /** The locks of a run over these manifests, in inventory order. */
  function LocksFor(manifests: seq<Inventory.Path>): (locks: seq<LockPath>)
    ensures |locks| == |manifests|
  {
    seq(|manifests|, k requires 0 <= k < |manifests| => Inventory.LockPathFor(manifests[k]))
  }

  /** Two manifests that no run can lock together. */
  predicate Clash(a: Inventory.Path, b: Inventory.Path) {
    Inventory.DirectoryOf(a) == Inventory.DirectoryOf(b) &&
    Inventory.Stem(Inventory.NameOf(a)) == Inventory.Stem(Inventory.NameOf(b))
  }

  lemma DistinctLocksIff(manifests: seq<Inventory.Path>)
    ensures Distinct(LocksFor(manifests)) <==>
              forall i, j :: 0 <= i < j < |manifests| ==> !Clash(manifests[i], manifests[j])
  {
    forall i, j | 0 <= i < j < |manifests|
      ensures LocksFor(manifests)[i] == LocksFor(manifests)[j] <==> Clash(manifests[i], manifests[j])
    {
      Inventory.SameLockIff(manifests[i], manifests[j]);
    }
  }

  /** A run over the manifests of an inventory can get past taking its locks exactly when no two of
      them stand in one directory under names that differ at most in the extension. */
  lemma InventoryCanBeVerifiedIff(s: State, p: Pid, manifests: seq<Inventory.Path>)
    requires Undisputed(s, p) && s.procs[p].phase == Entering(0) && s.holder == map[]
    requires s.procs[p].locks == LocksFor(manifests)
    ensures CanReachWork(s, p) <==> forall i, j :: 0 <= i < j < |manifests| ==> !Clash(manifests[i], manifests[j])
  {
    ReachesWorkIff(s, p);
    DistinctLocksIff(manifests);
  }

  /** Nothing else stops such an inventory: with two manifests of one name and two extensions in one
      directory that share no key and no destination, each with its own paired lock, it is
      accepted; and it clashes. */
  lemma ClashingInventoryIsAccepted(directory: string, stem: string, one: string, other: string,
                                    key: string, another: string, path: Inventory.Path, elsewhere: Inventory.Path)
    returns (sources: seq<Inventory.Source>, manifests: seq<Inventory.Path>)
    requires '/' !in stem && '/' !in one && '/' !in other && stem != [] && '.' !in one && '.' !in other
    requires one != other && key != another && path != elsewhere
    ensures |sources| == |manifests| == 2 && Inventory.Consistent(sources)
    ensures forall k :: 0 <= k < 2 ==> sources[k].lock == Inventory.LockPathFor(manifests[k])
    ensures manifests[0] != manifests[1] && Clash(manifests[0], manifests[1])
  {
    var front := directory + "/" + stem + ".";
    manifests := [front + one, front + other];
    assert manifests[0][|front|..] == one && manifests[1][|front|..] == other;
    Inventory.SameStemSameLock(directory, stem, one, other);
    Inventory.SameLockIff(manifests[0], manifests[1]);
    hide Inventory.LockPathFor, Clash;
    sources := Pair(directory + "/" + stem + ".lock", key, another, path, elsewhere);
    PairIsConsistent(directory + "/" + stem + ".lock", key, another, path, elsewhere);
  }

  /** Two sources under one lock, with one file each. */
  function Pair(lock: LockPath, key: string, other: string, path: Inventory.Path, another: Inventory.Path): seq<Inventory.Source> {
    [Inventory.Source("one", lock, [Inventory.Artifact(key, [Inventory.File("f", path)])]),
     Inventory.Source("two", lock, [Inventory.Artifact(other, [Inventory.File("f", another)])])]
  }

  lemma ListsOf<T>(none: seq<T>, x: T, y: T)
    requires none == []
    ensures none + [x] == [x] && [x] + [y] == [x, y]
  {
  }

  lemma PairIsConsistent(lock: LockPath, key: string, other: string, path: Inventory.Path, another: Inventory.Path)
    requires key != other && path != another
    ensures Inventory.Consistent(Pair(lock, key, other, path, another))
  {
    var sources := Pair(lock, key, other, path, another);
    var x, y := sources[0], sources[1];
    var a, b := x.artifacts[0], y.artifacts[0];
    PairOfArtifacts(a, b);
    PairOfSources(x, y, a, b);
  }

  lemma PairOfSources(x: Inventory.Source, y: Inventory.Source, a: Inventory.Artifact, b: Inventory.Artifact)
    requires x.artifacts == [a] && y.artifacts == [b]
    ensures Inventory.Artifacts([x, y]) == [a, b]
  {
    var none: seq<Inventory.Source>, nobody: seq<Inventory.Artifact> := [], [];
    assert Inventory.Artifacts(none) == nobody;
    hide Inventory.Artifacts;
    ListsOf(none, x, y);
    ListsOf(nobody, a, b);
    Inventory.OneMoreSource(none, x);
    Inventory.OneMoreSource([x], y);
  }

  lemma PairOfArtifacts(a: Inventory.Artifact, b: Inventory.Artifact)
    requires |a.files| == |b.files| == 1
    ensures Inventory.Keys([a, b]) == [a.key, b.key]
    ensures Inventory.Destinations([a, b]) == [a.files[0].destination, b.files[0].destination]
  {
    var nobody: seq<Inventory.Artifact>, none: seq<string> := [], [];
    assert Inventory.Keys(nobody) == none && Inventory.Destinations(nobody) == none;
    assert Inventory.Targets(a.files) == [a.files[0].destination];
    assert Inventory.Targets(b.files) == [b.files[0].destination];
    hide Inventory.Keys, Inventory.Destinations, Inventory.Targets;
    ListsOf(nobody, a, b);
    ListsOf(none, a.key, b.key);
    ListsOf(none, a.files[0].destination, b.files[0].destination);
    Inventory.KeysSnoc(nobody, a);
    Inventory.KeysSnoc([a], b);
  }
}

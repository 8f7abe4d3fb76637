/** How verification runs and artifact writers exclude each other, as interleaved steps of any
    number of processes (rust/src/downloads.rs, rust/src/verification.rs, and the writers
    download_service.py and download_queue.py).

    A lock is a file: a process opens the path, takes flock(2) on what it opened without
    waiting, and a verifier then looks whether the path still names that file. The Python
    writers do not look again. */
module LockProtocol {
  import opened Common

  type Pid = nat
  type LockPath = string
  type Inode = nat

  /** `Entering(n)`: holds the first `n` of its locks. `Opened(n, i)`: has the next lock file open.
      `Flocked(n, i)`: a verifier that has locked it and has not looked again. `Working(k)`: holds
      every lock; a verifier examines artifacts, a writer writes those of its `k`-th source. */
  datatype Phase = Entering(n: nat) | Opened(n: nat, inode: Inode) | Flocked(n: nat, inode: Inode) | Working(k: nat) | Ended

  datatype Process = Process(verifier: bool, locks: seq<LockPath>, phase: Phase, held: seq<Inode>)

  /** `files` is what each lock path names, `holder` who has each lock file flocked. */
  datatype State = State(procs: map<Pid, Process>, files: map<LockPath, Inode>, holder: map<Inode, Pid>)

  // --- one process's own step ------------------------------------------------------

  function With(s: State, p: Pid, q: Process): State { s.(procs := s.procs[p := q]) }

  /** Leaving for any reason closes every descriptor, which releases every lock. */
  function Leave(s: State, p: Pid): State
    requires p in s.procs
  {
    State(s.procs[p := s.procs[p].(phase := Ended, held := [])],
          s.files,
          map i | i in s.holder && s.holder[i] != p :: s.holder[i])
  }

  /** The next thing a process does; `unused` is an inode for a lock file it has to create. */
  function Step(s: State, p: Pid, unused: Inode): State
    requires p in s.procs
  {
    var q := s.procs[p];
    match q.phase
    case Entering(n) =>
      if n >= |q.locks| then With(s, p, q.(phase := Working(0)))
      else if q.locks[n] in s.files then With(s, p, q.(phase := Opened(n, s.files[q.locks[n]])))
      else With(s, p, q.(phase := Opened(n, unused))).(files := s.files[q.locks[n] := unused])
    case Opened(n, i) =>
      if i in s.holder then Leave(s, p)
      else if q.verifier then With(s, p, q.(phase := Flocked(n, i))).(holder := s.holder[i := p])
      else With(s, p, q.(phase := Entering(n + 1), held := q.held + [i])).(holder := s.holder[i := p])
    case Flocked(n, i) =>
      if n < |q.locks| && Get(s.files, q.locks[n]) == Some(i)
      then With(s, p, q.(phase := Entering(n + 1), held := q.held + [i]))
      else Leave(s, p)
    case Working(k) =>
      if k + 1 < |q.locks| then With(s, p, q.(phase := Working(k + 1))) else Leave(s, p)
    case Ended => s
  }

  /** An inode no path names, nobody holds and nobody has open. */
  ghost predicate Unused(s: State, i: Inode) {
    && i !in s.files.Values && i !in s.holder
    && (forall p :: p in s.procs ==> !(s.procs[p].phase.Opened? && s.procs[p].phase.inode == i))
    && (forall p :: p in s.procs ==> !(s.procs[p].phase.Flocked? && s.procs[p].phase.inode == i))
  }

  // --- everything that can happen -----------------------------------------------------

  /** `Spawn`: a process starts. `Act`: it takes its own next step. `Die`: it exits or fails
      anywhere. `Swap`: something unlinks or replaces a lock file. */
  datatype Label =
    | Spawn(p: Pid, verifier: bool, locks: seq<LockPath>)
    | Act(p: Pid, unused: Inode)
    | Die(p: Pid)
    | Swap(path: LockPath, now: Option<Inode>)

  /** When a lock file may be swapped: never while a process holds it, and never while a
      process that will not look again sits between opening it and locking it. */
  ghost predicate Careful(s: State, path: LockPath) {
    forall p :: p in s.procs ==>
      var q := s.procs[p];
      && (forall j :: 0 <= j < |q.held| && j < |q.locks| ==> q.locks[j] != path)
      && (q.phase.Opened? && !q.verifier && q.phase.n < |q.locks| ==> q.locks[q.phase.n] != path)
  }

  ghost predicate Next(s: State, t: State, l: Label, careful: bool) {
    match l
    case Spawn(p, verifier, locks) =>
      p !in s.procs && t == With(s, p, Process(verifier, locks, Entering(0), []))
    case Act(p, unused) => p in s.procs && Unused(s, unused) && t == Step(s, p, unused)
    case Die(p) => p in s.procs && t == Leave(s, p)
    case Swap(path, now) =>
      && (careful ==> Careful(s, path))
      && (now.Some? ==> Unused(s, now.value))
      && t == s.(files := if now.Some? then s.files[path := now.value] else s.files - {path})
  }

  ghost predicate Run(states: seq<State>, labels: seq<Label>, careful: bool) {
    && |states| == |labels| + 1
    && states[0] == State(map[], map[], map[])
    && forall j :: 0 <= j < |labels| ==> Next(states[j], states[j + 1], labels[j], careful)
  }

  /** No verifier examines artifacts while a writer writes those of a source it covers. */
  ghost predicate Safe(s: State) {
    forall v, w :: v in s.procs && w in s.procs && Examines(s.procs[v]) && WritesSomething(s.procs[w]) ==>
      WritesUnder(s.procs[w]) !in s.procs[v].locks
  }

  ghost predicate Examines(q: Process) { q.verifier && q.phase.Working? }

  ghost predicate WritesSomething(q: Process) { !q.verifier && q.phase.Working? && q.phase.k < |q.locks| }

  ghost function WritesUnder(q: Process): LockPath
    requires WritesSomething(q)
  {
    q.locks[q.phase.k]
  }

  // --- the invariant ---------------------------------------------------------------------

  /** How many locks a process holds, and that the phase says so. */
  ghost predicate Counts(q: Process) {
    match q.phase
    case Entering(n) => |q.held| == n <= |q.locks|
    case Opened(n, _) => |q.held| == n < |q.locks|
    case Flocked(n, _) => q.verifier && |q.held| == n < |q.locks|
    case Working(k) => |q.held| == |q.locks|
    case Ended => q.held == []
  }

  /** Every lock counted as held is flocked by the process, on the file its path names now. */
  ghost predicate Secured(s: State, p: Pid) {
    && p in s.procs && Counts(s.procs[p])
    && var q := s.procs[p];
    && Distinct(q.held)
    && (forall j :: 0 <= j < |q.held| ==> Get(s.files, q.locks[j]) == Some(q.held[j]) && Get(s.holder, q.held[j]) == Some(p))
    && (q.phase.Opened? && !q.verifier ==> Get(s.files, q.locks[q.phase.n]) == Some(q.phase.inode))
    && (q.phase.Flocked? ==> Get(s.holder, q.phase.inode) == Some(p) && q.phase.inode !in q.held)
  }

  ghost predicate Inv(s: State) {
    && (forall p :: p in s.procs ==> Secured(s, p))
    // Only a live process holds a lock, and it counts it or is about to.
    && (forall i :: i in s.holder ==> Owns(s, s.holder[i], i))
  }

  ghost predicate Owns(s: State, p: Pid, i: Inode) {
    && p in s.procs
    && (i in s.procs[p].held || (s.procs[p].phase.Flocked? && s.procs[p].phase.inode == i))
  }

  /** One lock path, one holder. */
  lemma OneHolder(s: State, p: Pid, q: Pid, j: nat, k: nat)
    requires Inv(s) && p in s.procs && q in s.procs
    requires j < |s.procs[p].held| && k < |s.procs[q].held|
    requires s.procs[p].locks[j] == s.procs[q].locks[k]
    ensures p == q && j == k
  {
    assert Secured(s, p) && Secured(s, q);
    assert s.procs[p].held[j] == s.procs[q].held[k];
  }

  lemma InvIsSafe(s: State)
    requires Inv(s)
    ensures Safe(s)
  {
    forall v, w | v in s.procs && w in s.procs && Examines(s.procs[v]) && WritesSomething(s.procs[w])
      ensures WritesUnder(s.procs[w]) !in s.procs[v].locks
    {
      assert Secured(s, v) && Secured(s, w);
      if WritesUnder(s.procs[w]) in s.procs[v].locks {
        var j :| 0 <= j < |s.procs[v].locks| && s.procs[v].locks[j] == WritesUnder(s.procs[w]);
        OneHolder(s, v, w, j, s.procs[w].phase.k);
      }
    }
  }

  // --- the invariant is kept by every step ---------------------------------------------------

  /** A process that did not move stays secured if its own locks and paths were left alone. */
  lemma Undisturbed(s: State, t: State, r: Pid)
    requires Secured(s, r) && r in t.procs && t.procs[r] == s.procs[r]
    requires forall i :: Get(s.holder, i) == Some(r) ==> Get(t.holder, i) == Some(r)
    requires forall j :: 0 <= j < |s.procs[r].held| ==>
               Get(t.files, s.procs[r].locks[j]) == Get(s.files, s.procs[r].locks[j])
    requires s.procs[r].phase.Opened? && !s.procs[r].verifier ==>
               Get(t.files, s.procs[r].locks[s.procs[r].phase.n]) == Get(s.files, s.procs[r].locks[s.procs[r].phase.n])
    ensures Secured(t, r)
  {
  }

  lemma LeaveKeeps(s: State, p: Pid)
    requires Inv(s) && p in s.procs
    ensures Inv(Leave(s, p))
    ensures forall i :: i in Leave(s, p).holder ==> Leave(s, p).holder[i] != p
  {
    var t := Leave(s, p);
    forall r | r in t.procs ensures Secured(t, r) {
      if r != p {
        Undisturbed(s, t, r);
      }
    }
    forall i | i in t.holder ensures Owns(t, t.holder[i], i) {
      assert Owns(s, s.holder[i], i);
    }
  }

  /** A step that changes only the phase and the held list of its process. */
  lemma MoveKeeps(s: State, p: Pid, q: Process)
    requires Inv(s) && p in s.procs && Secured(With(s, p, q), p)
    requires forall i :: Get(s.holder, i) == Some(p) ==> Owns(With(s, p, q), p, i)
    ensures Inv(With(s, p, q))
  {
    var t := With(s, p, q);
    forall r | r in t.procs ensures Secured(t, r) {
      if r != p {
        Undisturbed(s, t, r);
      }
    }
    forall i | i in t.holder ensures Owns(t, t.holder[i], i) {
      assert Owns(s, s.holder[i], i);
    }
  }

  /** Whatever a process between locks holds, it counts. */
  lemma HeldIsCounted(s: State, p: Pid)
    requires Inv(s) && p in s.procs && !s.procs[p].phase.Flocked?
    ensures forall i :: Get(s.holder, i) == Some(p) ==> i in s.procs[p].held
  {
    forall i | Get(s.holder, i) == Some(p) ensures i in s.procs[p].held {
      assert Owns(s, s.holder[i], i);
    }
  }

  lemma OpenKeeps(s: State, p: Pid, unused: Inode)
    requires Inv(s) && p in s.procs && Unused(s, unused) && s.procs[p].phase.Entering?
    ensures Inv(Step(s, p, unused))
  {
    var q := s.procs[p];
    var n := q.phase.n;
    assert Secured(s, p);
    HeldIsCounted(s, p);
    if n >= |q.locks| {
      MoveKeeps(s, p, q.(phase := Working(0)));
    } else if q.locks[n] in s.files {
      MoveKeeps(s, p, q.(phase := Opened(n, s.files[q.locks[n]])));
    } else {
      CreateKeeps(s, q.locks[n], unused);
      MoveKeeps(s.(files := s.files[q.locks[n] := unused]), p, q.(phase := Opened(n, unused)));
    }
  }

  /** A lock file that was not there disturbs nobody. */
  lemma CreateKeeps(s: State, path: LockPath, inode: Inode)
    requires Inv(s) && path !in s.files
    ensures Inv(s.(files := s.files[path := inode]))
  {
    var t := s.(files := s.files[path := inode]);
    forall r | r in t.procs ensures Secured(t, r) {
      assert Secured(s, r);
      Undisturbed(s, t, r);
    }
    forall i | i in t.holder ensures Owns(t, t.holder[i], i) {
      assert Owns(s, s.holder[i], i);
    }
  }

  lemma FlockKeeps(s: State, p: Pid, unused: Inode)
    requires Inv(s) && p in s.procs && s.procs[p].phase.Opened?
    ensures Inv(Step(s, p, unused))
  {
    var q, t := s.procs[p], Step(s, p, unused);
    var i := q.phase.inode;
    assert Secured(s, p);
    if i in s.holder {
      LeaveKeeps(s, p);
    } else {
      NotHeldYet(s, p);
      hide Secured, Owns;
      forall r | r in t.procs ensures Secured(t, r) {
        assert Secured(s, r);
        if r == p {
          FlockSecures(s, p, unused);
        } else {
          Undisturbed(s, t, r);
        }
      }
      forall k | k in t.holder ensures Owns(t, t.holder[k], k) {
        FlockOwns(s, p, unused, k);
      }
    }
  }

  lemma NotHeldYet(s: State, p: Pid)
    requires Secured(s, p) && s.procs[p].phase.Opened? && s.procs[p].phase.inode !in s.holder
    ensures s.procs[p].phase.inode !in s.procs[p].held
  {
    var q := s.procs[p];
    assert forall j :: 0 <= j < |q.held| ==> q.held[j] in s.holder;
  }

  lemma FlockSecures(s: State, p: Pid, unused: Inode)
    requires p in s.procs && Secured(s, p) && s.procs[p].phase.Opened?
    requires s.procs[p].phase.inode !in s.holder && s.procs[p].phase.inode !in s.procs[p].held
    ensures Secured(Step(s, p, unused), p)
  {
  }

  lemma FlockOwns(s: State, p: Pid, unused: Inode, k: Inode)
    requires Inv(s) && p in s.procs && s.procs[p].phase.Opened? && s.procs[p].phase.inode !in s.holder
    requires k in Step(s, p, unused).holder
    ensures Owns(Step(s, p, unused), Step(s, p, unused).holder[k], k)
  {
    if k != s.procs[p].phase.inode {
      assert Owns(s, s.holder[k], k);
    }
  }

  lemma LookAgainKeeps(s: State, p: Pid, unused: Inode)
    requires Inv(s) && p in s.procs && s.procs[p].phase.Flocked?
    ensures Inv(Step(s, p, unused))
  {
    var q := s.procs[p];
    assert Secured(s, p);
    if Get(s.files, q.locks[q.phase.n]) == Some(q.phase.inode) {
      var moved := q.(phase := Entering(q.phase.n + 1), held := q.held + [q.phase.inode]);
      forall i | Get(s.holder, i) == Some(p) ensures Owns(With(s, p, moved), p, i) {
        assert Owns(s, s.holder[i], i);
      }
      MoveKeeps(s, p, moved);
    } else {
      LeaveKeeps(s, p);
    }
  }

  lemma WorkKeeps(s: State, p: Pid, unused: Inode)
    requires Inv(s) && p in s.procs && s.procs[p].phase.Working?
    ensures Inv(Step(s, p, unused))
  {
    var q := s.procs[p];
    assert Secured(s, p);
    if q.phase.k + 1 < |q.locks| {
      var moved := q.(phase := Working(q.phase.k + 1));
      HeldIsCounted(s, p);
      assert Secured(With(s, p, moved), p);
      hide Inv, Secured;
      MoveKeeps(s, p, moved);
    } else {
      hide Inv, Secured;
      LeaveKeeps(s, p);
    }
  }

  lemma SwapKeeps(s: State, t: State, path: LockPath, now: Option<Inode>)
    requires Inv(s) && Next(s, t, Swap(path, now), true)
    ensures Inv(t)
  {
    forall r | r in t.procs ensures Secured(t, r) {
      assert Secured(s, r);
      Undisturbed(s, t, r);
    }
    forall i | i in t.holder ensures Owns(t, t.holder[i], i) {
      assert Owns(s, s.holder[i], i);
    }
  }

  lemma SpawnKeeps(s: State, t: State, l: Label)
    requires Inv(s) && l.Spawn? && Next(s, t, l, true)
    ensures Inv(t)
  {
    forall r | r in t.procs ensures Secured(t, r) {
      if r != l.p {
        Undisturbed(s, t, r);
      }
    }
    forall i | i in t.holder ensures Owns(t, t.holder[i], i) {
      assert Owns(s, s.holder[i], i);
    }
  }

  lemma InvKept(s: State, t: State, l: Label)
    requires Inv(s) && Next(s, t, l, true)
    ensures Inv(t)
  {
    match l
    case Spawn(_, _, _) => SpawnKeeps(s, t, l);
    case Die(p) => LeaveKeeps(s, p);
    case Swap(path, now) => SwapKeeps(s, t, path, now);
    case Act(p, unused) =>
      match s.procs[p].phase
      case Entering(_) => OpenKeeps(s, p, unused);
      case Opened(_, _) => FlockKeeps(s, p, unused);
      case Flocked(_, _) => LookAgainKeeps(s, p, unused);
      case Working(_) => WorkKeeps(s, p, unused);
      case Ended =>
  }

  // --- the theorems ------------------------------------------------------------------------------

  /** In every state of every run of any number of verifiers and writers, as long as lock files
      are swapped with care, no verifier examines artifacts while a writer writes a source the
      verifier covers. */
  lemma {:induction false} EveryRunIsSafe(states: seq<State>, labels: seq<Label>, j: nat)
    requires Run(states, labels, true) && j < |states|
    ensures Inv(states[j]) && Safe(states[j])
  {
    if j > 0 {
      EveryRunIsSafe(states, labels, j - 1);
      InvKept(states[j - 1], states[j], labels[j - 1]);
    }
    InvIsSafe(states[j]);
  }

  /** The process holds the lock on the file this path names. */
  ghost predicate HoldsPath(s: State, p: Pid, path: LockPath) {
    exists i :: Get(s.files, path) == Some(i) && Get(s.holder, i) == Some(p)
  }

  /** All or nothing: a process that has ended, refused or not, holds no lock; one at work holds
      every lock it needs, each on the file its path names. */
  lemma AllOrNothing(s: State, p: Pid)
    requires Inv(s) && p in s.procs
    ensures s.procs[p].phase.Ended? ==> forall i :: i in s.holder ==> s.holder[i] != p
    ensures s.procs[p].phase.Working? ==>
              forall k :: 0 <= k < |s.procs[p].locks| ==> HoldsPath(s, p, s.procs[p].locks[k])
  {
    assert Secured(s, p);
    forall i | i in s.holder && s.procs[p].phase.Ended? ensures s.holder[i] != p {
      assert Owns(s, s.holder[i], i);
    }
    if s.procs[p].phase.Working? {
      forall k | 0 <= k < |s.procs[p].locks| ensures HoldsPath(s, p, s.procs[p].locks[k]) {
        assert Get(s.files, s.procs[p].locks[k]) == Some(s.procs[p].held[k]);
      }
    }
  }

  /** A process whose list names one lock path twice never gets to work: its second flock meets
      its first. An inventory in which two sources share a lock is refused by every run. */
  lemma SharedLockNeverWorks(s: State, p: Pid)
    requires Inv(s) && p in s.procs && s.procs[p].phase.Working?
    ensures Distinct(s.procs[p].locks)
  {
    assert Secured(s, p);
    forall j, k | 0 <= j < k < |s.procs[p].locks| ensures s.procs[p].locks[j] != s.procs[p].locks[k] {
      assert s.procs[p].held[j] != s.procs[p].held[k];
    }
  }

  /** Steps a process still has before it ends, if it is refused nowhere. */
  ghost function Rank(q: Process): nat
    requires Counts(q)
  {
    match q.phase
    case Entering(n) => 4 * (|q.locks| - n) + |q.locks| + 2
    case Opened(n, _) => 4 * (|q.locks| - n) + |q.locks| + 1
    case Flocked(n, _) => 4 * (|q.locks| - n) + |q.locks|
    case Working(k) => 1 + if k < |q.locks| then |q.locks| - k else 0
    case Ended => 0
  }

  /** No process waits for another: whatever the others hold, its own next step is always
      possible and brings it closer to its end, so there is no deadlock. */
  lemma NoProcessWaits(s: State, p: Pid, unused: Inode)
    requires Inv(s) && p in s.procs && !s.procs[p].phase.Ended? && Unused(s, unused)
    ensures Next(s, Step(s, p, unused), Act(p, unused), true)
    ensures Secured(s, p) && Secured(Step(s, p, unused), p)
    ensures Rank(Step(s, p, unused).procs[p]) < Rank(s.procs[p])
  {
    InvKept(s, Step(s, p, unused), Act(p, unused));
    assert Secured(s, p) && Secured(Step(s, p, unused), p);
    hide Inv;
    RankFalls(s, p, unused);
  }

  lemma RankFalls(s: State, p: Pid, unused: Inode)
    requires p in s.procs && Counts(s.procs[p]) && p in Step(s, p, unused).procs && Counts(Step(s, p, unused).procs[p])
    requires !s.procs[p].phase.Ended?
    ensures Rank(Step(s, p, unused).procs[p]) < Rank(s.procs[p])
  {
  }

  /** Nothing that could be in the way is left out: a process with any list can start, any can die
      wherever it is, and a lock file can go or be replaced whenever nobody holds it and no writer
      has just opened it, at any time at all if nobody takes care. */
  lemma AnythingCanHappen(s: State, p: Pid, verifier: bool, locks: seq<LockPath>, path: LockPath, now: Option<Inode>, careful: bool)
    requires now.Some? ==> Unused(s, now.value)
    ensures p !in s.procs ==>
              exists t :: Next(s, t, Spawn(p, verifier, locks), careful) && p in t.procs &&
                          t.procs[p] == Process(verifier, locks, Entering(0), []) && t.files == s.files && t.holder == s.holder
    ensures p in s.procs ==> exists t :: Next(s, t, Die(p), careful) && p in t.procs && t.procs[p].phase.Ended? && t.files == s.files
    ensures (careful ==> (forall q :: q in s.procs ==>
               && (forall j :: 0 <= j < |s.procs[q].held| && j < |s.procs[q].locks| ==> s.procs[q].locks[j] != path)
               && (s.procs[q].phase.Opened? && s.procs[q].phase.n < |s.procs[q].locks| ==>
                     s.procs[q].verifier || s.procs[q].locks[s.procs[q].phase.n] != path))) ==>
              exists t :: Next(s, t, Swap(path, now), careful) && Get(t.files, path) == now && t.procs == s.procs && t.holder == s.holder
  {
    if p !in s.procs {
      var t := With(s, p, Process(verifier, locks, Entering(0), []));
      assert Next(s, t, Spawn(p, verifier, locks), careful);
    } else {
      assert Next(s, Leave(s, p), Die(p), careful);
    }
    if careful ==> Careful(s, path) {
      var t := s.(files := if now.Some? then s.files[path := now.value] else s.files - {path});
      assert Next(s, t, Swap(path, now), careful);
    }
  }

  /** `p` takes `n` steps of its own. */
  function Steps(s: State, p: Pid, unused: Inode, n: nat): (t: State)
    requires p in s.procs
    ensures p in t.procs
  {
    if n == 0 then s else Step(Steps(s, p, unused, n - 1), p, unused)
  }

  lemma WorkMoves(s: State, p: Pid, unused: Inode)
    requires p in s.procs && s.procs[p].phase.Working?
    ensures var q, t := s.procs[p], Step(s, p, unused);
            if q.phase.k + 1 < |q.locks| then t == s.(procs := s.procs[p := q.(phase := Working(q.phase.k + 1))])
            else p in t.procs && t.procs[p].phase.Ended? && t.files == s.files
                 && (forall i :: i in t.holder <==> i in s.holder && s.holder[i] != p)
  {
  }

  /** A process at work takes its sources one by one, from the first to the last, with every lock
      held throughout; one step later it is gone and holds none. */
  lemma {:induction false} WorksThroughItsList(s: State, p: Pid, unused: Inode, k: nat)
    requires p in s.procs && s.procs[p].phase == Working(0) && k <= |s.procs[p].locks|
    ensures k < |s.procs[p].locks| ==>
              Steps(s, p, unused, k) == s.(procs := s.procs[p := s.procs[p].(phase := Working(k))])
    ensures k == |s.procs[p].locks| > 0 ==>
              var t := Steps(s, p, unused, k);
              && t.procs[p].phase.Ended? && t.files == s.files
              && (forall i :: i in t.holder <==> i in s.holder && s.holder[i] != p)
  {
    hide Step;
    if k > 0 {
      WorksThroughItsList(s, p, unused, k - 1);
      var before := Steps(s, p, unused, k - 1);
      assert Steps(s, p, unused, k) == Step(before, p, unused);
      WorkMoves(before, p, unused);
      assert s.procs[p := s.procs[p].(phase := Working(k - 1))][p := s.procs[p].(phase := Working(k))]
          == s.procs[p := s.procs[p].(phase := Working(k))];
    } else {
      assert s.procs[p := s.procs[p].(phase := Working(0))] == s.procs;
    }
  }

  /** Care is needed: unlinking a lock file that a writer has open but has not locked yet, when
      nobody holds it, lets a verifier create and lock a new one; then the writer, which does
      not look again, locks the old one, and both are at work. */
  lemma CarelessSwapBreaksExclusion() returns (states: seq<State>, labels: seq<Label>)
    ensures Run(states, labels, false)
    ensures !Safe(states[|states| - 1])
  {
    states := seq(11, j requires 0 <= j < 11 => Story(j));
    labels := seq(10, j requires 0 <= j < 10 => StoryLabel(j));
    forall j | 0 <= j < 10 ensures Next(states[j], states[j + 1], labels[j], false) {
      if j < 5 { StoryBegins(j); } else if j < 8 { VerifierEnters(j); }
      else if j == 8 { WriterLocks(); } else { WriterStarts(); }
    }
    assert Examines(Story(10).procs[2]) && WritesSomething(Story(10).procs[1]);
    assert WritesUnder(Story(10).procs[1]) == LOCK;
    assert LOCK in Story(10).procs[2].locks;
  }

  const LOCK: LockPath := "q.lock"

  function Writing(phase: Phase, held: seq<Inode>): Process { Process(false, [LOCK], phase, held) }

  function Verifying(phase: Phase, held: seq<Inode>): Process { Process(true, [LOCK], phase, held) }

  function Story(j: nat): State {
    match j
    case 0 => State(map[], map[], map[])
    case 1 => State(map[1 := Writing(Entering(0), [])], map[], map[])
    case 2 => State(map[1 := Writing(Opened(0, 10), [])], map[LOCK := 10], map[])
    case 3 => State(map[1 := Writing(Opened(0, 10), [])], map[], map[])
    case 4 => State(map[1 := Writing(Opened(0, 10), []), 2 := Verifying(Entering(0), [])], map[], map[])
    case 5 => State(map[1 := Writing(Opened(0, 10), []), 2 := Verifying(Opened(0, 11), [])], map[LOCK := 11], map[])
    case 6 => State(map[1 := Writing(Opened(0, 10), []), 2 := Verifying(Flocked(0, 11), [])], map[LOCK := 11], map[11 := 2])
    case 7 => State(map[1 := Writing(Opened(0, 10), []), 2 := Verifying(Entering(1), [11])], map[LOCK := 11], map[11 := 2])
    case 8 => State(map[1 := Writing(Opened(0, 10), []), 2 := Verifying(Working(0), [11])], map[LOCK := 11], map[11 := 2])
    case 9 => State(map[1 := Writing(Entering(1), [10]), 2 := Verifying(Working(0), [11])], map[LOCK := 11], map[11 := 2, 10 := 1])
    case _ => State(map[1 := Writing(Working(0), [10]), 2 := Verifying(Working(0), [11])], map[LOCK := 11], map[11 := 2, 10 := 1])
  }

  function StoryLabel(j: nat): Label {
    match j
    case 0 => Spawn(1, false, [LOCK])
    case 1 => Act(1, 10)
    case 2 => Swap(LOCK, None)
    case 3 => Spawn(2, true, [LOCK])
    case 4 => Act(2, 11)
    case 8 => Act(1, 12)
    case 9 => Act(1, 12)
    case _ => Act(2, 12)
  }

  lemma StoryBegins(j: nat)
    requires j < 5
    ensures Next(Story(j), Story(j + 1), StoryLabel(j), false)
  {
    if j == 2 {
      assert Story(2).files - {LOCK} == map[];
    }
  }

  lemma VerifierEnters(j: nat)
    requires 5 <= j < 8
    ensures Next(Story(j), Story(j + 1), StoryLabel(j), false)
  {
    var t := Step(Story(j), 2, 12);
    var none: seq<Inode> := [];
    assert none + [11] == [11];
    if j == 5 {
      assert t.holder == Story(6).holder && t.procs == Story(6).procs;
    } else if j == 6 {
      assert t.procs == Story(7).procs;
    } else {
      assert t.procs == Story(8).procs;
    }
  }

  lemma WriterLocks()
    ensures Next(Story(8), Story(9), StoryLabel(8), false)
  {
    var writer, t := Writing(Opened(0, 10), []), Step(Story(8), 1, 12);
    var none: seq<Inode> := [];
    assert none + [10] == [10];
    assert Story(8).procs[1] == writer;
    assert t.holder == Story(9).holder;
    assert t.procs == Story(9).procs;
    assert Unused(Story(8), 12);
  }

  lemma WriterStarts()
    ensures Next(Story(9), Story(10), StoryLabel(9), false)
  {
    var t := Step(Story(9), 1, 12);
    assert t.procs == Story(10).procs;
  }
}

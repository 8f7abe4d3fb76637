/** Any number of downloads at once on one disk, step by step, with one power loss for all (the
    worker threads of `run_downloads` in
    verification/local-coverage-foundation/download_queue.py). Names are resolved paths cut at
    their dots. */
module DownloadCrew {
  import opened Common
  import opened Artifact
  import opened CrashDisk
  import Queue = DownloadQueue

  type Path = Queue.Dotted

  type SharedDisk = DiskOf<Path>

  /** One worker's job. */
  datatype Target = Target(dest: Path, record: Record) {
    function Partial(): Path { dest + ["partial"] }

    function Control(): Path { dest + ["partial", "aria2"] }

    predicate Owns(n: Path) { Queue.Touches(dest, n) }
  }

  /** `Transferring`: the transport runs. `Checked`: the partial was read and is what the manifest
      says. `Flushed`: its bytes are on stable storage. */
  datatype Phase = Resting | Transferring | Checked | Flushed

  datatype State = State(disk: SharedDisk, phases: seq<Phase>)

  /** `Settle`: names reach stable storage, by a flush of their directory or by themselves. */
  datatype Label =
    | Begin(p: nat)
    | Arrive(p: nat, n: Path, inode: Inode)
    | Fill(p: nat, content: Bytes)
    | Drop(p: nat)
    | Stop(p: nat)
    | Check(p: nat)
    | Flush(p: nat)
    | Promote(p: nat)
    | SetAside(p: nat, from: Path, to: Path)
    | Settle(names: set<Path>)
    | PowerLoss(after: SharedDisk)

  predicate GoodAt(d: SharedDisk, n: Path, record: Record, sha: Hash) {
    Exists(d, n) && Matches(Content(d, n), record, sha)
  }

  /** What a worker's own step does to the disk and to its phase, when it can be taken: a transfer
      is begun only when the partial is not already good, only a partial that was checked is
      flushed and promoted, and a destination is set aside only when it is not valid. */
  ghost predicate OwnStep(t: Target, d: SharedDisk, ph: Phase, e: SharedDisk, next: Phase, l: Label, sha: Hash) {
    match l
    case Begin(_) => ph == Resting && !GoodAt(d, t.Partial(), t.record, sha) && e == d && next == Transferring
    case Arrive(_, n, inode) =>
      && ph == Transferring && (n == t.Partial() || n == t.Control()) && n !in d.names
      && inode !in d.nodes && e == Create(d, n, inode) && next == ph
    case Fill(_, content) => ph == Transferring && Exists(d, t.Partial()) && e == Write(d, t.Partial(), content) && next == ph
    case Drop(_) => ph == Transferring && e == Unlink(d, t.Control()) && next == ph
    case Stop(_) => e == d && next == Resting
    case Check(_) => ph == Resting && GoodAt(d, t.Partial(), t.record, sha) && e == d && next == Checked
    case Flush(_) => ph == Checked && Exists(d, t.Partial()) && e == Fsync(d, t.Partial()) && next == Flushed
    case Promote(_) => ph == Flushed && t.Partial() in d.names && e == Rename(d, t.Partial(), t.dest) && next == Resting
    case SetAside(_, from, to) =>
      && ph == Resting && from in d.names && (from == t.dest || from == t.Partial() || from == t.Control())
      && (from == t.dest ==> !GoodAt(d, t.dest, t.record, sha))
      && t.Owns(to) && to != t.dest && to != t.Partial() && to != t.Control()
      && e == Rename(d, from, to) && next == Resting
    case _ => false
  }

  function Settled(d: SharedDisk, names: set<Path>): SharedDisk {
    d.(earlier := map n | n in d.earlier && n !in names :: d.earlier[n])
  }

  ghost predicate Next(crew: seq<Target>, s: State, t: State, l: Label, sha: Hash) {
    && |s.phases| == |t.phases| == |crew|
    && match l
       case Settle(names) => t == State(Settled(s.disk, names), s.phases)
       case PowerLoss(after) => Recovers(s.disk, after) && t == State(after, seq(|crew|, _ => Resting))
       case _ =>
         && l.p < |crew| && OwnStep(crew[l.p], s.disk, s.phases[l.p], t.disk, t.phases[l.p], l, sha)
         && forall q :: 0 <= q < |crew| && q != l.p ==> t.phases[q] == s.phases[q]
  }

  /** The file is bound, or could come back, under a name of this worker. */
  ghost predicate Reaches(t: Target, d: SharedDisk, k: Inode) {
    exists n :: t.Owns(n) && Some(k) in Candidates(d, n)
  }

  /** No two workers have a name in common. */
  ghost predicate Apart(crew: seq<Target>) {
    forall p, q, n :: 0 <= p < q < |crew| ==> !(crew[p].Owns(n) && crew[q].Owns(n))
  }

  /** A disk to begin with: nobody at work, no file within reach of two workers, and no file both at a
      destination and in its partial. */
  ghost predicate Ready(crew: seq<Target>, s: State) {
    && s.phases == seq(|crew|, _ => Resting) && WellFormed(s.disk)
    && (forall p: nat, q: nat, k: Inode :: p < |crew| && q < |crew| && p != q ==> !(Reaches(crew[p], s.disk, k) && Reaches(crew[q], s.disk, k)))
    && (forall p, c :: 0 <= p < |crew| && c in Candidates(s.disk, crew[p].Partial()) && c.Some? ==> c !in Candidates(s.disk, crew[p].dest))
  }

  ghost predicate Run(crew: seq<Target>, states: seq<State>, labels: seq<Label>, sha: Hash) {
    && |states| == |labels| + 1 && Ready(crew, states[0])
    && forall j :: 0 <= j < |labels| ==> Next(crew, states[j], states[j + 1], labels[j], sha)
  }

  // --- one worker's promise -------------------------------------------------------------------

  /** The file that could be found at the destination when the run began, unchanged. */
  ghost predicate Stood(t: Target, start: SharedDisk, d: SharedDisk, k: Inode) {
    && Some(k) in Candidates(start, t.dest) && k in start.nodes && k in d.nodes
    && (start.nodes[k].synced ==> d.nodes[k] == start.nodes[k])
  }

  ghost predicate Allowed(t: Target, start: SharedDisk, d: SharedDisk, c: Option<Inode>, sha: Hash) {
    c.None? || Stood(t, start, d, c.value) || Holds(d, c.value, t.record, sha)
  }

  ghost predicate Kept(t: Target, start: SharedDisk, d: SharedDisk, sha: Hash) {
    && (forall c :: c in Candidates(d, t.dest) ==> Allowed(t, start, d, c, sha))
    && (forall c :: c in Candidates(d, t.Partial()) && c.Some? ==> c !in Candidates(start, t.dest))
    && (forall k: Inode :: Some(k) in Candidates(start, t.dest) && k in start.nodes && start.nodes[k].synced ==>
          k in d.nodes && d.nodes[k] == start.nodes[k])
  }

  /** What the phase says about the partial. */
  ghost predicate InPhase(t: Target, d: SharedDisk, ph: Phase, sha: Hash) {
    match ph
    case Resting => true
    case Transferring => Current(d, t.Partial()).Some? ==> Current(d, t.Partial()) !in Candidates(d, t.dest)
    case Checked => GoodAt(d, t.Partial(), t.record, sha)
    case Flushed => t.Partial() in d.names && Holds(d, d.names[t.Partial()], t.record, sha)
  }

  ghost predicate Separate(crew: seq<Target>, start: SharedDisk, d: SharedDisk) {
    forall p: nat, q: nat, k: Inode :: p < |crew| && q < |crew| && p != q && Reaches(crew[q], d, k) ==>
      !Reaches(crew[p], d, k) && Some(k) !in Candidates(start, crew[p].dest)
  }

  ghost predicate Inv(crew: seq<Target>, start: SharedDisk, s: State, sha: Hash) {
    && |s.phases| == |crew| && WellFormed(s.disk) && start.nodes.Keys <= s.disk.nodes.Keys && WellFormed(start)
    && Separate(crew, start, s.disk)
    && forall p :: 0 <= p < |crew| ==> Kept(crew[p], start, s.disk, sha) && InPhase(crew[p], s.disk, s.phases[p], sha)
  }

  lemma OwnNames(t: Target)
    ensures t.Owns(t.dest) && t.Owns(t.Partial()) && t.Owns(t.Control())
    ensures t.dest != t.Partial() && t.dest != t.Control() && t.Partial() != t.Control()
  {
    assert t.dest[|t.dest|..] == [] && t.Partial()[|t.dest|..] == ["partial"] && t.Control()[|t.dest|..] == ["partial", "aria2"];
    assert |t.dest| < |t.Partial()| < |t.Control()|;
  }

  // --- what a step cannot do to others ----------------------------------------------------------

  /** A step within the reach of one worker: other names keep every binding, other files every byte,
      and what it can reach afterwards it could reach before, or is new. */
  ghost predicate Confined(t: Target, d: SharedDisk, e: SharedDisk) {
    && WellFormed(e) && d.nodes.Keys <= e.nodes.Keys
    && (forall n :: !t.Owns(n) ==> Candidates(e, n) == Candidates(d, n) && Current(e, n) == Current(d, n))
    && (forall k: Inode :: k in d.nodes && !Reaches(t, d, k) ==> e.nodes[k] == d.nodes[k])
    && (forall n, k: Inode :: t.Owns(n) && Some(k) in Candidates(e, n) ==> k !in d.nodes || Reaches(t, d, k))
  }

  lemma RenameConfined(t: Target, d: SharedDisk, from: Path, to: Path)
    requires WellFormed(d) && t.Owns(from) && t.Owns(to) && from != to && from in d.names
    ensures Confined(t, d, Rename(d, from, to))
  {
    var e := Rename(d, from, to);
    assert Current(d, from) in Candidates(d, from);
    assert forall n :: n != from && n != to ==> Current(e, n) == Current(d, n);
    RenameNames(d, from, to);
    hide Candidates, Rename;
    forall n, k: Inode | t.Owns(n) && Some(k) in Candidates(e, n) ensures Reaches(t, d, k) {
      assert Some(k) in Candidates(d, n) || Some(k) in Candidates(d, from);
    }
  }

  lemma RenameNames(d: SharedDisk, from: Path, to: Path)
    requires WellFormed(d) && from != to && from in d.names
    ensures var e := Rename(d, from, to);
            && e.nodes == d.nodes && WellFormed(e)
            && (forall n :: n != from && n != to ==> Candidates(e, n) == Candidates(d, n))
            && (forall n :: Candidates(e, n) <= Candidates(d, n) + Candidates(d, from) + {None})
  {
    var e := Rename(d, from, to);
    assert Current(d, from) in Candidates(d, from);
    forall n ensures Candidates(e, n) <= Candidates(d, n) + Candidates(d, from) + {None} {
      CandidatesAfterRename(d, from, to, n);
    }
    forall n | n != from && n != to ensures Candidates(e, n) == Candidates(d, n) {
      CandidatesAfterRename(d, from, to, n);
    }
    hide Candidates;
    forall n, c | c in Candidates(e, n) && c.Some? ensures c.value in d.nodes {
      assert c in Candidates(d, n) || c in Candidates(d, from);
    }
  }

  lemma CreateConfined(t: Target, d: SharedDisk, n: Path, inode: Inode)
    requires WellFormed(d) && t.Owns(n) && inode !in d.nodes
    ensures Confined(t, d, Create(d, n, inode))
  {
    var e := Create(d, n, inode);
    CandidatesAfterCreate(d, n, inode);
    CreateIsWellFormed(d, n, inode);
    hide Candidates;
    forall m, k: Inode | t.Owns(m) && Some(k) in Candidates(e, m) ensures k !in d.nodes || Reaches(t, d, k) {
      assert Some(k) in Candidates(d, m) || k == inode;
    }
  }

  lemma UnlinkConfined(t: Target, d: SharedDisk, n: Path)
    requires WellFormed(d) && t.Owns(n)
    ensures Confined(t, d, Unlink(d, n))
  {
    var e := Unlink(d, n);
    assert forall m :: m != n ==> Current(e, m) == Current(d, m);
    forall m ensures Candidates(e, m) == Candidates(d, m) + if m == n then {None} else {} {
    }
    hide Candidates, Unlink;
    forall m, k: Inode | t.Owns(m) && Some(k) in Candidates(e, m) ensures Reaches(t, d, k) {
      assert Some(k) in Candidates(d, m);
    }
  }

  lemma FileConfined(t: Target, d: SharedDisk, e: SharedDisk, n: Path)
    requires WellFormed(d) && t.Owns(n) && Exists(d, n)
    requires e.names == d.names && e.earlier == d.earlier && e.nodes.Keys == d.nodes.Keys
    requires forall k: Inode :: k in d.nodes && k != d.names[n] ==> e.nodes[k] == d.nodes[k]
    ensures Confined(t, d, e)
  {
    assert Current(d, n) in Candidates(d, n);
    forall m ensures Candidates(e, m) == Candidates(d, m) && Current(e, m) == Current(d, m) {
    }
    hide Candidates;
  }

  lemma OwnStepConfined(t: Target, d: SharedDisk, ph: Phase, e: SharedDisk, next: Phase, l: Label, sha: Hash)
    requires WellFormed(d) && OwnStep(t, d, ph, e, next, l, sha)
    ensures Confined(t, d, e)
  {
    OwnNames(t);
    hide Confined, WellFormed, GoodAt;
    match l {
      case Arrive(_, n, inode) => CreateConfined(t, d, n, inode);
      case Fill(_, _) => FileConfined(t, d, e, t.Partial());
      case Drop(_) => UnlinkConfined(t, d, t.Control());
      case Flush(_) => FileConfined(t, d, e, t.Partial());
      case Promote(_) => RenameConfined(t, d, t.Partial(), t.dest);
      case SetAside(_, from, to) => RenameConfined(t, d, from, to);
      case _ => NothingConfined(t, d);
    }
  }

  lemma NothingConfined(t: Target, d: SharedDisk)
    requires WellFormed(d)
    ensures Confined(t, d, d)
  {
  }

  // --- every step keeps every promise -----------------------------------------------------------

  lemma ReachStays(t: Target, d: SharedDisk, e: SharedDisk)
    requires forall n :: t.Owns(n) ==> Candidates(e, n) <= Candidates(d, n)
    ensures forall k: Inode :: Reaches(t, e, k) ==> Reaches(t, d, k)
  {
    hide Candidates;
    forall k: Inode | Reaches(t, e, k) ensures Reaches(t, d, k) {
      var n :| t.Owns(n) && Some(k) in Candidates(e, n);
      assert Some(k) in Candidates(d, n);
    }
  }

  lemma OwnReach(t: Target, d: SharedDisk, e: SharedDisk, k: Inode)
    requires Confined(t, d, e) && Reaches(t, e, k)
    ensures k !in d.nodes || Reaches(t, d, k)
  {
    var n :| t.Owns(n) && Some(k) in Candidates(e, n);
  }

  /** Another worker's file keeps its bytes, and its promise and phase with it. */
  lemma OthersKeep(t: Target, u: Target, start: SharedDisk, d: SharedDisk, e: SharedDisk, ph: Phase, sha: Hash)
    requires Confined(t, d, e) && WellFormed(d) && WellFormed(start) && start.nodes.Keys <= d.nodes.Keys
    requires forall n :: !(t.Owns(n) && u.Owns(n))
    requires forall k: Inode :: Reaches(t, d, k) ==> !Reaches(u, d, k) && Some(k) !in Candidates(start, u.dest)
    requires Kept(u, start, d, sha) && InPhase(u, d, ph, sha)
    ensures Kept(u, start, e, sha) && InPhase(u, e, ph, sha)
    ensures forall k: Inode :: Reaches(u, e, k) ==> Reaches(u, d, k)
  {
    OwnNames(u);
    assert forall n :: u.Owns(n) ==> Candidates(e, n) == Candidates(d, n) && Current(e, n) == Current(d, n);
    ReachStays(u, d, e);
    forall k: Inode | Reaches(u, d, k) ensures k in d.nodes && e.nodes[k] == d.nodes[k] {
      assert k in d.nodes by {
        var n :| u.Owns(n) && Some(k) in Candidates(d, n);
      }
      assert !Reaches(t, d, k);
    }
    KeptWithBytes(u, start, d, e, sha);
    PhaseWithBytes(u, d, e, ph, sha);
  }

  lemma KeptWithBytes(u: Target, start: SharedDisk, d: SharedDisk, e: SharedDisk, sha: Hash)
    requires Kept(u, start, d, sha) && u.Owns(u.dest) && u.Owns(u.Partial())
    requires forall n :: u.Owns(n) ==> Candidates(e, n) == Candidates(d, n)
    requires forall k: Inode :: Reaches(u, d, k) ==> k in d.nodes && k in e.nodes && e.nodes[k] == d.nodes[k]
    requires forall k: Inode :: Some(k) in Candidates(start, u.dest) && k in d.nodes ==> k in e.nodes && e.nodes[k] == d.nodes[k]
    ensures Kept(u, start, e, sha)
  {
    hide Candidates, Matches;
    forall c | c in Candidates(e, u.dest) ensures Allowed(u, start, e, c, sha) {
      assert Allowed(u, start, d, c, sha);
      if c.Some? {
        assert Some(c.value) in Candidates(d, u.dest);
        assert Reaches(u, d, c.value);
      }
    }
  }

  lemma PhaseWithBytes(u: Target, d: SharedDisk, e: SharedDisk, ph: Phase, sha: Hash)
    requires InPhase(u, d, ph, sha) && u.Owns(u.dest) && u.Owns(u.Partial())
    requires forall n :: u.Owns(n) ==> Candidates(e, n) == Candidates(d, n) && Current(e, n) == Current(d, n)
    requires forall k: Inode :: Reaches(u, d, k) ==> k in d.nodes && k in e.nodes && e.nodes[k] == d.nodes[k]
    ensures InPhase(u, e, ph, sha)
  {
    var c := Current(d, u.Partial());
    assert c in Candidates(d, u.Partial());
    assert c == Current(e, u.Partial());
    hide Candidates, Matches;
    if c.Some? {
      assert Some(c.value) in Candidates(d, u.Partial());
      assert Reaches(u, d, c.value);
    }
  }

  /** Bindings that only go away, or come from nowhere, and no byte of a file in reach changed. */
  lemma FewerNames(t: Target, start: SharedDisk, d: SharedDisk, e: SharedDisk, sha: Hash)
    requires Kept(t, start, d, sha) && e.nodes == d.nodes
    requires Candidates(e, t.dest) <= Candidates(d, t.dest) + {None}
    requires Candidates(e, t.Partial()) <= Candidates(d, t.Partial()) + {None}
    ensures Kept(t, start, e, sha)
  {
    hide Candidates, Matches;
    forall c | c in Candidates(e, t.dest) ensures Allowed(t, start, e, c, sha) {
      assert c.None? || Allowed(t, start, d, c, sha);
    }
  }

  lemma BeginKeeps(t: Target, start: SharedDisk, d: SharedDisk, sha: Hash)
    requires Kept(t, start, d, sha) && WellFormed(d) && !GoodAt(d, t.Partial(), t.record, sha)
    ensures InPhase(t, d, Transferring, sha)
  {
    var c := Current(d, t.Partial());
    assert c in Candidates(d, t.Partial());
    assert c in Candidates(d, t.dest) ==> Allowed(t, start, d, c, sha);
  }

  lemma ArriveKeeps(t: Target, start: SharedDisk, d: SharedDisk, n: Path, inode: Inode, sha: Hash)
    requires Kept(t, start, d, sha) && InPhase(t, d, Transferring, sha)
    requires WellFormed(d) && WellFormed(start) && start.nodes.Keys <= d.nodes.Keys
    requires inode !in d.nodes && (n == t.Partial() || n == t.Control())
    ensures Kept(t, start, Create(d, n, inode), sha) && InPhase(t, Create(d, n, inode), Transferring, sha)
  {
    OwnNames(t);
    var e := Create(d, n, inode);
    assert forall c :: c in Candidates(d, t.dest) && c.Some? ==> c.value in d.nodes;
    assert forall c :: c in Candidates(start, t.dest) && c.Some? ==> c.value in start.nodes;
    CandidatesAfterCreate(d, n, inode);
    assert Current(e, t.Partial()) == if n == t.Partial() then Some(inode) else Current(d, t.Partial());
    hide Candidates, WellFormed, Create;
    NewFileKeeps(t, start, d, e, inode, sha);
  }

  /** A new file, not under the destination's name. */
  lemma NewFileKeeps(t: Target, start: SharedDisk, d: SharedDisk, e: SharedDisk, inode: Inode, sha: Hash)
    requires Kept(t, start, d, sha) && inode !in d.nodes && e.nodes == d.nodes[inode := Node([], false)]
    requires Candidates(e, t.dest) == Candidates(d, t.dest)
    requires Candidates(e, t.Partial()) <= Candidates(d, t.Partial()) + {Some(inode)}
    requires forall c :: c in Candidates(d, t.dest) && c.Some? ==> c.value in d.nodes
    requires Some(inode) !in Candidates(start, t.dest)
    ensures Kept(t, start, e, sha)
  {
    hide Candidates, Matches;
    forall c | c in Candidates(e, t.dest) ensures Allowed(t, start, e, c, sha) {
      assert Allowed(t, start, d, c, sha);
    }
  }

  lemma FillKeeps(t: Target, start: SharedDisk, d: SharedDisk, content: Bytes, sha: Hash)
    requires Kept(t, start, d, sha) && InPhase(t, d, Transferring, sha) && Exists(d, t.Partial())
    ensures Kept(t, start, Write(d, t.Partial(), content), sha) && InPhase(t, Write(d, t.Partial(), content), Transferring, sha)
  {
    var e, k := Write(d, t.Partial(), content), d.names[t.Partial()];
    assert Current(d, t.Partial()) in Candidates(d, t.Partial());
    forall m ensures Candidates(e, m) == Candidates(d, m) && Current(e, m) == Current(d, m) {
    }
    hide Candidates, Matches;
    forall c | c in Candidates(e, t.dest) ensures Allowed(t, start, e, c, sha) {
      assert Allowed(t, start, d, c, sha) && c != Some(k);
    }
  }

  lemma FlushKeeps(t: Target, start: SharedDisk, d: SharedDisk, sha: Hash)
    requires Kept(t, start, d, sha) && InPhase(t, d, Checked, sha)
    ensures Kept(t, start, Fsync(d, t.Partial()), sha) && InPhase(t, Fsync(d, t.Partial()), Flushed, sha)
  {
    var e, k := Fsync(d, t.Partial()), d.names[t.Partial()];
    assert Current(d, t.Partial()) in Candidates(d, t.Partial());
    forall m ensures Candidates(e, m) == Candidates(d, m) && Current(e, m) == Current(d, m) {
    }
    hide Candidates, Matches;
    forall c | c in Candidates(e, t.dest) ensures Allowed(t, start, e, c, sha) {
      assert Allowed(t, start, d, c, sha);
    }
  }

  lemma PromoteKeeps(t: Target, start: SharedDisk, d: SharedDisk, sha: Hash)
    requires Kept(t, start, d, sha) && InPhase(t, d, Flushed, sha) && t.Partial() != t.dest
    ensures Kept(t, start, Rename(d, t.Partial(), t.dest), sha)
  {
    var e := Rename(d, t.Partial(), t.dest);
    assert Candidates(e, t.dest) == Candidates(d, t.dest) + {Some(d.names[t.Partial()])};
    assert Candidates(e, t.Partial()) == Candidates(d, t.Partial()) + {None};
    hide Candidates, Matches;
    forall c | c in Candidates(e, t.dest) ensures Allowed(t, start, e, c, sha) {
      assert c in Candidates(d, t.dest) ==> Allowed(t, start, d, c, sha);
    }
  }

  lemma SetAsideKeeps(t: Target, start: SharedDisk, d: SharedDisk, from: Path, to: Path, sha: Hash)
    requires Kept(t, start, d, sha) && from in d.names && from != to && to != t.dest && to != t.Partial()
    ensures Kept(t, start, Rename(d, from, to), sha)
  {
    FewerNames(t, start, d, Rename(d, from, to), sha);
  }

  lemma DropKeeps(t: Target, start: SharedDisk, d: SharedDisk, sha: Hash)
    requires Kept(t, start, d, sha) && InPhase(t, d, Transferring, sha)
    ensures Kept(t, start, Unlink(d, t.Control()), sha) && InPhase(t, Unlink(d, t.Control()), Transferring, sha)
  {
    OwnNames(t);
    var e := Unlink(d, t.Control());
    FewerNames(t, start, d, e, sha);
    assert Current(e, t.Partial()) == Current(d, t.Partial()) && Candidates(e, t.dest) == Candidates(d, t.dest);
  }

  lemma OwnKeeps(t: Target, start: SharedDisk, d: SharedDisk, ph: Phase, e: SharedDisk, next: Phase, l: Label, sha: Hash)
    requires OwnStep(t, d, ph, e, next, l, sha) && Kept(t, start, d, sha) && InPhase(t, d, ph, sha)
    requires WellFormed(d) && WellFormed(start) && start.nodes.Keys <= d.nodes.Keys
    ensures Kept(t, start, e, sha) && InPhase(t, e, next, sha)
  {
    OwnNames(t);
    hide Kept, GoodAt, WellFormed;
    match l {
      case Begin(_) => BeginKeeps(t, start, d, sha);
      case Arrive(_, n, inode) => ArriveKeeps(t, start, d, n, inode, sha);
      case Fill(_, content) => FillKeeps(t, start, d, content, sha);
      case Drop(_) => DropKeeps(t, start, d, sha);
      case Flush(_) => FlushKeeps(t, start, d, sha);
      case Promote(_) => PromoteKeeps(t, start, d, sha);
      case SetAside(_, from, to) => SetAsideKeeps(t, start, d, from, to, sha);
      case _ =>
    }
  }

  // --- the whole crew -----------------------------------------------------------------------------

  lemma ReadyIsInv(crew: seq<Target>, s: State, sha: Hash)
    requires Ready(crew, s)
    ensures Inv(crew, s.disk, s, sha)
  {
    hide Candidates;
    forall p | 0 <= p < |crew| ensures crew[p].Owns(crew[p].dest) {
      OwnNames(crew[p]);
    }
    forall p: nat, k: Inode | p < |crew| && Some(k) in Candidates(s.disk, crew[p].dest) ensures Reaches(crew[p], s.disk, k) && k in s.disk.nodes {
      assert crew[p].Owns(crew[p].dest);
    }
    forall p | 0 <= p < |crew| ensures Kept(crew[p], s.disk, s.disk, sha) {
      forall c | c in Candidates(s.disk, crew[p].dest) ensures Allowed(crew[p], s.disk, s.disk, c, sha) {
        assert c.Some? ==> Some(c.value) in Candidates(s.disk, crew[p].dest);
      }
    }
  }

  lemma WorkerKeeps(crew: seq<Target>, start: SharedDisk, s: State, t: State, l: Label, sha: Hash)
    requires Apart(crew) && Inv(crew, start, s, sha) && Next(crew, s, t, l, sha) && !l.Settle? && !l.PowerLoss?
    ensures Inv(crew, start, t, sha)
  {
    var p, d, e := l.p, s.disk, t.disk;
    OwnStepConfined(crew[p], d, s.phases[p], e, t.phases[p], l, sha);
    OwnKeeps(crew[p], start, d, s.phases[p], e, t.phases[p], l, sha);
    hide OwnStep, Kept, InPhase, Candidates, Reaches;
    forall q | 0 <= q < |crew| && q != p
      ensures Kept(crew[q], start, e, sha) && InPhase(crew[q], e, t.phases[q], sha)
      ensures forall k: Inode :: Reaches(crew[q], e, k) ==> Reaches(crew[q], d, k)
    {
      assert forall n :: !(crew[p].Owns(n) && crew[q].Owns(n));
      OthersKeep(crew[p], crew[q], start, d, e, s.phases[q], sha);
    }
    SeparateKeeps(crew, start, d, e, p);
  }

  lemma SeparateKeeps(crew: seq<Target>, start: SharedDisk, d: SharedDisk, e: SharedDisk, p: nat)
    requires p < |crew| && Separate(crew, start, d) && Confined(crew[p], d, e) && WellFormed(d) && WellFormed(start)
    requires start.nodes.Keys <= d.nodes.Keys
    requires forall q: nat, k: Inode :: q < |crew| && q != p && Reaches(crew[q], e, k) ==> Reaches(crew[q], d, k)
    ensures Separate(crew, start, e)
  {
    forall q: nat, k: Inode | q < |crew| && Reaches(crew[q], d, k) ensures k in d.nodes {
      var n :| crew[q].Owns(n) && Some(k) in Candidates(d, n);
    }
    forall n, k: Inode | Some(k) in Candidates(start, n) ensures k in d.nodes {
    }
    forall k: Inode | Reaches(crew[p], e, k) ensures k !in d.nodes || Reaches(crew[p], d, k) {
      OwnReach(crew[p], d, e, k);
    }
    hide Candidates, Reaches, Confined;
  }

  lemma SettledCandidates(d: SharedDisk, names: set<Path>)
    ensures forall n :: Candidates(Settled(d, names), n) <= Candidates(d, n) && Current(Settled(d, names), n) == Current(d, n)
    ensures Settled(d, names).nodes == d.nodes
  {
  }

  lemma SettleKeeps(crew: seq<Target>, start: SharedDisk, s: State, names: set<Path>, sha: Hash)
    requires Inv(crew, start, s, sha)
    ensures Inv(crew, start, State(Settled(s.disk, names), s.phases), sha)
  {
    var d, e := s.disk, Settled(s.disk, names);
    SettledCandidates(d, names);
    hide Candidates, Settled, Matches;
    forall p | 0 <= p < |crew|
      ensures Kept(crew[p], start, e, sha) && InPhase(crew[p], e, s.phases[p], sha)
      ensures forall k: Inode :: Reaches(crew[p], e, k) ==> Reaches(crew[p], d, k)
    {
      FewerNames(crew[p], start, d, e, sha);
      ReachStays(crew[p], d, e);
      assert Current(e, crew[p].Partial()) == Current(d, crew[p].Partial());
    }
  }

  lemma PowerLossKeeps(crew: seq<Target>, start: SharedDisk, s: State, after: SharedDisk, sha: Hash)
    requires Inv(crew, start, s, sha) && Recovers(s.disk, after)
    ensures Inv(crew, start, State(after, seq(|crew|, _ => Resting)), sha)
  {
    var d := s.disk;
    forall n ensures Candidates(after, n) == {Current(after, n)} && Current(after, n) in Candidates(d, n) {
    }
    hide Candidates, Matches;
    forall p | 0 <= p < |crew|
      ensures Kept(crew[p], start, after, sha)
      ensures forall k: Inode :: Reaches(crew[p], after, k) ==> Reaches(crew[p], d, k)
    {
      ReachStays(crew[p], d, after);
      RecoveredKept(crew[p], start, d, after, sha);
    }
  }

  lemma RecoveredKept(t: Target, start: SharedDisk, d: SharedDisk, after: SharedDisk, sha: Hash)
    requires Kept(t, start, d, sha) && Recovers(d, after)
    requires Candidates(after, t.dest) <= Candidates(d, t.dest) && Candidates(after, t.Partial()) <= Candidates(d, t.Partial())
    ensures Kept(t, start, after, sha)
  {
    hide Candidates, Matches;
    forall k | k in d.nodes && d.nodes[k].synced ensures after.nodes[k] == d.nodes[k] {
      assert after.nodes[k].synced;
    }
    forall c | c in Candidates(after, t.dest) ensures Allowed(t, start, after, c, sha) {
      assert Allowed(t, start, d, c, sha);
    }
  }

  lemma InvKept(crew: seq<Target>, start: SharedDisk, s: State, t: State, l: Label, sha: Hash)
    requires Apart(crew) && Inv(crew, start, s, sha) && Next(crew, s, t, l, sha)
    ensures Inv(crew, start, t, sha)
  {
    match l {
      case Settle(names) => SettleKeeps(crew, start, s, names, sha);
      case PowerLoss(after) => PowerLossKeeps(crew, start, s, after, sha);
      case _ => WorkerKeeps(crew, start, s, t, l, sha);
    }
  }

  /** Over every interleaving of any number of workers whose names are apart, with power losses
      anywhere: whatever one more power loss would leave at a destination is nothing, what stood
      there at the start, or the recorded bytes of that very file. */
  lemma {:induction false} EveryRunKeepsEveryPromise(crew: seq<Target>, states: seq<State>, labels: seq<Label>, j: nat, sha: Hash)
    requires Apart(crew) && Run(crew, states, labels, sha) && j < |states|
    ensures Inv(crew, states[0].disk, states[j], sha)
    ensures forall p: nat, after: SharedDisk :: p < |crew| && Recovers(states[j].disk, after) && Exists(after, crew[p].dest) ==>
              Stood(crew[p], states[0].disk, after, after.names[crew[p].dest]) || GoodAt(after, crew[p].dest, crew[p].record, sha)
  {
    var start := states[0].disk;
    hide Next, Apart, Ready;
    if j > 0 {
      EveryRunKeepsEveryPromise(crew, states, labels, j - 1, sha);
      InvKept(crew, start, states[j - 1], states[j], labels[j - 1], sha);
    } else {
      ReadyIsInv(crew, states[0], sha);
    }
    forall p: nat, after: SharedDisk | p < |crew| && Recovers(states[j].disk, after) && Exists(after, crew[p].dest)
      ensures Stood(crew[p], start, after, after.names[crew[p].dest]) || GoodAt(after, crew[p].dest, crew[p].record, sha)
    {
      PowerLossKeeps(crew, start, states[j], after, sha);
      assert Current(after, crew[p].dest) in Candidates(after, crew[p].dest);
      assert Allowed(crew[p], start, after, Current(after, crew[p].dest), sha);
    }
  }

  /** Once the recorded bytes are safe at a destination nothing takes them away: not the other
      workers, not the worker itself, which never sets a valid destination aside, and not a power
      loss. */
  lemma DurableStays(crew: seq<Target>, start: SharedDisk, s: State, t: State, l: Label, p: nat, sha: Hash)
    requires Apart(crew) && Inv(crew, start, s, sha) && Next(crew, s, t, l, sha) && p < |crew|
    requires DurablyHolds(s.disk, crew[p].dest, crew[p].record, sha)
    ensures DurablyHolds(t.disk, crew[p].dest, crew[p].record, sha)
  {
    var u, d, e := crew[p], s.disk, t.disk;
    OwnNames(u);
    hide OwnStep, Kept, InPhase, Recovers, WellFormed, Reaches, Candidates;
    match l {
      case Settle(names) => DurableSettled(u, d, names, sha);
      case PowerLoss(after) => DurableAfterLoss(u, d, after, sha);
      case _ =>
        if l.p == p {
          OwnStepDurable(u, start, d, s.phases[p], e, t.phases[p], l, sha);
        } else {
          OwnStepConfined(crew[l.p], d, s.phases[l.p], e, t.phases[l.p], l, sha);
          OthersDurable(crew[l.p], u, d, e, sha);
        }
    }
  }

  lemma DurableSettled(u: Target, d: SharedDisk, names: set<Path>, sha: Hash)
    requires DurablyHolds(d, u.dest, u.record, sha)
    ensures DurablyHolds(Settled(d, names), u.dest, u.record, sha)
  {
    SettledCandidates(d, names);
    hide Candidates, Settled, Matches;
  }

  lemma DurableAfterLoss(u: Target, d: SharedDisk, after: SharedDisk, sha: Hash)
    requires DurablyHolds(d, u.dest, u.record, sha) && Recovers(d, after)
    ensures DurablyHolds(after, u.dest, u.record, sha)
  {
    assert Candidates(after, u.dest) == {Current(after, u.dest)} && Current(after, u.dest) in Candidates(d, u.dest);
    hide Candidates, Matches;
  }

  lemma OthersDurable(t: Target, u: Target, d: SharedDisk, e: SharedDisk, sha: Hash)
    requires Confined(t, d, e) && u.Owns(u.dest) && !t.Owns(u.dest)
    requires forall k: Inode :: Reaches(u, d, k) ==> !Reaches(t, d, k)
    requires DurablyHolds(d, u.dest, u.record, sha)
    ensures DurablyHolds(e, u.dest, u.record, sha)
  {
    hide Candidates, Matches;
    forall c | c in Candidates(e, u.dest) ensures c.Some? && Holds(e, c.value, u.record, sha) {
      assert c in Candidates(d, u.dest);
      assert Some(c.value) in Candidates(d, u.dest);
      assert Reaches(u, d, c.value);
    }
  }

  lemma OwnStepDurable(u: Target, start: SharedDisk, d: SharedDisk, ph: Phase, e: SharedDisk, next: Phase, l: Label, sha: Hash)
    requires OwnStep(u, d, ph, e, next, l, sha) && InPhase(u, d, ph, sha) && WellFormed(d)
    requires DurablyHolds(d, u.dest, u.record, sha)
    ensures DurablyHolds(e, u.dest, u.record, sha)
  {
    OwnNames(u);
    var c := Current(d, u.dest);
    assert c in Candidates(d, u.dest) && c.Some? && Holds(d, c.value, u.record, sha);
    assert GoodAt(d, u.dest, u.record, sha);
    var names := Candidates(d, u.dest);
    match l {
      case Arrive(_, n, inode) =>
        CandidatesAfterCreate(d, n, inode);
      case Promote(_) =>
        assert Candidates(e, u.dest) == names + {Some(d.names[u.Partial()])};
      case _ =>
        assert Candidates(e, u.dest) == names;
    }
  }

  lemma {:induction false} OnceDurableAlwaysDurable(crew: seq<Target>, states: seq<State>, labels: seq<Label>, p: nat, i: nat, j: nat, sha: Hash)
    requires Apart(crew) && Run(crew, states, labels, sha) && p < |crew| && i <= j < |states|
    requires DurablyHolds(states[i].disk, crew[p].dest, crew[p].record, sha)
    ensures DurablyHolds(states[j].disk, crew[p].dest, crew[p].record, sha)
    ensures GoodAt(states[j].disk, crew[p].dest, crew[p].record, sha)
  {
    hide Next, Inv, Recovers, Apart, Ready;
    if i < j {
      OnceDurableAlwaysDurable(crew, states, labels, p, i, j - 1, sha);
      EveryRunKeepsEveryPromise(crew, states, labels, j - 1, sha);
      DurableStays(crew, states[0].disk, states[j - 1], states[j], labels[j - 1], p, sha);
    }
    assert Current(states[j].disk, crew[p].dest) in Candidates(states[j].disk, crew[p].dest);
  }

  // --- when the names are apart, and what happens when they are not ---------------------------------

  /** A check on the destinations alone. */
  lemma ApartIff(crew: seq<Target>)
    ensures Apart(crew) <==> forall p, q :: 0 <= p < q < |crew| ==> !crew[p].Owns(crew[q].dest) && !crew[q].Owns(crew[p].dest)
  {
    forall p, q | 0 <= p < q < |crew|
      ensures (exists n :: crew[p].Owns(n) && crew[q].Owns(n)) <==> crew[p].Owns(crew[q].dest) || crew[q].Owns(crew[p].dest)
    {
      Queue.WritesOverlapIff(crew[p].dest, crew[q].dest);
    }
    if Apart(crew) {
      forall p, q | 0 <= p < q < |crew| ensures !crew[p].Owns(crew[q].dest) && !crew[q].Owns(crew[p].dest) {
        OwnNames(crew[p]);
        OwnNames(crew[q]);
      }
    }
  }

  const MINE: Path := ["m", "partial"]
  const THEIRS: Path := ["m", "partial", "partial"]
  const BAD: Path := ["m", "partial", "bad-1"]

  function First(a: Bytes, sha: Hash): Target { Target(["m"], Record(|a|, Some(sha(a)))) }

  function Second(b: Bytes, sha: Hash): Target { Target(MINE, Record(|b|, Some(sha(b)))) }

  lemma TheirNames(a: Bytes, b: Bytes, sha: Hash)
    ensures First(a, sha).Partial() == MINE && Second(b, sha).Partial() == THEIRS
    ensures Second(b, sha).Owns(BAD) && BAD != Second(b, sha).dest && BAD != THEIRS && BAD != Second(b, sha).Control()
    ensures MINE != THEIRS && MINE != BAD && ["m"] != MINE && ["m"] != THEIRS && ["m"] != BAD
  {
    assert BAD[|MINE|..] == ["bad-1"] && "bad-1"[..4] == "bad-";
    assert |THEIRS[2]| == 7 && |BAD[2]| == 5 && |MINE| == 2;
    assert |Second(b, sha).Control()| == 4;
  }

  /** The disk in the course of the story below. */
  function Story(k: nat, a: Bytes, b: Bytes): SharedDisk {
    match k
    case 0 => Disk(map[1 := Node(a, true), 2 := Node(b, true)], map[MINE := 1, THEIRS := 2], map[])
    case 1 => Story(0, a, b)
    case 2 => Story(0, a, b)
    case 3 => Rename(Story(0, a, b), MINE, BAD)
    case 4 => Story(3, a, b)
    case 5 => Story(3, a, b)
    case 6 => Rename(Rename(Story(0, a, b), MINE, BAD), THEIRS, MINE)
    case _ => Rename(Rename(Rename(Story(0, a, b), MINE, BAD), THEIRS, MINE), MINE, ["m"])
  }

  const PHASES: seq<seq<Phase>> :=
    [[Resting, Resting], [Checked, Resting], [Flushed, Resting], [Flushed, Resting],
     [Flushed, Checked], [Flushed, Flushed], [Flushed, Resting], [Resting, Resting]]

  const ACTS: seq<Label> := [Check(0), Flush(0), SetAside(1, MINE, BAD), Check(1), Flush(1), Promote(1), Promote(0)]

  /** A queue that lists a file and that file's `.partial` passes the uniqueness check of the
      destinations. Here both downloads have their bytes complete from an earlier boot. The first
      checks and flushes its partial; the second finds that file at its own destination, not valid
      there, sets it aside and promotes its own bytes in its place; and then the first promotes
      what it has checked. At its destination are the bytes of the other file. */
  lemma OverlapBreaksThePromise(a: Bytes, b: Bytes, sha: Hash) returns (crew: seq<Target>, states: seq<State>)
    requires sha(a) != sha(b)
    ensures crew == [First(a, sha), Second(b, sha)] && First(a, sha).Owns(Second(b, sha).dest)
    ensures |states| == |ACTS| + 1 && forall j :: 0 <= j < |ACTS| ==> Next(crew, states[j], states[j + 1], ACTS[j], sha)
    ensures states[0] == State(Story(0, a, b), [Resting, Resting])
    ensures var end := states[|ACTS|].disk; Exists(end, ["m"]) && Content(end, ["m"]) == b && !Matches(b, crew[0].record, sha)
  {
    crew := [First(a, sha), Second(b, sha)];
    states := seq(8, k requires 0 <= k < 8 => State(Story(k, a, b), PHASES[k]));
    TheirNames(a, b, sha);
    OwnNames(First(a, sha));
    FirstActs(a, b, sha);
    SecondSetsAside(a, b, sha);
    SecondChecks(a, b, sha);
    SecondFlushes(a, b, sha);
    SecondPromotes(a, b, sha);
    FirstPromotes(a, b, sha);
    hide Next, Story;
  }

  ghost predicate Acts(k: nat, a: Bytes, b: Bytes, sha: Hash)
    requires k < 7
  {
    Next([First(a, sha), Second(b, sha)], State(Story(k, a, b), PHASES[k]), State(Story(k + 1, a, b), PHASES[k + 1]), ACTS[k], sha)
  }

  lemma StoryBytes(a: Bytes, b: Bytes)
    requires MINE != THEIRS && MINE != BAD && BAD != THEIRS
    ensures forall k :: Story(k, a, b).nodes == map[1 := Node(a, true), 2 := Node(b, true)]
    ensures Story(3, a, b).names == map[BAD := 1, THEIRS := 2]
  {
    hide MINE, THEIRS, BAD;
    var d := Story(0, a, b);
    assert Story(3, a, b) == Rename(d, MINE, BAD);
    assert d.nodes == map[1 := Node(a, true), 2 := Node(b, true)];
    forall k ensures Story(k, a, b).nodes == d.nodes {
      match k {
        case 3 => case 6 => case _ =>
      }
    }
  }

  lemma StoryNames(a: Bytes, b: Bytes)
    requires MINE != THEIRS && MINE != BAD && BAD != THEIRS && ["m"] != THEIRS && ["m"] != MINE && ["m"] != BAD
    ensures Story(6, a, b).names == map[BAD := 1, MINE := 2]
    ensures Story(7, a, b).names == map[BAD := 1, ["m"] := 2]
  {
    StoryBytes(a, b);
    hide MINE, THEIRS, BAD;
    var d := Story(3, a, b);
    assert Story(6, a, b) == Rename(d, THEIRS, MINE);
    assert Story(7, a, b) == Rename(Story(6, a, b), MINE, ["m"]);
    hide Story;
  }

  lemma FirstActs(a: Bytes, b: Bytes, sha: Hash)
    ensures Acts(0, a, b, sha) && Acts(1, a, b, sha)
  {
    TheirNames(a, b, sha);
    hide MINE, THEIRS, BAD;
    var d := Story(0, a, b);
    assert Fsync(d, MINE).nodes == d.nodes;
  }

  lemma SecondSetsAside(a: Bytes, b: Bytes, sha: Hash)
    requires sha(a) != sha(b)
    ensures Acts(2, a, b, sha)
  {
    TheirNames(a, b, sha);
    hide MINE, THEIRS, BAD, Queue.Touches;
    assert !GoodAt(Story(0, a, b), MINE, Second(b, sha).record, sha);
  }

  lemma SecondChecks(a: Bytes, b: Bytes, sha: Hash)
    ensures Acts(3, a, b, sha)
  {
    TheirNames(a, b, sha);
    StoryBytes(a, b);
    hide MINE, THEIRS, BAD;
  }

  lemma SecondFlushes(a: Bytes, b: Bytes, sha: Hash)
    ensures Acts(4, a, b, sha)
  {
    TheirNames(a, b, sha);
    StoryBytes(a, b);
    hide MINE, THEIRS, BAD;
    var d := Story(3, a, b);
    assert Fsync(d, THEIRS).nodes == d.nodes;
  }

  lemma SecondPromotes(a: Bytes, b: Bytes, sha: Hash)
    ensures Acts(5, a, b, sha)
  {
    TheirNames(a, b, sha);
    StoryBytes(a, b);
    hide MINE, THEIRS, BAD;
  }

  lemma FirstPromotes(a: Bytes, b: Bytes, sha: Hash)
    ensures Acts(6, a, b, sha)
    ensures Exists(Story(7, a, b), ["m"]) && Content(Story(7, a, b), ["m"]) == b
  {
    TheirNames(a, b, sha);
    StoryBytes(a, b);
    StoryNames(a, b);
    OwnNames(First(a, sha));
    hide MINE, THEIRS, BAD;
  }
}

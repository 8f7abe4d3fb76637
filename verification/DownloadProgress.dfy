/** That the workers of a queue can get anywhere: `DownloadCrew` says what they never do wrong
    (verification/local-coverage-foundation/download_queue.py). */
module DownloadProgress {
  import opened Common
  import opened Artifact
  import opened CrashDisk
  import opened DownloadCrew

  /** A stretch of a run in which one worker acts, and names may settle. */
  ghost predicate Alone(crew: seq<Target>, states: seq<State>, labels: seq<Label>, p: nat, sha: Hash) {
    && |states| == |labels| + 1
    && forall j :: 0 <= j < |labels| ==>
         (labels[j].Settle? || (!labels[j].PowerLoss? && labels[j].p == p)) && Next(crew, states[j], states[j + 1], labels[j], sha)
  }

  ghost predicate Leads(crew: seq<Target>, s: State, t: State, p: nat, sha: Hash) {
    exists states, labels :: Alone(crew, states, labels, p, sha) && states[0] == s && states[|labels|] == t
  }

  lemma LeadsToItself(crew: seq<Target>, s: State, p: nat, sha: Hash)
    ensures Leads(crew, s, s, p, sha)
  {
    var states, labels: seq<Label> := [s], [];
    assert Alone(crew, states, labels, p, sha);
  }

  lemma LeadsOn(crew: seq<Target>, s: State, t: State, u: State, l: Label, p: nat, sha: Hash)
    requires Leads(crew, s, t, p, sha) && Next(crew, t, u, l, sha)
    requires l.Settle? || (!l.PowerLoss? && l.p == p)
    ensures Leads(crew, s, u, p, sha)
  {
    hide Next;
    var states, labels :| Alone(crew, states, labels, p, sha) && states[0] == s && states[|labels|] == t;
    assert Alone(crew, states + [u], labels + [l], p, sha);
    assert (states + [u])[0] == s && (states + [u])[|labels + [l]|] == u;
  }

  function Moved(s: State, p: nat, d: SharedDisk, ph: Phase): State
    requires p < |s.phases|
  {
    State(d, s.phases[p := ph])
  }

  lemma Steps(crew: seq<Target>, s: State, t: State, p: nat, e: SharedDisk, next: Phase, l: Label, sha: Hash)
    requires p < |crew| == |t.phases| && Leads(crew, s, t, p, sha)
    requires !l.Settle? && !l.PowerLoss? && l.p == p && OwnStep(crew[p], t.disk, t.phases[p], e, next, l, sha)
    ensures Leads(crew, s, Moved(t, p, e, next), p, sha)
  {
    hide OwnStep, Leads;
    LeadsOn(crew, s, t, Moved(t, p, e, next), l, p, sha);
  }

  lemma SomeInode(d: SharedDisk) returns (k: Inode)
    ensures k !in d.nodes
  {
    k := Above(d.nodes.Keys);
  }

  lemma {:induction false} Above(s: set<nat>) returns (b: nat)
    ensures forall x :: x in s ==> x < b
  {
    if s == {} {
      b := 0;
    } else {
      var x :| x in s;
      var c := Above(s - {x});
      b := if c > x then c else x + 1;
      assert s == (s - {x}) + {x};
    }
  }

  /** A worker at rest can have its partial hold any bytes, if it is not good already. */
  lemma CanFetch(crew: seq<Target>, s: State, t: State, p: nat, content: Bytes, sha: Hash) returns (u: State)
    requires p < |crew| == |t.phases| && t.phases[p] == Resting && WellFormed(t.disk) && Leads(crew, s, t, p, sha)
    requires Matches(content, crew[p].record, sha)
    ensures Leads(crew, s, u, p, sha) && |u.phases| == |crew| && u.phases[p] == Resting
    ensures WellFormed(u.disk) && GoodAt(u.disk, crew[p].Partial(), crew[p].record, sha)
  {
    hide Leads, Matches;
    var w := crew[p];
    u := t;
    if !GoodAt(t.disk, w.Partial(), w.record, sha) {
      Steps(crew, s, u, p, u.disk, Transferring, Begin(p), sha);
      u := Moved(u, p, u.disk, Transferring);
      if w.Partial() !in u.disk.names {
        var k := SomeInode(u.disk);
        CreateIsWellFormed(u.disk, w.Partial(), k);
        var d := Create(u.disk, w.Partial(), k);
        Steps(crew, s, u, p, d, Transferring, Arrive(p, w.Partial(), k), sha);
        u := Moved(u, p, d, Transferring);
      }
      BoundIsThere(u.disk, w.Partial());
      var filled := Write(u.disk, w.Partial(), content);
      WriteIsWellFormed(u.disk, w.Partial(), content);
      Steps(crew, s, u, p, filled, Transferring, Fill(p, content), sha);
      u := Moved(u, p, filled, Transferring);
      Steps(crew, s, u, p, u.disk, Resting, Stop(p), sha);
      u := Moved(u, p, u.disk, Resting);
    }
  }

  lemma BoundIsThere(d: SharedDisk, n: Path)
    requires WellFormed(d) && n in d.names
    ensures Exists(d, n)
  {
    assert Current(d, n) in Candidates(d, n);
  }

  lemma WriteIsWellFormed(d: SharedDisk, n: Path, content: Bytes)
    requires WellFormed(d) && Exists(d, n)
    ensures WellFormed(Write(d, n, content)) && Exists(Write(d, n, content), n) && Content(Write(d, n, content), n) == content
  {
    assert forall m :: Candidates(Write(d, n, content), m) == Candidates(d, m);
  }

  /** Whatever earlier runs, power losses and other workers have left, a worker whose transport
      delivers the recorded bytes can, by steps of its own and a flush of the directory, bring its
      file to where no power loss takes it away. */
  lemma CanFinish(crew: seq<Target>, s: State, p: nat, content: Bytes, sha: Hash) returns (t: State)
    requires p < |crew| == |s.phases| && WellFormed(s.disk) && Matches(content, crew[p].record, sha)
    ensures Leads(crew, s, t, p, sha)
    ensures DurablyHolds(t.disk, crew[p].dest, crew[p].record, sha)
  {
    hide Leads, Matches;
    var w := crew[p];
    LeadsToItself(crew, s, p, sha);
    Steps(crew, s, s, p, s.disk, Resting, Stop(p), sha);
    t := CanFetch(crew, s, Moved(s, p, s.disk, Resting), p, content, sha);
    Steps(crew, s, t, p, t.disk, Checked, Check(p), sha);
    t := Moved(t, p, t.disk, Checked);
    var safe := Fsync(t.disk, w.Partial());
    Steps(crew, s, t, p, safe, Flushed, Flush(p), sha);
    t := Moved(t, p, safe, Flushed);
    OwnNames(w);
    var there := Rename(safe, w.Partial(), w.dest);
    Steps(crew, s, t, p, there, Resting, Promote(p), sha);
    t := Moved(t, p, there, Resting);
    var u := State(Settled(t.disk, {w.dest}), t.phases);
    LeadsOn(crew, s, t, u, Settle({w.dest}), p, sha);
    SettledHolds(safe, w, sha);
    t := u;
  }

  lemma SettledHolds(d: SharedDisk, w: Target, sha: Hash)
    requires Exists(d, w.Partial()) && Holds(d, d.names[w.Partial()], w.record, sha) && w.Partial() != w.dest
    ensures DurablyHolds(Settled(Rename(d, w.Partial(), w.dest), {w.dest}), w.dest, w.record, sha)
  {
  }

  /** A destination that is there and not valid can be moved aside, to any name kept for that. */
  lemma CanSetAside(crew: seq<Target>, s: State, p: nat, to: Path, sha: Hash) returns (t: State)
    requires p < |crew| == |s.phases| && crew[p].dest in s.disk.names && !GoodAt(s.disk, crew[p].dest, crew[p].record, sha)
    requires crew[p].Owns(to) && to !in {crew[p].dest, crew[p].Partial(), crew[p].Control()}
    ensures Leads(crew, s, t, p, sha)
    ensures Current(t.disk, crew[p].dest) == None && Current(t.disk, to) == Current(s.disk, crew[p].dest)
  {
    hide Leads;
    LeadsToItself(crew, s, p, sha);
    Steps(crew, s, s, p, s.disk, Resting, Stop(p), sha);
    t := Moved(s, p, s.disk, Resting);
    var d := Rename(t.disk, crew[p].dest, to);
    Steps(crew, s, t, p, d, Resting, SetAside(p, crew[p].dest, to), sha);
    t := Moved(t, p, d, Resting);
  }

  /** The transport may do anything to its two files: leave any bytes in the partial, and make or drop
      the control file. */
  lemma NothingIsAssumed(crew: seq<Target>, s: State, p: nat, content: Bytes, k: Inode, sha: Hash)
    requires p < |crew| == |s.phases| && s.phases[p] == Transferring && k !in s.disk.nodes
    ensures Exists(s.disk, crew[p].Partial()) ==>
              exists t :: Next(crew, s, t, Fill(p, content), sha) &&
                          Exists(t.disk, crew[p].Partial()) && Content(t.disk, crew[p].Partial()) == content
    ensures crew[p].Control() !in s.disk.names ==>
              exists t :: Next(crew, s, t, Arrive(p, crew[p].Control(), k), sha) && Exists(t.disk, crew[p].Control())
    ensures exists t :: Next(crew, s, t, Drop(p), sha) && Current(t.disk, crew[p].Control()) == None
  {
    var w := crew[p];
    if Exists(s.disk, w.Partial()) {
      CanFill(crew, s, p, content, sha);
    }
    if w.Control() !in s.disk.names {
      var t := Moved(s, p, Create(s.disk, w.Control(), k), Transferring);
      assert Next(crew, s, t, Arrive(p, w.Control(), k), sha);
    }
    CanDrop(crew, s, p, sha);
  }

  lemma CanFill(crew: seq<Target>, s: State, p: nat, content: Bytes, sha: Hash)
    requires p < |crew| == |s.phases| && s.phases[p] == Transferring && Exists(s.disk, crew[p].Partial())
    ensures Next(crew, s, Moved(s, p, Write(s.disk, crew[p].Partial(), content), Transferring), Fill(p, content), sha)
  {
  }

  lemma CanDrop(crew: seq<Target>, s: State, p: nat, sha: Hash)
    requires p < |crew| == |s.phases| && s.phases[p] == Transferring
    ensures Next(crew, s, Moved(s, p, Unlink(s.disk, crew[p].Control()), Transferring), Drop(p), sha)
  {
  }

  /** And the power can fail in any state, with any recovery. */
  lemma PowerCanFail(crew: seq<Target>, s: State, after: SharedDisk, sha: Hash)
    requires |s.phases| == |crew| && Recovers(s.disk, after)
    ensures exists t :: Next(crew, s, t, PowerLoss(after), sha) && t.disk == after && forall q :: q in t.phases ==> q == Resting
  {
    hide Recovers;
    assert Next(crew, s, State(after, seq(|crew|, _ => Resting)), PowerLoss(after), sha);
  }
}

/** A queue of downloads finished in any order by a pool of workers (`prepare_jobs`,
    `run_downloads` and `process_queue` in
    verification/local-coverage-foundation/download_queue.py). */
module DownloadQueue {
  import opened Common

  datatype QueuedArtifact = QueuedArtifact(key: string, destinations: seq<string>)

  datatype Job = Job(key: string, destination: string)

  datatype Status = Running | Complete | Failed

  datatype Record = Record(status: Status, filesComplete: nat, filesTotal: nat)

  type Records = map<string, Record>

  // --- one future completing ---------------------------------------------------------

  /** The body of the `as_completed` loop for one job of this record. */
  function Settled(r: Record, ok: bool): Record {
    if !ok then r.(status := Failed)
    else
      var n := r.filesComplete + 1;
      r.(filesComplete := n, status := if n == r.filesTotal then Complete else r.status)
  }

  function SettledIn(records: Records, key: string, ok: bool): Records {
    if key in records then records[key := Settled(records[key], ok)] else records
  }

  /** The records after the jobs numbered in `order` have completed, in that order. */
  function After(records: Records, jobs: seq<Job>, ok: seq<bool>, order: seq<nat>): (r: Records)
    requires |ok| == |jobs| && forall i :: i in order ==> i < |jobs|
    ensures r.Keys == records.Keys
  {
    if order == [] then records
    else
      var front, i := order[..|order| - 1], order[|order| - 1];
      assert i in order && forall k :: k in front ==> k in order;
      SettledIn(After(records, jobs, ok, front), jobs[i].key, ok[i])
  }

  // --- the final state, whatever the order ---------------------------------------------

  function JobsOf(jobs: seq<Job>, key: string): set<nat> {
    set i: nat | i < |jobs| && jobs[i].key == key
  }

  function Successes(jobs: seq<Job>, ok: seq<bool>, done: set<nat>, key: string): set<nat>
    requires |ok| == |jobs|
  {
    set i | i in JobsOf(jobs, key) && i in done && ok[i]
  }

  ghost predicate SomeFailed(jobs: seq<Job>, ok: seq<bool>, done: set<nat>, key: string)
    requires |ok| == |jobs|
  {
    exists i :: i in JobsOf(jobs, key) && i in done && !ok[i]
  }

  /** What a record says once a set of jobs is done. */
  ghost predicate Tallies(r: Record, jobs: seq<Job>, ok: seq<bool>, done: set<nat>, key: string)
    requires |ok| == |jobs|
  {
    && r.filesTotal == |JobsOf(jobs, key)|
    && r.filesComplete == |Successes(jobs, ok, done, key)|
    && (r.status == Failed <==> SomeFailed(jobs, ok, done, key))
    && (r.status == Complete <==> r.filesComplete == r.filesTotal > 0)
  }

  lemma SuccessesGrow(jobs: seq<Job>, ok: seq<bool>, done: set<nat>, i: nat, key: string)
    requires |ok| == |jobs| && i < |jobs| && i !in done
    ensures Successes(jobs, ok, done + {i}, key) ==
              Successes(jobs, ok, done, key) + if jobs[i].key == key && ok[i] then {i} else {}
    ensures jobs[i].key != key ==>
              (SomeFailed(jobs, ok, done + {i}, key) <==> SomeFailed(jobs, ok, done, key))
  {
  }

  /** A failed job keeps the successes strictly below the total. */
  lemma FailureLeavesAGap(jobs: seq<Job>, ok: seq<bool>, done: set<nat>, key: string)
    requires |ok| == |jobs| && SomeFailed(jobs, ok, done, key)
    ensures |Successes(jobs, ok, done, key)| < |JobsOf(jobs, key)|
  {
    var i :| i in JobsOf(jobs, key) && i in done && !ok[i];
    SubsetSmaller(Successes(jobs, ok, done, key), JobsOf(jobs, key), i);
  }

  lemma SubsetSmaller(a: set<nat>, b: set<nat>, x: nat)
    requires a <= b && x in b && x !in a
    ensures |a| < |b|
  {
    Cardinality(a, b - {x});
  }

  lemma {:induction false} Cardinality(a: set<nat>, b: set<nat>)
    requires a <= b
    ensures |a| <= |b|
    decreases |a|
  {
    if a != {} {
      var x :| x in a;
      Cardinality(a - {x}, b - {x});
    }
  }

  lemma OneMoreJob(r: Record, jobs: seq<Job>, ok: seq<bool>, done: set<nat>, i: nat)
    requires |ok| == |jobs| && i < |jobs| && i !in done
    requires Tallies(r, jobs, ok, done, jobs[i].key)
    ensures Tallies(Settled(r, ok[i]), jobs, ok, done + {i}, jobs[i].key)
  {
    var key := jobs[i].key;
    var mine, before, now := JobsOf(jobs, key), Successes(jobs, ok, done, key), Successes(jobs, ok, done + {i}, key);
    SuccessesGrow(jobs, ok, done, i, key);
    assert i in mine && i !in before;
    SubsetSmaller(before, mine, i);
    if ok[i] {
      assert now == before + {i};
      assert SomeFailed(jobs, ok, done + {i}, key) <==> SomeFailed(jobs, ok, done, key);
      if SomeFailed(jobs, ok, done, key) {
        FailureLeavesAGap(jobs, ok, done + {i}, key);
      }
    } else {
      assert now == before;
      assert i in done + {i} && SomeFailed(jobs, ok, done + {i}, key);
    }
  }

  function DoneSet(order: seq<nat>): set<nat> { set i | i in order }

  lemma SettledTallies(records: Records, jobs: seq<Job>, ok: seq<bool>, done: set<nat>, i: nat, key: string)
    requires |ok| == |jobs| && i < |jobs| && i !in done
    requires key in records && Tallies(records[key], jobs, ok, done, key)
    ensures key in SettledIn(records, jobs[i].key, ok[i])
    ensures Tallies(SettledIn(records, jobs[i].key, ok[i])[key], jobs, ok, done + {i}, key)
  {
    SuccessesGrow(jobs, ok, done, i, key);
    if jobs[i].key == key {
      OneMoreJob(records[key], jobs, ok, done, i);
    }
  }

  lemma {:induction false} AfterTallies(records: Records, jobs: seq<Job>, ok: seq<bool>, order: seq<nat>, key: string)
    requires |ok| == |jobs| && Distinct(order) && forall i :: i in order ==> i < |jobs|
    requires key in records && Tallies(records[key], jobs, ok, {}, key)
    ensures Tallies(After(records, jobs, ok, order)[key], jobs, ok, DoneSet(order), key)
  {
    hide Tallies, SettledIn;
    if order == [] {
      assert DoneSet(order) == {};
    } else {
      var n := |order| - 1;
      var front, i := order[..n], order[n];
      assert i in order && forall k :: k in front ==> k in order;
      DistinctPrefix(order, n);
      AfterTallies(records, jobs, ok, front, key);
      assert DoneSet(order) == DoneSet(front) + {i} by {
        assert order == front + [i];
      }
      SettledTallies(After(records, jobs, ok, front), jobs, ok, DoneSet(front), i, key);
    }
  }

  /** The order in which workers finish does not matter: when every job has completed, an
      artifact's record counts its successes, is `failed` exactly when one of its files
      failed, and `complete` exactly when it has files and all of them succeeded. An artifact
      that lists no file stays `running`. */
  lemma FinalRecord(records: Records, jobs: seq<Job>, ok: seq<bool>, order: seq<nat>, key: string)
    requires |ok| == |jobs| && Distinct(order) && forall i: nat :: i in order <==> i < |jobs|
    requires key in records && records[key] == Record(Running, 0, |JobsOf(jobs, key)|)
    ensures var r := After(records, jobs, ok, order)[key];
            && r.filesTotal == |JobsOf(jobs, key)|
            && r.filesComplete == |set i | i in JobsOf(jobs, key) && ok[i]|
            && (r.status == Failed <==> exists i :: i in JobsOf(jobs, key) && !ok[i])
            && (r.status == Complete <==> JobsOf(jobs, key) != {} && forall i :: i in JobsOf(jobs, key) ==> ok[i])
            && (r.status == Running <==> JobsOf(jobs, key) == {})
  {
    assert Successes(jobs, ok, {}, key) == {};
    AfterTallies(records, jobs, ok, order, key);
    var mine := JobsOf(jobs, key);
    var good := set i | i in mine && ok[i];
    assert Successes(jobs, ok, DoneSet(order), key) == good;
    if SomeFailed(jobs, ok, DoneSet(order), key) {
      FailureLeavesAGap(jobs, ok, DoneSet(order), key);
    } else {
      assert good == mine;
    }
  }

  /** The promise needs unique artifact keys, which `prepare_jobs` does not check. Two artifacts
      under one key share a record whose total is only the second one's: with one file each,
      one of which fails, the record ends `failed` or `complete` depending on which finished
      first. */
  lemma DuplicateKeysDependOnOrder(key: string)
    ensures var jobs := [Job(key, "one"), Job(key, "two")];
            var records := map[key := Record(Running, 0, 1)];
            && After(records, jobs, [true, false], [0, 1])[key].status == Failed
            && After(records, jobs, [true, false], [1, 0])[key].status == Complete
  {
    var jobs := [Job(key, "one"), Job(key, "two")];
    var records := map[key := Record(Running, 0, 1)];
    var ok, none: seq<nat> := [true, false], [];
    assert [0, 1][..1] == [0] && [0][..0] == none;
    assert [1, 0][..1] == [1] && [1][..0] == none;
    assert After(records, jobs, ok, [0]) == SettledIn(After(records, jobs, ok, none), key, true);
    assert After(records, jobs, ok, [1]) == SettledIn(After(records, jobs, ok, none), key, false);
  }

  // --- preparing the jobs -----------------------------------------------------------------

  function ArtifactJobs(a: QueuedArtifact): (r: seq<Job>)
    ensures |r| == |a.destinations|
  {
    seq(|a.destinations|, k requires 0 <= k < |a.destinations| => Job(a.key, a.destinations[k]))
  }

  function JobsFrom(artifacts: seq<QueuedArtifact>): seq<Job> {
    if artifacts == [] then []
    else JobsFrom(artifacts[..|artifacts| - 1]) + ArtifactJobs(artifacts[|artifacts| - 1])
  }

  function Fresh(a: QueuedArtifact): Record { Record(Running, 0, |a.destinations|) }

  /** What an earlier run left, with one fresh record for every artifact of this queue. */
  function RecordsFrom(prior: Records, artifacts: seq<QueuedArtifact>): Records {
    if artifacts == [] then prior
    else
      var last := artifacts[|artifacts| - 1];
      RecordsFrom(prior, artifacts[..|artifacts| - 1])[last.key := Fresh(last)]
  }

  /** The file each job really writes: its destination with links and `..` resolved. */
  function Owned(jobs: seq<Job>, resolve: string -> string): (r: seq<string>)
    ensures |r| == |jobs|
  {
    seq(|jobs|, k requires 0 <= k < |jobs| => resolve(jobs[k].destination))
  }

  function Keys(artifacts: seq<QueuedArtifact>): (r: seq<string>)
    ensures |r| == |artifacts|
  {
    seq(|artifacts|, k requires 0 <= k < |artifacts| => artifacts[k].key)
  }

  lemma JobsOfSnoc(jobs: seq<Job>, j: Job, key: string)
    ensures |JobsOf(jobs + [j], key)| == |JobsOf(jobs, key)| + if j.key == key then 1 else 0
  {
    assert JobsOf(jobs + [j], key) == JobsOf(jobs, key) + if j.key == key then {|jobs|} else {};
  }

  lemma {:induction false} JobsOfArtifact(jobs: seq<Job>, a: QueuedArtifact, n: nat, key: string)
    requires n <= |a.destinations|
    ensures |JobsOf(jobs + ArtifactJobs(a)[..n], key)| == |JobsOf(jobs, key)| + if a.key == key then n else 0
  {
    if n == 0 {
      assert jobs + ArtifactJobs(a)[..0] == jobs;
    } else {
      JobsOfArtifact(jobs, a, n - 1, key);
      assert jobs + ArtifactJobs(a)[..n] == (jobs + ArtifactJobs(a)[..n - 1]) + [ArtifactJobs(a)[n - 1]];
      JobsOfSnoc(jobs + ArtifactJobs(a)[..n - 1], ArtifactJobs(a)[n - 1], key);
    }
  }

  lemma {:induction false} NoJobsWithoutArtifact(artifacts: seq<QueuedArtifact>, key: string)
    requires key !in Keys(artifacts)
    ensures |JobsOf(JobsFrom(artifacts), key)| == 0
  {
    if artifacts == [] {
      assert JobsOf([], key) == {};
    } else {
      var front, last := artifacts[..|artifacts| - 1], artifacts[|artifacts| - 1];
      assert Keys(artifacts)[|artifacts| - 1] == last.key;
      assert forall k :: 0 <= k < |front| ==> Keys(front)[k] == Keys(artifacts)[k];
      NoJobsWithoutArtifact(front, key);
      JobsOfArtifact(JobsFrom(front), last, |last.destinations|, key);
      assert ArtifactJobs(last)[..|last.destinations|] == ArtifactJobs(last);
    }
  }

  /** With unique keys, every artifact starts from a record that counts its own files. */
  lemma {:induction false} PreparedRecord(prior: Records, artifacts: seq<QueuedArtifact>, n: nat)
    requires Distinct(Keys(artifacts)) && n < |artifacts|
    ensures artifacts[n].key in RecordsFrom(prior, artifacts)
    ensures RecordsFrom(prior, artifacts)[artifacts[n].key] ==
              Record(Running, 0, |JobsOf(JobsFrom(artifacts), artifacts[n].key)|)
  {
    var m := |artifacts| - 1;
    var front, last, key := artifacts[..m], artifacts[m], artifacts[n].key;
    assert forall k :: 0 <= k < m ==> Keys(front)[k] == Keys(artifacts)[k];
    assert Keys(artifacts)[n] == key && Keys(artifacts)[m] == last.key;
    JobsOfArtifact(JobsFrom(front), last, |last.destinations|, key);
    assert ArtifactJobs(last)[..|last.destinations|] == ArtifactJobs(last);
    if n < m {
      PreparedRecord(prior, front, n);
    } else {
      assert key !in Keys(front);
      NoJobsWithoutArtifact(front, key);
    }
  }

  /** Records of artifacts that are not in this queue are what the earlier run left. */
  lemma {:induction false} OtherRecordsStay(prior: Records, artifacts: seq<QueuedArtifact>, key: string)
    requires key !in Keys(artifacts)
    ensures Get(RecordsFrom(prior, artifacts), key) == Get(prior, key)
  {
    if artifacts != [] {
      var m := |artifacts| - 1;
      assert Keys(artifacts)[m] == artifacts[m].key;
      assert forall k :: 0 <= k < m ==> Keys(artifacts[..m])[k] == Keys(artifacts)[k];
      OtherRecordsStay(prior, artifacts[..m], key);
    }
  }

  lemma OwnedSnoc(jobs: seq<Job>, j: Job, resolve: string -> string)
    ensures Owned(jobs + [j], resolve) == Owned(jobs, resolve) + [resolve(j.destination)]
    ensures Distinct(Owned(jobs + [j], resolve)) <==>
              Distinct(Owned(jobs, resolve)) && resolve(j.destination) !in Owned(jobs, resolve)
  {
    DistinctSnoc(Owned(jobs, resolve), resolve(j.destination));
  }

  lemma {:induction false} JobsFromPrefix(artifacts: seq<QueuedArtifact>, n: nat)
    requires n <= |artifacts|
    ensures |JobsFrom(artifacts[..n])| <= |JobsFrom(artifacts)|
    ensures JobsFrom(artifacts)[..|JobsFrom(artifacts[..n])|] == JobsFrom(artifacts[..n])
    decreases |artifacts|
  {
    if n == |artifacts| {
      assert artifacts[..n] == artifacts;
    } else {
      var front := artifacts[..|artifacts| - 1];
      JobsFromPrefix(front, n);
      assert front[..n] == artifacts[..n];
    }
  }

  /** Two jobs that already clash clash in every longer list. */
  lemma ClashStays(jobs: seq<Job>, n: nat, resolve: string -> string)
    requires n <= |jobs| && !Distinct(Owned(jobs[..n], resolve))
    ensures !Distinct(Owned(jobs, resolve))
  {
    var i, j :| 0 <= i < j < n && Owned(jobs[..n], resolve)[i] == Owned(jobs[..n], resolve)[j];
    assert Owned(jobs, resolve)[i] == Owned(jobs, resolve)[j];
  }

  // --- what a job may write --------------------------------------------------------------------

  /** A resolved path, cut at its dots. */
  type Dotted = seq<string>

  predicate IsBad(part: string) { |part| >= 4 && part[..4] == "bad-" }

  /** What a download may append to its destination: `.partial`, `.partial.aria2`, or one of the
      names that bad bytes are moved to. */
  predicate Tail(t: Dotted) {
    || t == [] || t == ["partial"] || t == ["partial", "aria2"]
    || (|t| == 1 && IsBad(t[0]))
    || (|t| == 2 && t[0] == "partial" && IsBad(t[1]))
    || (|t| == 3 && t[0] == "partial" && IsBad(t[1]) && t[2] == "aria2")
  }

  /** A download to `d` may write the name `n`. */
  predicate Touches(d: Dotted, n: Dotted) {
    d <= n && Tail(n[|d|..])
  }

  /** The names that bad bytes with this tag are moved to: the destination's own, the partial's, and the
      control file's beside that. */
  ghost predicate SetAsideAs(d: Dotted, n: Dotted, tag: string) {
    || n == d + ["bad-" + tag]
    || n == d + ["partial", "bad-" + tag]
    || n == d + ["partial", "bad-" + tag, "aria2"]
  }

  /** Spelled out: the destination, its partial, the control file beside that, and those names. */
  lemma WrittenNames(d: Dotted, n: Dotted)
    ensures Touches(d, n) <==>
              n == d || n == d + ["partial"] || n == d + ["partial", "aria2"] || exists tag :: SetAsideAs(d, n, tag)
  {
    if Touches(d, n) {
      var t := n[|d|..];
      assert n == d + t;
      if |t| == 1 && IsBad(t[0]) {
        BadHasTag(t[0]);
        assert t == ["bad-" + t[0][4..]];
        assert SetAsideAs(d, n, t[0][4..]);
      } else if |t| >= 2 && IsBad(t[1]) {
        BadHasTag(t[1]);
        assert t[..2] == ["partial", "bad-" + t[1][4..]];
        assert |t| == 2 ==> t == t[..2];
        assert |t| == 3 ==> t == t[..2] + [t[2]];
        assert SetAsideAs(d, n, t[1][4..]);
      } else {
        assert t == [] ==> n == d;
      }
    }
    if n == d {
      assert n[|d|..] == [];
    }
    forall tag | SetAsideAs(d, n, tag) ensures Touches(d, n) {
      TagIsBad(tag);
      var t := n[|d|..];
      assert t == ["bad-" + tag] || t == ["partial", "bad-" + tag] || t == ["partial", "bad-" + tag, "aria2"];
    }
    assert n == d + ["partial"] ==> n[|d|..] == ["partial"];
    assert n == d + ["partial", "aria2"] ==> n[|d|..] == ["partial", "aria2"];
  }

  lemma TagIsBad(tag: string)
    ensures IsBad("bad-" + tag)
  {
  }

  lemma BadHasTag(part: string)
    requires IsBad(part)
    ensures part == "bad-" + part[4..]
  {
    assert part == part[..4] + part[4..];
  }

  lemma TailSplits(x: Dotted, u: Dotted)
    requires Tail(x + u) && Tail(u)
    ensures Tail(x)
  {
    assert forall k :: 0 <= k < |x| ==> (x + u)[k] == x[k];
    assert forall k :: 0 <= k < |u| ==> (x + u)[|x| + k] == u[k];
  }

  lemma SharedName(a: Dotted, b: Dotted, n: Dotted)
    requires Touches(a, n) && Touches(b, n) && |a| <= |b|
    ensures Touches(a, b)
  {
    assert n[|a|..] == b[|a|..] + n[|b|..];
    TailSplits(b[|a|..], n[|b|..]);
  }

  /** Two downloads have a name in common exactly when one's destination is a name the other may
      write. Being different is not enough. */
  lemma WritesOverlapIff(a: Dotted, b: Dotted)
    ensures (exists n :: Touches(a, n) && Touches(b, n)) <==> Touches(a, b) || Touches(b, a)
  {
    if n :| Touches(a, n) && Touches(b, n) {
      if |a| <= |b| {
        SharedName(a, b, n);
      } else {
        SharedName(b, a, n);
      }
    }
    assert a[|a|..] == [] && b[|b|..] == [];
    assert Touches(a, a) && Touches(b, b);
  }

  /** So a queue that lists a file and that file's `.partial` passes the uniqueness check, and its
      two workers write one file. */
  lemma PartialOfAnotherPasses()
    ensures Distinct(Owned([Job("k", "m"), Job("k", "m.partial")], p => p))
    ensures Touches(["m"], ["m", "partial"])
  {
    var owned := Owned([Job("k", "m"), Job("k", "m.partial")], p => p);
    assert |owned[0]| != |owned[1]|;
    assert ["m", "partial"][1..] == ["partial"];
  }

  // --- running the queue ------------------------------------------------------------------

  /** What one replacement of the state file or of the stamp does: succeed, fail and change
      nothing, or fail after the new file is in place. */
  datatype Write = Done | Refused | Late

  /** These writes all succeed. */
  ghost predicate AllDone(script: nat -> Write, from: nat, to: nat) {
    forall k: nat :: from <= k < to ==> script(k).Done?
  }

  /** What else a pass depends on: the queue file is valid JSON; an unreadable earlier state, if there
      is one, can be reported; the number of workers and the connection budget are valid; the
      artifacts and the files have the fields that are read; the first and the last log line can
      be written. */
  datatype Conditions = Conditions(
    readable: bool, priorLogged: bool, workersValid: bool, artifactsWhole: bool,
    budgetValid: bool, startLogged: bool, filesWhole: bool, endLogged: bool)
  {
    /** Those that `run_downloads` meets for this many files. */
    predicate AllowRun(files: nat) {
      artifactsWhole && (files > 0 ==> budgetValid && startLogged && filesWhole)
    }
  }

  datatype QueueState = QueueState(status: Status, records: Records)

  class Queue {
    var state: QueueState
    var published: Option<QueueState>
    var stamp: Option<nat>
    var writes: nat
    const script: nat -> Write

    constructor (published: Option<QueueState>, stamp: Option<nat>, script: nat -> Write)
      ensures this.published == published && this.stamp == stamp && this.script == script && writes == 0
      ensures state == QueueState(Running, map[])
    {
      state := QueueState(Running, map[]);
      this.published, this.stamp, writes, this.script := published, stamp, 0, script;
    }

    /** `atomic_json(STATE, state)`. */
    method Publish() returns (ok: bool)
      modifies this`published, this`writes
      ensures writes == old(writes) + 1
      ensures ok <==> script(old(writes)).Done?
      ensures published == if script(old(writes)).Refused? then old(published) else Some(state)
    {
      ok := script(writes).Done?;
      if !script(writes).Refused? { published := Some(state); }
      writes := writes + 1;
    }

    method WriteStamp(total: nat) returns (ok: bool)
      modifies this`stamp, this`writes
      ensures writes == old(writes) + 1
      ensures ok <==> script(old(writes)).Done?
      ensures stamp == if script(old(writes)).Refused? then old(stamp) else Some(total)
    {
      ok := script(writes).Done?;
      if !script(writes).Refused? { stamp := Some(total); }
      writes := writes + 1;
    }

    /** The files of one artifact, claimed one by one. */
    method ClaimFiles(a: QueuedArtifact, jobs: seq<Job>, owners: set<string>, resolve: string -> string)
      returns (claimed: nat, jobs': seq<Job>, owners': set<string>)
      requires Distinct(Owned(jobs, resolve)) && forall o :: o in owners <==> o in Owned(jobs, resolve)
      ensures claimed <= |a.destinations| && jobs' == jobs + ArtifactJobs(a)[..claimed]
      ensures Distinct(Owned(jobs', resolve)) && forall o :: o in owners' <==> o in Owned(jobs', resolve)
      ensures claimed < |a.destinations| ==> !Distinct(Owned(jobs + ArtifactJobs(a)[..claimed + 1], resolve))
    {
      jobs', owners', claimed := jobs, owners, 0;
      while claimed < |a.destinations|
        invariant 0 <= claimed <= |a.destinations|
        invariant jobs' == jobs + ArtifactJobs(a)[..claimed]
        invariant Distinct(Owned(jobs', resolve)) && forall o :: o in owners' <==> o in Owned(jobs', resolve)
      {
        hide Distinct;
        var job := Job(a.key, a.destinations[claimed]);
        var owner := resolve(job.destination);
        OwnedSnoc(jobs', job, resolve);
        assert ArtifactJobs(a)[..claimed + 1] == ArtifactJobs(a)[..claimed] + [job];
        assert jobs + ArtifactJobs(a)[..claimed + 1] == jobs' + [job];
        if owner in owners' { return; }
        owners', jobs', claimed := owners' + {owner}, jobs' + [job], claimed + 1;
      }
    }

    /** `prepare_jobs`: every job, and a fresh record for every artifact; refused exactly when
        two jobs resolve to the same file. */
    method PrepareJobs(artifacts: seq<QueuedArtifact>, resolve: string -> string) returns (r: Option<seq<Job>>)
      modifies this`state
      ensures state.status == old(state.status)
      ensures r.Some? <==> Distinct(Owned(JobsFrom(artifacts), resolve))
      ensures r.Some? ==> r.value == JobsFrom(artifacts) && state.records == RecordsFrom(old(state.records), artifacts)
      // A refusal comes at the first artifact with a clash, whose record is fresh by then.
      ensures r.None? ==> exists n: nat :: FirstClash(artifacts, n, resolve) && state.records == RecordsFrom(old(state.records), artifacts[..n + 1])
    {
      var jobs, owners: set<string> := [], {};
      var n := 0;
      assert artifacts[..0] == [];
      while n < |artifacts|
        invariant 0 <= n <= |artifacts|
        invariant jobs == JobsFrom(artifacts[..n])
        invariant Distinct(Owned(jobs, resolve)) && forall o :: o in owners <==> o in Owned(jobs, resolve)
        invariant state == QueueState(old(state.status), RecordsFrom(old(state.records), artifacts[..n]))
      {
        hide Distinct, Owned;
        var a := artifacts[n];
        assert artifacts[..n + 1][..n] == artifacts[..n] && artifacts[..n + 1][n] == a;
        state := state.(records := state.records[a.key := Fresh(a)]);
        var claimed, jobs', owners' := ClaimFiles(a, jobs, owners, resolve);
        if claimed < |a.destinations| {
          ClashIsFinal(artifacts, n, claimed + 1, resolve);
          ClashInPrefix(artifacts, n, claimed + 1, resolve);
          assert FirstClash(artifacts, n, resolve);
          return None;
        }
        assert ArtifactJobs(a)[..claimed] == ArtifactJobs(a);
        jobs, owners, n := jobs', owners', n + 1;
      }
      assert artifacts[..n] == artifacts;
      r := Some(jobs);
    }

    /** The `as_completed` loop: every future is recorded and published as it settles; a
        publication that raises ends the loop. */
    method SettleAll(jobs: seq<Job>, ok: seq<bool>, order: seq<nat>) returns (good: bool)
      requires |ok| == |jobs| && forall i :: i in order ==> i < |jobs|
      modifies this`state, this`published, this`writes
      ensures state.status == old(state.status)
      ensures good <==> (forall i :: i in order ==> ok[i]) && AllDone(script, old(writes), old(writes) + |order|)
      // Whatever failed, the jobs settled so far are in the records, and a publication that raises
      // is the only way to stop before the last.
      ensures old(writes) <= writes <= old(writes) + |order|
      ensures state.records == AfterFirst(old(state.records), jobs, ok, order, writes - old(writes))
      ensures writes == old(writes) + |order| || (writes > old(writes) && !script(writes - 1).Done?)
      ensures AllDone(script, old(writes), old(writes) + |order|) ==>
                && writes == old(writes) + |order| && state.records == After(old(state.records), jobs, ok, order)
                && (order != [] ==> published == Some(state))
    {
      hide AfterFirst, After, SettledIn, AllDone, AllArrived;
      good := true;
      var n := 0;
      ghost var first, records, status := writes, state.records, state.status;
      AfterNone(records, jobs, ok, order);
      AllDoneNone(script, first);
      while n < |order|
        invariant 0 <= n <= |order| && writes == first + n
        invariant state == QueueState(status, AfterFirst(records, jobs, ok, order, n))
        invariant AllDone(script, first, first + n)
        invariant n > 0 ==> published == Some(state)
        invariant good <==> AllArrived(ok, order, n)
      {
        AfterNext(records, jobs, ok, order, n);
        AllDoneNext(script, first, n);
        AllArrivedNext(ok, order, n);
        var i := order[n];
        state := state.(records := SettledIn(state.records, jobs[i].key, ok[i]));
        good := good && ok[i];
        var written := Publish();
        n := n + 1;
        if !written {
          AllDoneStops(script, first, first + |order|, writes - 1);
          return false;
        }
      }
      AfterAll(records, jobs, ok, order);
      AllArrivedIs(ok, order);
    }

    /** `run_downloads`: prepare, publish, settle every job; the first failure is reported. The
        connection budget, the log line and the fields of a file are looked at only when there is
        something to download. */
    method RunDownloads(artifacts: seq<QueuedArtifact>, resolve: string -> string, c: Conditions, ok: seq<bool>, order: seq<nat>)
      returns (good: bool)
      requires |ok| == |JobsFrom(artifacts)| && |order| == |ok| && forall i: nat :: i in order <==> i < |ok|
      modifies this`state, this`published, this`writes
      ensures state.status == old(state.status)
      ensures good <==> c.AllowRun(|ok|) && Distinct(Owned(JobsFrom(artifacts), resolve)) &&
                        (forall i :: i in order ==> ok[i]) && AllDone(script, old(writes), old(writes) + 1 + |ok|)
      ensures good ==> writes == old(writes) + 1 + |ok|
      ensures old(writes) <= writes <= old(writes) + 1 + |ok|
      // Failed files or not, when nothing else stands in the way every job is in the records.
      ensures c.AllowRun(|ok|) && Distinct(Owned(JobsFrom(artifacts), resolve)) && AllDone(script, old(writes), old(writes) + 1 + |ok|) ==>
                && writes == old(writes) + 1 + |ok| && published == Some(state)
                && state.records == After(RecordsFrom(old(state.records), artifacts), JobsFrom(artifacts), ok, order)
      // A queue that clashes is refused before anything is published.
      ensures !c.artifactsWhole || !Distinct(Owned(JobsFrom(artifacts), resolve)) ==> writes == old(writes) && published == old(published)
    {
      if !c.artifactsWhole { return false; }
      var jobs := PrepareJobs(artifacts, resolve);
      if jobs.None? { return false; }
      var written := Publish();
      if !written { return false; }
      if jobs.value == [] {
        return true;
      }
      if !c.budgetValid || !c.startLogged || !c.filesWhole { return false; }
      good := SettleAll(jobs.value, ok, order);
    }

    /** `process_queue`: exit 0 exactly when the queue file can be read and has its fields, the
        worker and connection settings are valid, the destinations are disjoint, every file arrives
        and every write of the state, the stamp and the log succeeds; the stamp changes only after
        every job has succeeded and the complete state has been published. A raise out of the
        call counts as exit 1. */
    method ProcessQueue(artifacts: seq<QueuedArtifact>, total: Option<nat>, prior: Option<Records>, c: Conditions,
                        resolve: string -> string, ok: seq<bool>, order: seq<nat>) returns (exit: int)
      requires |ok| == |JobsFrom(artifacts)| && |order| == |ok| && forall i: nat :: i in order <==> i < |ok|
      modifies this
      ensures exit == 0 || exit == 1
      ensures exit == 0 <==> c.readable && c.priorLogged && c.workersValid && c.AllowRun(|ok|) && total.Some? && c.endLogged &&
                             Distinct(Owned(JobsFrom(artifacts), resolve)) && (forall i :: i in order ==> ok[i]) &&
                             AllDone(script, old(writes), old(writes) + 4 + |ok|)
      ensures exit == 0 ==> stamp == total && state.status == Complete && published == Some(state)
      ensures stamp != old(stamp) ==> total.Some? && stamp == total && forall i :: i in order ==> ok[i]
      ensures !c.readable || !c.priorLogged ==> writes == old(writes) && published == old(published)
      ensures c.readable && c.priorLogged && !script(old(writes)).Done? ==> writes == old(writes) + 1 && state.status == Running
      // A pass that got past its first publication and fails says so, and publishes it if it can.
      ensures c.readable && c.priorLogged && script(old(writes)).Done? && exit == 1 ==>
                && state.status == Failed && writes > old(writes) + 1
                && (!script(writes - 1).Refused? ==> published == Some(state))
      // Failed files or not, what it says of each artifact is how its jobs ended.
      ensures c.readable && c.priorLogged && c.workersValid && c.AllowRun(|ok|) && Distinct(Owned(JobsFrom(artifacts), resolve)) &&
              AllDone(script, old(writes), old(writes) + 2 + |ok|) ==>
                && var left := if prior.Some? then prior.value else map[];
                && state.records == After(RecordsFrom(left, artifacts), JobsFrom(artifacts), ok, order)
    {
      hide After, RecordsFrom, JobsFrom, Owned, Distinct;
      if !c.readable || !c.priorLogged { return 1; }
      state := QueueState(Running, if prior.Some? then prior.value else map[]);
      var written := Publish();
      if !written { return 1; }
      var done := TryPass(artifacts, total, c, resolve, ok, order);
      if done { return 0; }
      state := state.(status := Failed);
      written := Publish();
      return 1;
    }

    /** What the `try` holds: run the downloads, publish the complete state, write the stamp, log. */
    method TryPass(artifacts: seq<QueuedArtifact>, total: Option<nat>, c: Conditions,
                     resolve: string -> string, ok: seq<bool>, order: seq<nat>) returns (done: bool)
      requires |ok| == |JobsFrom(artifacts)| && |order| == |ok| && forall i: nat :: i in order <==> i < |ok|
      modifies this
      ensures done <==> c.workersValid && c.AllowRun(|ok|) && total.Some? && c.endLogged &&
                        Distinct(Owned(JobsFrom(artifacts), resolve)) && (forall i :: i in order ==> ok[i]) &&
                        AllDone(script, old(writes), old(writes) + 3 + |ok|)
      ensures done ==> stamp == total && state.status == Complete && published == Some(state)
      ensures stamp != old(stamp) ==> total.Some? && stamp == total && forall i :: i in order ==> ok[i]
      ensures writes >= old(writes)
      ensures c.workersValid && c.AllowRun(|ok|) && Distinct(Owned(JobsFrom(artifacts), resolve)) &&
              AllDone(script, old(writes), old(writes) + 1 + |ok|) ==>
                state.records == After(RecordsFrom(old(state.records), artifacts), JobsFrom(artifacts), ok, order)
    {
      hide After, RecordsFrom, JobsFrom, Owned, Distinct;
      if !c.workersValid { return false; }
      var good := RunDownloads(artifacts, resolve, c, ok, order);
      if !good { return false; }
      state := state.(status := Complete);
      var written := Publish();
      if !written || total == None { return false; }
      written := WriteStamp(total.value);
      done := written && c.endLogged;
    }
  }

  /** The records after the first `n` jobs of the order. */
  function AfterFirst(records: Records, jobs: seq<Job>, ok: seq<bool>, order: seq<nat>, n: nat): Records
    requires n <= |order| && |ok| == |jobs| && forall i :: i in order ==> i < |jobs|
  {
    assert forall k :: 0 <= k < n ==> order[k] in order;
    After(records, jobs, ok, order[..n])
  }

  lemma AfterNone(records: Records, jobs: seq<Job>, ok: seq<bool>, order: seq<nat>)
    requires |ok| == |jobs| && forall i :: i in order ==> i < |jobs|
    ensures AfterFirst(records, jobs, ok, order, 0) == records && AllArrived(ok, order, 0)
  {
  }

  lemma AfterAll(records: Records, jobs: seq<Job>, ok: seq<bool>, order: seq<nat>)
    requires |ok| == |jobs| && forall i :: i in order ==> i < |jobs|
    ensures AfterFirst(records, jobs, ok, order, |order|) == After(records, jobs, ok, order)
  {
    assert order[..|order|] == order;
  }

  lemma AfterNext(records: Records, jobs: seq<Job>, ok: seq<bool>, order: seq<nat>, n: nat)
    requires n < |order| && |ok| == |jobs| && forall i :: i in order ==> i < |jobs|
    ensures order[n] in order
    ensures AfterFirst(records, jobs, ok, order, n + 1) == SettledIn(AfterFirst(records, jobs, ok, order, n), jobs[order[n]].key, ok[order[n]])
  {
    assert order[..n + 1][..n] == order[..n];
  }

  lemma AllDoneNone(script: nat -> Write, from: nat)
    ensures AllDone(script, from, from)
  {
  }

  lemma AllDoneNext(script: nat -> Write, from: nat, n: nat)
    ensures AllDone(script, from, from + n + 1) <==> AllDone(script, from, from + n) && script(from + n).Done?
  {
  }

  lemma AllDoneStops(script: nat -> Write, from: nat, to: nat, k: nat)
    requires from <= k < to && !script(k).Done?
    ensures !AllDone(script, from, to)
  {
  }

  ghost predicate AllArrived(ok: seq<bool>, order: seq<nat>, n: nat)
    requires n <= |order| && forall i :: i in order ==> i < |ok|
  {
    forall k :: 0 <= k < n ==> order[k] in order && ok[order[k]]
  }

  lemma AllArrivedIs(ok: seq<bool>, order: seq<nat>)
    requires forall i :: i in order ==> i < |ok|
    ensures AllArrived(ok, order, |order|) <==> forall i :: i in order ==> ok[i]
  {
  }

  lemma AllArrivedNext(ok: seq<bool>, order: seq<nat>, n: nat)
    requires n < |order| && forall i :: i in order ==> i < |ok|
    ensures order[n] in order && (AllArrived(ok, order, n + 1) <==> AllArrived(ok, order, n) && ok[order[n]])
  {
  }

  /** The artifacts before this one claim different files, and with it they do not. */
  ghost predicate FirstClash(artifacts: seq<QueuedArtifact>, n: nat, resolve: string -> string) {
    && n < |artifacts|
    && Distinct(Owned(JobsFrom(artifacts[..n]), resolve)) && !Distinct(Owned(JobsFrom(artifacts[..n + 1]), resolve))
  }

  lemma ClashInPrefix(artifacts: seq<QueuedArtifact>, n: nat, m: nat, resolve: string -> string)
    requires n < |artifacts| && m <= |artifacts[n].destinations|
    requires !Distinct(Owned(JobsFrom(artifacts[..n]) + ArtifactJobs(artifacts[n])[..m], resolve))
    ensures !Distinct(Owned(JobsFrom(artifacts[..n + 1]), resolve))
  {
    var upTo := artifacts[..n + 1];
    assert upTo[..n] == artifacts[..n] && upTo[n] == artifacts[n];
    ClashIsFinal(upTo, n, m, resolve);
  }

  lemma ClashIsFinal(artifacts: seq<QueuedArtifact>, n: nat, m: nat, resolve: string -> string)
    requires n < |artifacts| && m <= |artifacts[n].destinations|
    requires !Distinct(Owned(JobsFrom(artifacts[..n]) + ArtifactJobs(artifacts[n])[..m], resolve))
    ensures !Distinct(Owned(JobsFrom(artifacts), resolve))
  {
    var part, whole := JobsFrom(artifacts[..n]) + ArtifactJobs(artifacts[n])[..m], JobsFrom(artifacts);
    JobsFromPrefix(artifacts, n + 1);
    assert artifacts[..n + 1][..n] == artifacts[..n];
    var up := JobsFrom(artifacts[..n]) + ArtifactJobs(artifacts[n]);
    assert up == JobsFrom(artifacts[..n + 1]);
    assert part == up[..|part|] == whole[..|up|][..|part|] == whole[..|part|];
    ClashStays(whole, |part|, resolve);
  }

  /** A queue with unique keys and at least one file per artifact that exits 0 leaves every
      artifact `complete` with all its files counted. */
  lemma CleanQueueIsComplete(prior: Records, artifacts: seq<QueuedArtifact>, ok: seq<bool>, order: seq<nat>, n: nat)
    requires Distinct(Keys(artifacts)) && n < |artifacts| && artifacts[n].destinations != []
    requires |ok| == |JobsFrom(artifacts)| && Distinct(order) && forall i: nat :: i in order <==> i < |ok|
    requires forall i :: i in order ==> ok[i]
    ensures artifacts[n].key in RecordsFrom(prior, artifacts)
    ensures var k := |artifacts[n].destinations|;
            After(RecordsFrom(prior, artifacts), JobsFrom(artifacts), ok, order)[artifacts[n].key] == Record(Complete, k, k)
  {
    var jobs, key := JobsFrom(artifacts), artifacts[n].key;
    PreparedRecord(prior, artifacts, n);
    FinalRecord(RecordsFrom(prior, artifacts), jobs, ok, order, key);
    FreshRecord(prior, artifacts, n);
    assert (set i | i in JobsOf(jobs, key) && ok[i]) == JobsOf(jobs, key);
  }

  lemma {:induction false} FreshRecord(prior: Records, artifacts: seq<QueuedArtifact>, n: nat)
    requires Distinct(Keys(artifacts)) && n < |artifacts|
    ensures Get(RecordsFrom(prior, artifacts), artifacts[n].key) == Some(Fresh(artifacts[n]))
  {
    var m := |artifacts| - 1;
    if n < m {
      assert Keys(artifacts)[n] != Keys(artifacts)[m];
      assert forall k :: 0 <= k < m ==> Keys(artifacts[..m])[k] == Keys(artifacts)[k];
      FreshRecord(prior, artifacts[..m], n);
    }
  }

  /** What a pass over artifacts with unique keys records of one that has files, once every job has
      settled, whichever failed: complete exactly when all of its own files arrived, and failed
      exactly when one of them did not. The failures of other artifacts do not count. */
  lemma PassTells(prior: Records, artifacts: seq<QueuedArtifact>, ok: seq<bool>, order: seq<nat>, n: nat)
    requires Distinct(Keys(artifacts)) && n < |artifacts| && artifacts[n].destinations != []
    requires |ok| == |JobsFrom(artifacts)| && Distinct(order) && forall i: nat :: i in order <==> i < |ok|
    ensures artifacts[n].key in RecordsFrom(prior, artifacts)
    ensures var r := After(RecordsFrom(prior, artifacts), JobsFrom(artifacts), ok, order)[artifacts[n].key];
            var mine := JobsOf(JobsFrom(artifacts), artifacts[n].key);
            && r.filesTotal == |artifacts[n].destinations|
            && (r.status == Complete <==> forall i :: i in mine ==> ok[i])
            && (r.status == Failed <==> exists i :: i in mine && !ok[i])
            && r.filesComplete == |set i | i in mine && ok[i]|
  {
    var jobs, key := JobsFrom(artifacts), artifacts[n].key;
    PreparedRecord(prior, artifacts, n);
    FinalRecord(RecordsFrom(prior, artifacts), jobs, ok, order, key);
    FreshRecord(prior, artifacts, n);
  }
}

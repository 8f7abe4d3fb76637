/** What happens when a queue uses an artifact key more than once, which `prepare_jobs` does not
    check (verification/local-coverage-foundation/download_queue.py). */
module QueueKeys {
  import opened Common
  import opened DownloadQueue

  /** Every job has completed, in some order. */
  ghost predicate Finished(jobs: seq<Job>, ok: seq<bool>, order: seq<nat>) {
    |ok| == |jobs| && Distinct(order) && forall i: nat :: i in order <==> i < |jobs|
  }

  /** The final status a key should have: `failed` exactly when one of its files failed, `complete`
      exactly when it has files and all of them arrived. */
  ghost predicate Promised(status: Status, jobs: seq<Job>, ok: seq<bool>, key: string)
    requires |ok| == |jobs|
  {
    && (status == Failed <==> exists i :: i in JobsOf(jobs, key) && !ok[i])
    && (status == Complete <==> JobsOf(jobs, key) != {} && forall i :: i in JobsOf(jobs, key) ==> ok[i])
  }

  /** Whatever fails and whatever the order of completion, the key ends with the right status. */
  ghost predicate KeepsPromise(records: Records, jobs: seq<Job>, key: string)
    requires key in records
  {
    forall ok, order :: Finished(jobs, ok, order) ==> Promised(After(records, jobs, ok, order)[key].status, jobs, ok, key)
  }

  // --- one order that is as good as any: as listed -------------------------------------------

  function UpTo(m: nat): (r: seq<nat>)
    ensures |r| == m && forall i :: 0 <= i < m ==> r[i] == i
  {
    seq(m, i => i)
  }

  lemma UpToNext(m: nat)
    ensures UpTo(m + 1)[..m] == UpTo(m) && UpTo(m + 1)[m] == m
    ensures DoneSet(UpTo(m + 1)) == DoneSet(UpTo(m)) + {m} && m !in DoneSet(UpTo(m))
    ensures forall i: nat :: i in UpTo(m) <==> i < m
  {
    forall i: nat | i < m ensures i in UpTo(m) {
      assert UpTo(m)[i] == i;
    }
    assert UpTo(m + 1) == UpTo(m) + [m];
  }

  lemma UpToIsFinished(jobs: seq<Job>, ok: seq<bool>)
    requires |ok| == |jobs|
    ensures Finished(jobs, ok, UpTo(|jobs|))
  {
    UpToNext(|jobs|);
  }

  /** How many of the first `m` jobs are this key's and succeed. */
  function Arrived(jobs: seq<Job>, ok: seq<bool>, key: string, m: nat): nat
    requires |ok| == |jobs|
  {
    |Successes(jobs, ok, DoneSet(UpTo(m)), key)|
  }

  lemma ArrivedNext(jobs: seq<Job>, ok: seq<bool>, key: string, m: nat)
    requires |ok| == |jobs| && m < |jobs|
    ensures Arrived(jobs, ok, key, m + 1) == Arrived(jobs, ok, key, m) + if jobs[m].key == key && ok[m] then 1 else 0
  {
    UpToNext(m);
    SuccessesGrow(jobs, ok, DoneSet(UpTo(m)), m, key);
  }

  /** The record after the first `m` jobs, completed as listed. */
  function RecordAt(records: Records, jobs: seq<Job>, ok: seq<bool>, key: string, m: nat): Record
    requires |ok| == |jobs| && m <= |jobs| && key in records
  {
    UpToNext(m);
    After(records, jobs, ok, UpTo(m))[key]
  }

  lemma RecordAtNext(records: Records, jobs: seq<Job>, ok: seq<bool>, key: string, m: nat)
    requires |ok| == |jobs| && m < |jobs| && key in records
    ensures RecordAt(records, jobs, ok, key, m + 1) ==
              if jobs[m].key == key then Settled(RecordAt(records, jobs, ok, key, m), ok[m])
              else RecordAt(records, jobs, ok, key, m)
  {
    UpToNext(m);
    UpToNext(m + 1);
  }

  /** When all arrive, the record turns `complete` as soon as the count passes its total, and never
      when the total is zero. */
  lemma {:induction false} AllArrive(records: Records, jobs: seq<Job>, ok: seq<bool>, key: string, total: nat, m: nat)
    requires |ok| == |jobs| && m <= |jobs| && Get(records, key) == Some(Record(Running, 0, total))
    requires forall i :: i in JobsOf(jobs, key) ==> ok[i]
    ensures var n := Arrived(jobs, ok, key, m);
            RecordAt(records, jobs, ok, key, m) == Record(if 0 < total <= n then Complete else Running, n, total)
  {
    if m == 0 {
      assert Successes(jobs, ok, DoneSet(UpTo(0)), key) == {};
    } else {
      AllArrive(records, jobs, ok, key, total, m - 1);
      RecordAtNext(records, jobs, ok, key, m - 1);
      ArrivedNext(jobs, ok, key, m - 1);
      assert jobs[m - 1].key == key ==> m - 1 in JobsOf(jobs, key);
    }
  }

  /** When only the key's first job fails, the record is `failed` at once, but turns `complete`
      when enough of the others arrive. */
  lemma {:induction false} FirstFails(records: Records, jobs: seq<Job>, ok: seq<bool>, key: string, total: nat, first: nat, m: nat)
    requires |ok| == |jobs| && first < m <= |jobs| && Get(records, key) == Some(Record(Running, 0, total))
    requires first in JobsOf(jobs, key) && !ok[first]
    requires forall i :: i in JobsOf(jobs, key) ==> i >= first && (i == first || ok[i])
    ensures var n := Arrived(jobs, ok, key, m);
            RecordAt(records, jobs, ok, key, m) == Record(if 0 < total <= n then Complete else Failed, n, total)
  {
    ArrivedNext(jobs, ok, key, m - 1);
    RecordAtNext(records, jobs, ok, key, m - 1);
    if m - 1 == first {
      NothingYet(records, jobs, ok, key, first);
    } else {
      FirstFails(records, jobs, ok, key, total, first, m - 1);
      assert jobs[m - 1].key == key ==> m - 1 in JobsOf(jobs, key);
    }
  }

  lemma {:induction false} NothingYet(records: Records, jobs: seq<Job>, ok: seq<bool>, key: string, m: nat)
    requires |ok| == |jobs| && m <= |jobs| && key in records
    requires forall i :: i in JobsOf(jobs, key) ==> i >= m
    ensures RecordAt(records, jobs, ok, key, m) == records[key] && Arrived(jobs, ok, key, m) == 0
  {
    if m == 0 {
      assert Successes(jobs, ok, DoneSet(UpTo(0)), key) == {};
    } else {
      NothingYet(records, jobs, ok, key, m - 1);
      RecordAtNext(records, jobs, ok, key, m - 1);
      ArrivedNext(jobs, ok, key, m - 1);
      assert jobs[m - 1].key == key ==> m - 1 in JobsOf(jobs, key);
    }
  }

  lemma {:induction false} FirstOf(jobs: seq<Job>, key: string, m: nat) returns (first: nat)
    requires m in JobsOf(jobs, key)
    ensures first in JobsOf(jobs, key) && forall i :: i in JobsOf(jobs, key) ==> i >= first
  {
    if i :| i in JobsOf(jobs, key) && i < m {
      first := FirstOf(jobs, key, i);
    } else {
      first := m;
    }
  }

  // --- the exact condition --------------------------------------------------------------------

  /** A key nobody works on keeps its record. */
  lemma {:induction false} Untouched(records: Records, jobs: seq<Job>, ok: seq<bool>, order: seq<nat>, key: string)
    requires |ok| == |jobs| && forall i :: i in order ==> i < |jobs|
    requires key in records && JobsOf(jobs, key) == {}
    ensures After(records, jobs, ok, order)[key] == records[key]
  {
    if order != [] {
      var n := |order| - 1;
      assert order[n] in order && forall k :: k in order[..n] ==> k in order;
      Untouched(records, jobs, ok, order[..n], key);
      assert order[n] !in JobsOf(jobs, key);
    }
  }

  lemma RightTotalKeepsPromise(records: Records, jobs: seq<Job>, key: string, total: nat)
    requires Get(records, key) == Some(Record(Running, 0, total))
    requires JobsOf(jobs, key) == {} || total == |JobsOf(jobs, key)|
    ensures KeepsPromise(records, jobs, key)
  {
    forall ok, order | Finished(jobs, ok, order)
      ensures Promised(After(records, jobs, ok, order)[key].status, jobs, ok, key)
    {
      if JobsOf(jobs, key) == {} {
        Untouched(records, jobs, ok, order, key);
      } else {
        FinalRecord(records, jobs, ok, order, key);
      }
    }
  }

  /** With a total that is zero or too large, not even a full success completes the key. */
  lemma NeverComplete(records: Records, jobs: seq<Job>, key: string, total: nat)
    requires Get(records, key) == Some(Record(Running, 0, total))
    requires JobsOf(jobs, key) != {} && (total == 0 || total > |JobsOf(jobs, key)|)
    ensures !KeepsPromise(records, jobs, key)
  {
    var ok := seq(|jobs|, _ => true);
    AllArrive(records, jobs, ok, key, total, |jobs|);
    UpToNext(|jobs|);
    UpToIsFinished(jobs, ok);
    assert Successes(jobs, ok, DoneSet(UpTo(|jobs|)), key) == JobsOf(jobs, key);
    var end := After(records, jobs, ok, UpTo(|jobs|))[key].status;
    assert !Promised(end, jobs, ok, key);
  }

  /** With a total that is too small, a failure can be painted over. */
  lemma FailureIsForgotten(records: Records, jobs: seq<Job>, key: string, total: nat)
    requires Get(records, key) == Some(Record(Running, 0, total))
    requires 0 < total < |JobsOf(jobs, key)|
    ensures !KeepsPromise(records, jobs, key)
  {
    var mine := JobsOf(jobs, key);
    var some :| some in mine;
    var first := FirstOf(jobs, key, some);
    var ok := seq(|jobs|, i => i != first);
    FirstFails(records, jobs, ok, key, total, first, |jobs|);
    UpToNext(|jobs|);
    UpToIsFinished(jobs, ok);
    assert Successes(jobs, ok, DoneSet(UpTo(|jobs|)), key) == mine - {first};
    var end := After(records, jobs, ok, UpTo(|jobs|))[key].status;
    assert end == Complete && !Promised(end, jobs, ok, key);
  }

  /** The status of a key comes out right, whatever fails and in whatever order, exactly when its
      record counts the key's files. */
  lemma PromiseIff(records: Records, jobs: seq<Job>, key: string, total: nat)
    requires Get(records, key) == Some(Record(Running, 0, total))
    ensures KeepsPromise(records, jobs, key) <==> JobsOf(jobs, key) == {} || total == |JobsOf(jobs, key)|
  {
    if JobsOf(jobs, key) == {} || total == |JobsOf(jobs, key)| {
      RightTotalKeepsPromise(records, jobs, key, total);
    } else if total == 0 || total > |JobsOf(jobs, key)| {
      NeverComplete(records, jobs, key, total);
    } else {
      FailureIsForgotten(records, jobs, key, total);
    }
  }

  // --- as a check on the queue -------------------------------------------------------------------

  /** The files listed under a key, over all artifacts that have it. */
  function KeyFiles(artifacts: seq<QueuedArtifact>, key: string): nat {
    if artifacts == [] then 0
    else
      var last := artifacts[|artifacts| - 1];
      KeyFiles(artifacts[..|artifacts| - 1], key) + if last.key == key then |last.destinations| else 0
  }

  /** The files of the last artifact that has the key. */
  function LastFiles(artifacts: seq<QueuedArtifact>, key: string): nat {
    if artifacts == [] then 0
    else
      var last := artifacts[|artifacts| - 1];
      if last.key == key then |last.destinations| else LastFiles(artifacts[..|artifacts| - 1], key)
  }

  lemma {:induction false} KeyFilesAreJobs(artifacts: seq<QueuedArtifact>, key: string)
    ensures |JobsOf(JobsFrom(artifacts), key)| == KeyFiles(artifacts, key)
  {
    if artifacts == [] {
      assert JobsOf([], key) == {};
    } else {
      var front, last := artifacts[..|artifacts| - 1], artifacts[|artifacts| - 1];
      KeyFilesAreJobs(front, key);
      JobsOfArtifact(JobsFrom(front), last, |last.destinations|, key);
      assert ArtifactJobs(last)[..|last.destinations|] == ArtifactJobs(last);
    }
  }

  lemma {:induction false} LastFilesAreTheTotal(prior: Records, artifacts: seq<QueuedArtifact>, key: string)
    requires key in Keys(artifacts)
    ensures Get(RecordsFrom(prior, artifacts), key) == Some(Record(Running, 0, LastFiles(artifacts, key)))
  {
    var m := |artifacts| - 1;
    if artifacts[m].key != key {
      var k :| 0 <= k < |artifacts| && Keys(artifacts)[k] == key;
      assert Keys(artifacts[..m])[k] == key;
      LastFilesAreTheTotal(prior, artifacts[..m], key);
    }
  }

  /** A queue gets the status of a key right, for every outcome and every order, exactly when the
      last artifact with that key lists as many files as all artifacts with it together. Unique
      keys are the usual way to have that, and repeated keys have it only when every artifact
      but the last is empty. */
  lemma QueuePromiseIff(prior: Records, artifacts: seq<QueuedArtifact>, key: string)
    requires key in Keys(artifacts)
    ensures key in RecordsFrom(prior, artifacts)
    ensures KeepsPromise(RecordsFrom(prior, artifacts), JobsFrom(artifacts), key) <==>
              LastFiles(artifacts, key) == KeyFiles(artifacts, key)
  {
    LastFilesAreTheTotal(prior, artifacts, key);
    KeyFilesAreJobs(artifacts, key);
    PromiseIff(RecordsFrom(prior, artifacts), JobsFrom(artifacts), key, LastFiles(artifacts, key));
    LastIsNoMore(artifacts, key);
  }

  lemma {:induction false} LastIsNoMore(artifacts: seq<QueuedArtifact>, key: string)
    ensures LastFiles(artifacts, key) <= KeyFiles(artifacts, key)
  {
    if artifacts != [] {
      LastIsNoMore(artifacts[..|artifacts| - 1], key);
    }
  }

  /** Unique keys are enough. */
  lemma UniqueKeysKeepPromise(prior: Records, artifacts: seq<QueuedArtifact>, n: nat)
    requires Distinct(Keys(artifacts)) && n < |artifacts|
    ensures artifacts[n].key in RecordsFrom(prior, artifacts)
    ensures KeepsPromise(RecordsFrom(prior, artifacts), JobsFrom(artifacts), artifacts[n].key)
  {
    PreparedRecord(prior, artifacts, n);
    RightTotalKeepsPromise(RecordsFrom(prior, artifacts), JobsFrom(artifacts), artifacts[n].key,
                           |JobsOf(JobsFrom(artifacts), artifacts[n].key)|);
  }
}

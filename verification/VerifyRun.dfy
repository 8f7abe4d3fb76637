/** One verification run (`run`, `conclude`, `verdict` in rust/src/verification.rs and `Summary`
    in rust/src/verify.rs): lock, check in inventory order, confirm, count and publish. */
module VerifyRun {
  import opened Common
  import opened Artifact
  import opened HostileHost
  import opened VerifyFile

  const EXIT_OK: nat := 0
  const EXIT_INTEGRITY: nat := 1
  const EXIT_CANT_CREATE: nat := 73
  const EXIT_IO: nat := 74
  const EXIT_LOCKED: nat := 75
  const EXIT_SIGNAL_BASE: nat := 128

  datatype FileResult = FileResult(file: ArtifactFile, outcome: Outcome)

  /** The artifacts a run covers, each a list of files, in inventory order. */
  type Items = seq<seq<ArtifactFile>>

  function FilesOf(items: Items): seq<ArtifactFile> {
    if items == [] then [] else items[0] + FilesOf(items[1..])
  }

  lemma {:induction false} FilesOfSnoc(items: Items, last: seq<ArtifactFile>)
    ensures FilesOf(items + [last]) == FilesOf(items) + last
  {
    if items == [] {
      assert ([] + [last])[1..] == [];
    } else {
      FilesOfSnoc(items[1..], last);
      assert (items + [last])[1..] == items[1..] + [last];
    }
  }

  // --- the summary ---------------------------------------------------------------

  datatype Summary = Summary(files: nat, verifiedSha256: nat, sizeOnly: nat, missing: nat, sizeMismatch: nat,
                             sha256Mismatch: nat, unreadable: nat, unsafePath: nat, changed: nat, notChecked: nat)
  {
    /** `Summary::record` */
    function Recorded(o: Outcome): Summary {
      var s := this.(files := files + 1);
      match o
      case VerifiedSha256(_, _) => s.(verifiedSha256 := verifiedSha256 + 1)
      case SizeOnlyNoPublishedHash(_) => s.(sizeOnly := sizeOnly + 1)
      case Missing => s.(missing := missing + 1)
      case SizeMismatch(_, _) => s.(sizeMismatch := sizeMismatch + 1)
      case Sha256Mismatch(_, _) => s.(sha256Mismatch := sha256Mismatch + 1)
      case Unreadable(_) => s.(unreadable := unreadable + 1)
      case UnsafePath => s.(unsafePath := unsafePath + 1)
      case ChangedDuringRead => s.(changed := changed + 1)
      case NotChecked(_) => s.(notChecked := notChecked + 1)
    }

    function Counted(): nat {
      verifiedSha256 + sizeOnly + missing + sizeMismatch + sha256Mismatch + unreadable + unsafePath + changed + notChecked
    }

    function ExitCode(): nat {
      if unreadable > 0 then EXIT_IO
      else if missing + sizeMismatch + sha256Mismatch + unsafePath + changed > 0 then EXIT_INTEGRITY
      else EXIT_OK
    }
  }

  const NO_FILES: Summary := Summary(0, 0, 0, 0, 0, 0, 0, 0, 0, 0)

  function Tally(results: seq<FileResult>): Summary {
    if results == [] then NO_FILES
    else Tally(results[..|results| - 1]).Recorded(results[|results| - 1].outcome)
  }

  predicate Good(o: Outcome) { o.VerifiedSha256? || o.SizeOnlyNoPublishedHash? }

  lemma Snoc(results: seq<FileResult>, r: FileResult)
    requires results != []
    ensures r in results <==> r in results[..|results| - 1] || r == results[|results| - 1]
  {
    assert results == results[..|results| - 1] + [results[|results| - 1]];
  }

  /** The counters add up to the files. */
  lemma {:induction false} TallyCounts(results: seq<FileResult>)
    ensures Tally(results).files == |results| == Tally(results).Counted()
  {
    if results != [] {
      TallyCounts(results[..|results| - 1]);
    }
  }

  /** How many results have an outcome of a kind. */
  ghost function CountOf(results: seq<FileResult>, kind: Outcome -> bool): nat {
    if results == [] then 0
    else CountOf(results[..|results| - 1], kind) + if kind(results[|results| - 1].outcome) then 1 else 0
  }

  /** Each counter is the number of results with its outcome. */
  lemma {:induction false} TallyIs(results: seq<FileResult>)
    ensures var t := Tally(results);
            && t.verifiedSha256 == CountOf(results, (o: Outcome) => o.VerifiedSha256?)
            && t.sizeOnly == CountOf(results, (o: Outcome) => o.SizeOnlyNoPublishedHash?)
            && t.missing == CountOf(results, (o: Outcome) => o.Missing?)
            && t.sizeMismatch == CountOf(results, (o: Outcome) => o.SizeMismatch?)
            && t.sha256Mismatch == CountOf(results, (o: Outcome) => o.Sha256Mismatch?)
            && t.unreadable == CountOf(results, (o: Outcome) => o.Unreadable?)
            && t.unsafePath == CountOf(results, (o: Outcome) => o.UnsafePath?)
            && t.changed == CountOf(results, (o: Outcome) => o.ChangedDuringRead?)
            && t.notChecked == CountOf(results, (o: Outcome) => o.NotChecked?)
  {
    if results != [] {
      TallyIs(results[..|results| - 1]);
    }
  }

  lemma {:induction false} TallyNotChecked(results: seq<FileResult>)
    ensures Tally(results).notChecked == 0 <==> forall r :: r in results ==> !r.outcome.NotChecked?
  {
    if results != [] {
      TallyNotChecked(results[..|results| - 1]);
      forall r ensures r in results <==> r in results[..|results| - 1] || r == results[|results| - 1] {
        Snoc(results, r);
      }
    }
  }

  /** The exit status that the results call for: 74 if a file could not be read, else 1 if one is
      missing, wrong, unsafe or changed, or a loaded file is unaccounted for, else 0. */
  ghost predicate StatusFor(results: seq<FileResult>, unaccounted: nat, code: nat) {
    && (code == 74 <==> exists r :: r in results && r.outcome.Unreadable?)
    && (code == 0 <==> unaccounted == 0 && forall r :: r in results ==> Good(r.outcome) || r.outcome.NotChecked?)
    && code in {0, 1, 74}
  }

  lemma {:induction false} TallyExit(results: seq<FileResult>)
    ensures StatusFor(results, 0, Tally(results).ExitCode())
  {
    if results != [] {
      TallyExit(results[..|results| - 1]);
      forall r ensures r in results <==> r in results[..|results| - 1] || r == results[|results| - 1] {
        Snoc(results, r);
      }
    }
  }

  /** The verdict on a run is that status. */
  lemma VerdictIsStatus(results: seq<FileResult>, unaccounted: nat)
    ensures StatusFor(results, unaccounted, Verdict(Tally(results), unaccounted))
  {
    TallyExit(results);
  }

  // --- the run ---------------------------------------------------------------------

  datatype LockAnswer = Taken | Held | Replaced | NotRegular | LockIo

  function LockExit(a: LockAnswer): nat {
    if a == Held || a == Replaced then EXIT_LOCKED else EXIT_IO
  }

  datatype RunState = Complete | Interrupted | RefusedLocked | LockFailed | Aborted

  datatype RunReport = RunReport(state: RunState, taken: seq<string>, results: seq<FileResult>, summary: Summary,
                                 interruptedBy: Option<nat>, reportFailed: bool, verdict: Option<nat>, exitCode: nat)

  function Verdict(summary: Summary, unaccounted: nat): nat {
    if summary.ExitCode() == EXIT_OK && unaccounted > 0 then EXIT_INTEGRITY else summary.ExitCode()
  }

  function SignalExit(signal: nat): nat {
    if EXIT_SIGNAL_BASE + signal <= 255 then EXIT_SIGNAL_BASE + signal else 255
  }

  /** `conclude`: the exit status a report ends with, 73 in place of the verdict's own when a wanted
      report could not be written. */
  function Conclude(report: RunReport, code: nat, wantsReport: bool, published: bool): RunReport {
    if wantsReport && !published then
      report.(verdict := Some(code), reportFailed := true, exitCode := EXIT_CANT_CREATE)
    else report.(verdict := Some(code), exitCode := code)
  }

  /** Take every lock in order, or none: the first refusal lets go of all taken before it. */
  method AcquireAll(locks: seq<string>, answers: seq<LockAnswer>) returns (held: seq<string>, refused: Option<LockAnswer>, taken: seq<string>)
    requires |answers| == |locks|
    ensures refused == None ==> held == taken == locks && forall j :: 0 <= j < |locks| ==> answers[j] == Taken
    ensures refused.Some? ==>
              && held == [] && refused.value != Taken
              && taken <= locks && |taken| < |locks| && answers[|taken|] == refused.value
              && forall j :: 0 <= j < |taken| ==> answers[j] == Taken
  {
    held, refused, taken := [], None, [];
    for j := 0 to |locks|
      invariant held == taken == locks[..j] && forall i :: 0 <= i < j ==> answers[i] == Taken
    {
      if answers[j] != Taken {
        return [], Some(answers[j]), taken;
      }
      taken := taken + [locks[j]];
      held := held + [locks[j]];
    }
  }

  /** An outcome that speaks of the path was true of the path at a moment in this stretch of
      the host's history. */
  ghost predicate TrueWithin(history: seq<World>, from: nat, file: ArtifactFile, o: Outcome, sha: Hash) {
    match o
    case VerifiedSha256(id, _) => NamedWithin(history, from, file, id, sha)
    case SizeOnlyNoPublishedHash(id) => NamedWithin(history, from, file, id, sha)
    case Missing => exists t :: from <= t < |history| && file.destination !in history[t].paths
    case _ => true
  }

  ghost predicate NamedWithin(history: seq<World>, from: nat, file: ArtifactFile, id: Identity, sha: Hash) {
    exists t :: from <= t < |history| && NamesMatching(history[t], file, id, sha)
  }

  ghost predicate NamesMatching(w: World, file: ArtifactFile, id: Identity, sha: Hash) {
    Names(w, file.destination, id) && id in w.states && Matches(w.states[id], file.record, sha)
  }

  lemma TrueWithinLonger(history: seq<World>, longer: seq<World>, from: nat, file: ArtifactFile, o: Outcome, sha: Hash)
    requires TrueWithin(history, from, file, o, sha) && history <= longer
    ensures TrueWithin(longer, from, file, o, sha)
  {
    match o
    case VerifiedSha256(id, _) =>
      var t :| from <= t < |history| && NamesMatching(history[t], file, id, sha);
      assert NamesMatching(longer[t], file, id, sha);
    case SizeOnlyNoPublishedHash(id) =>
      var t :| from <= t < |history| && NamesMatching(history[t], file, id, sha);
      assert NamesMatching(longer[t], file, id, sha);
    case Missing =>
      var t :| from <= t < |history| && file.destination !in history[t].paths;
      assert file.destination !in longer[t].paths;
    case _ =>
  }

  /** What each check leaves in the report: a verdict that is justified, and for a missing file
      a moment when it was missing. */
  ghost predicate Checked(w: World, history: seq<World>, r: FileResult, sha: Hash) {
    && Justified(w, r.file, r.outcome, sha)
    && (r.outcome == Missing ==> TrueWithin(history, 0, r.file, Missing, sha))
  }

  lemma CheckedForGood(w: World, v: World, history: seq<World>, longer: seq<World>, results: seq<FileResult>, sha: Hash)
    requires Evolves(w, v) && history <= longer
    requires forall r :: r in results ==> Checked(w, history, r, sha)
    ensures forall r :: r in results ==> Checked(v, longer, r, sha)
  {
    forall r | r in results ensures Checked(v, longer, r, sha) {
      JustifiedForGood(w, v, r.file, r.outcome, sha);
      if r.outcome == Missing {
        TrueWithinLonger(history, longer, 0, r.file, Missing, sha);
      }
    }
  }

  /** Every outcome is the one the files deserve. */
  ghost predicate AsJudged(w: World, results: seq<FileResult>, sha: Hash)
    requires WellFormed(w)
  {
    forall r :: r in results ==> r.outcome == Judge(w, r.file, sha)
  }

  /** At some moment in this stretch the path did not show what the outcome says. */
  ghost predicate OtherWithin(history: seq<World>, from: nat, file: ArtifactFile, o: Outcome) {
    exists t :: from <= t < |history| && Other(history[t], file, o)
  }

  ghost predicate Other(w: World, file: ArtifactFile, o: Outcome) {
    if HasIdentity(o) then !Names(w, file.destination, o.identity) else o == Missing && file.destination in w.paths
  }

  /** Not-checked results only at the end. */
  ghost predicate NotCheckedIsSuffix(results: seq<FileResult>) {
    forall i, j :: 0 <= i < j < |results| && results[i].outcome.NotChecked? ==> results[j].outcome.NotChecked?
  }

  /** One file of the check loop: nothing is started once a signal has been seen. */
  method CheckOne(host: Host, file: ArtifactFile, seen: Option<nat>, buffer: nat, sha: Hash)
    returns (r: FileResult, signal: Option<nat>)
    requires host.Valid() && buffer > 0 && (seen.Some? ==> host.signal.Some?)
    modifies host
    ensures host.Valid() && Evolves(old(host.world), host.world) && old(host.history) <= host.history
    ensures r.file == file && Checked(host.world, host.history, r, sha)
    ensures old(host.signal).Some? ==> host.signal.Some?
    ensures signal.Some? ==> host.signal.Some? && r.outcome.NotChecked?
    ensures seen.Some? ==> signal == seen
    ensures old(host.signal).Some? ==> signal.Some?
    ensures r.outcome.NotChecked? ==> host.signal.Some?
    ensures signal.Some? ==> r.outcome == NotChecked(signal.value) && host.world == old(host.world)
    ensures Smooth(old(host.script)) && old(host.signal) == None && seen == None ==>
              && host.world == old(host.world) && Smooth(host.script) && host.signal == None && signal == None
              && r.outcome == Judge(old(host.world), file, sha)
  {
    signal := if seen.Some? then seen else host.signal;
    if signal.Some? {
      return FileResult(file, NotChecked(signal.value)), signal;
    }
    var o := VerifyFileWith(host, file, buffer, sha);
    r := FileResult(file, o);
    if o == Missing {
      ghost var t := |host.history| - 1;
      assert file.destination !in host.history[t].paths;
    }
  }

  /** The check loop over artifacts and their files. */
  method CheckAll(host: Host, items: Items, buffer: nat, sha: Hash) returns (results: seq<FileResult>, signal: Option<nat>)
    requires host.Valid() && buffer > 0
    modifies host
    ensures host.Valid() && Evolves(old(host.world), host.world) && old(host.history) <= host.history
    ensures |results| == |FilesOf(items)| && forall k :: 0 <= k < |results| ==> results[k].file == FilesOf(items)[k]
    ensures forall r :: r in results ==> Checked(host.world, host.history, r, sha)
    ensures NotCheckedIsSuffix(results)
    ensures signal.Some? ==> host.signal.Some?
    ensures (exists r :: r in results && r.outcome.NotChecked?) ==> host.signal.Some?
    ensures Smooth(old(host.script)) && old(host.signal) == None ==>
              && host.world == old(host.world) && Smooth(host.script) && host.signal == None && signal == None
              && AsJudged(host.world, results, sha)
  {
    hide Justified, TrueWithin, Judge;
    results, signal := [], None;
    for a := 0 to |items|
      invariant host.Valid() && Evolves(old(host.world), host.world) && old(host.history) <= host.history
      invariant |results| == |FilesOf(items[..a])|
      invariant forall k :: 0 <= k < |results| ==> results[k].file == FilesOf(items[..a])[k]
      invariant forall r :: r in results ==> Checked(host.world, host.history, r, sha)
      invariant NotCheckedIsSuffix(results) && (signal.Some? ==> host.signal.Some?)
      invariant forall r :: r in results && r.outcome.NotChecked? ==> host.signal.Some?
      invariant Smooth(old(host.script)) && old(host.signal) == None ==>
                  && host.world == old(host.world) && Smooth(host.script) && host.signal == None && signal == None
                  && AsJudged(host.world, results, sha)
    {
      ghost var done := results;
      for f := 0 to |items[a]|
        invariant host.Valid() && Evolves(old(host.world), host.world) && old(host.history) <= host.history
        invariant |results| == |done| + f && done <= results
        invariant forall k :: 0 <= k < f ==> results[|done| + k].file == items[a][k]
        invariant forall r :: r in results ==> Checked(host.world, host.history, r, sha)
        invariant NotCheckedIsSuffix(results) && (signal.Some? ==> host.signal.Some?)
        invariant forall r :: r in results && r.outcome.NotChecked? ==> host.signal.Some?
        invariant Smooth(old(host.script)) && old(host.signal) == None ==>
                    && host.world == old(host.world) && Smooth(host.script) && host.signal == None && signal == None
                    && AsJudged(host.world, results, sha)
      {
        ghost var w, h, stopped := host.world, host.history, host.signal;
        var r;
        r, signal := CheckOne(host, items[a][f], signal, buffer, sha);
        EvolvesThrough(old(host.world), w, host.world);
        CheckedForGood(w, host.world, h, host.history, results, sha);
        results := results + [r];
      }
      assert items[..a + 1] == items[..a] + [items[a]];
      FilesOfSnoc(items[..a], items[a]);
    }
    assert items[..|items|] == items;
  }

  /** What the closing pass may make of a result: it is kept because it was true of the path in this
      stretch, or given up for what the path showed, or because it could not be looked at. */
  ghost predicate Closed(history: seq<World>, from: nat, before: FileResult, after: FileResult, sha: Hash) {
    && after.file == before.file
    && after.outcome in {before.outcome, ChangedDuringRead, Unreadable("lstat")}
    && TrueWithin(history, from, after.file, after.outcome, sha)
    && (after.outcome == ChangedDuringRead != before.outcome ==> OtherWithin(history, from, before.file, before.outcome))
  }

  lemma ClosedLonger(history: seq<World>, longer: seq<World>, from: nat, before: FileResult, after: FileResult, sha: Hash)
    requires Closed(history, from, before, after, sha) && history <= longer
    ensures Closed(longer, from, before, after, sha)
  {
    TrueWithinLonger(history, longer, from, after.file, after.outcome, sha);
    if OtherWithin(history, from, before.file, before.outcome) {
      var t :| from <= t < |history| && Other(history[t], before.file, before.outcome);
      assert Other(longer[t], before.file, before.outcome);
    }
  }

  /** The closing pass: every outcome is confirmed against the path once more. */
  method CloseWindow(host: Host, results: seq<FileResult>, sha: Hash) returns (confirmed: seq<FileResult>)
    requires host.Valid() && forall r :: r in results ==> Checked(host.world, host.history, r, sha)
    modifies host
    ensures host.Valid() && Evolves(old(host.world), host.world) && old(host.history) <= host.history
    ensures |confirmed| == |results|
    ensures forall k :: 0 <= k < |results| ==> Closed(host.history, |old(host.history)|, results[k], confirmed[k], sha)
    ensures Smooth(old(host.script)) && AsJudged(old(host.world), results, sha) ==>
              confirmed == results && host.world == old(host.world) && host.signal == old(host.signal)
    ensures old(host.signal).Some? ==> host.signal.Some?
  {
    hide Justified, Checked, Closed, AsJudged, Judge;
    confirmed := [];
    for k := 0 to |results|
      invariant host.Valid() && Evolves(old(host.world), host.world) && old(host.history) <= host.history
      invariant |confirmed| == k
      invariant forall j :: 0 <= j < k ==> Closed(host.history, |old(host.history)|, results[j], confirmed[j], sha)
      invariant forall r :: r in results ==> Checked(host.world, host.history, r, sha)
      invariant old(host.signal).Some? ==> host.signal.Some?
      invariant Smooth(old(host.script)) && AsJudged(old(host.world), results, sha) ==>
                  && confirmed == results[..k] && Smooth(host.script)
                  && host.world == old(host.world) && host.signal == old(host.signal)
    {
      ghost var w, h := host.world, host.history;
      assert results[k] in results;
      var r := CloseOne(host, results[k], |old(host.history)|, sha);
      EvolvesThrough(old(host.world), w, host.world);
      CheckedForGood(w, host.world, h, host.history, results, sha);
      forall j | 0 <= j < k ensures Closed(host.history, |old(host.history)|, results[j], confirmed[j], sha) {
        ClosedLonger(h, host.history, |old(host.history)|, results[j], confirmed[j], sha);
      }
      AsJudgedAt(w, results, k, sha);
      confirmed := confirmed + [r];
    }
    assert results[..|results|] == results;
  }

  lemma AsJudgedAt(w: World, results: seq<FileResult>, k: nat, sha: Hash)
    requires WellFormed(w) && k < |results|
    ensures AsJudged(w, results, sha) ==> results[k].outcome == Judge(w, results[k].file, sha)
  {
    assert results[k] in results;
  }

  method CloseOne(host: Host, result: FileResult, ghost from: nat, sha: Hash) returns (r: FileResult)
    requires host.Valid() && Checked(host.world, host.history, result, sha) && from <= |host.history|
    modifies host
    ensures host.Valid() && Evolves(old(host.world), host.world) && old(host.history) <= host.history
    ensures Closed(host.history, from, result, r, sha)
    ensures old(host.signal).Some? ==> host.signal.Some?
    ensures Smooth(old(host.script)) ==> Smooth(host.script) && host.world == old(host.world) && host.signal == old(host.signal)
    ensures Smooth(old(host.script)) && result.outcome == Judge(old(host.world), result.file, sha) ==> r == result
  {
    ghost var h := host.history;
    JudgedIsNamed(host.world, result.file, sha);
    hide Justified, Judge, TrueWithin;
    var o := ConfirmAtWindowClose(host, result.file, result.outcome, sha);
    r := FileResult(result.file, o);
    KeptIsTrue(host.world, h, host.history, from, result.file, o, sha);
    if o == ChangedDuringRead != result.outcome {
      assert Other(host.history[|h|], result.file, result.outcome);
    }
  }

  lemma KeptIsTrue(w: World, h: seq<World>, longer: seq<World>, from: nat, file: ArtifactFile, o: Outcome, sha: Hash)
    requires from <= |h| && h <= longer
    requires o.VerifiedSha256? || o.SizeOnlyNoPublishedHash? ==> NamesMatching(w, file, o.identity, sha)
    requires o == Missing ==> file.destination !in w.paths
    requires o.VerifiedSha256? || o.SizeOnlyNoPublishedHash? || o == Missing ==>
               |h| < |longer| && longer[|longer| - 1] == w
    ensures TrueWithin(longer, from, file, o, sha)
  {
    var t := |longer| - 1;
    if o.VerifiedSha256? || o.SizeOnlyNoPublishedHash? {
      assert NamesMatching(longer[t], file, o.identity, sha);
    } else if o == Missing {
      assert file.destination !in longer[t].paths;
    }
  }

  /** What a run has established by the time it ends, once its checks have begun. */
  ghost predicate Established(report: RunReport, items: Items, unaccounted: nat, wantsReport: bool, published: bool) {
    && |report.results| == |FilesOf(items)|
    && (forall k :: 0 <= k < |report.results| ==> report.results[k].file == FilesOf(items)[k])
    && report.summary == Tally(report.results)
    && NotCheckedIsSuffix(report.results)
    && (report.state == Complete || report.state == Interrupted)
    && (report.state == Complete ==>
          && report.interruptedBy == None && report.verdict.Some?
          && StatusFor(report.results, unaccounted, report.verdict.value)
          && forall r :: r in report.results ==> !r.outcome.NotChecked?)
    && (report.state == Interrupted ==>
          report.interruptedBy.Some? && report.verdict == Some(SignalStatus(report.interruptedBy.value)))
    && (report.exitCode == 0 <==>
          && report.state == Complete && (wantsReport ==> published) && unaccounted == 0
          && forall r :: r in report.results ==> Good(r.outcome))
  }

  /** 128 and the signal's number, as far as an exit status goes. */
  ghost function SignalStatus(n: nat): nat { if n < 127 then 128 + n else 255 }

  /** The status is the verdict, or 73 when a wanted report could not be written at the end. */
  ghost predicate ExitsWith(report: RunReport, verdict: nat, wantsReport: bool, published: bool) {
    && report.verdict == Some(verdict)
    && (report.reportFailed <==> wantsReport && !published)
    && report.exitCode == if wantsReport && !published then 73 else verdict
  }

  ghost predicate AllTaken(answers: seq<LockAnswer>) { forall j :: 0 <= j < |answers| ==> answers[j] == Taken }

  /** `run`: lock everything or nothing, publish, check, confirm, count and publish. `answers`
      is what each lock says, `firstPublish` and `lastPublish` whether the report could be
      written. `started` tells whether any artifact was examined; `closing` is where in the
      host's history the window began to close. */
  method Run(host: Host, locks: seq<string>, answers: seq<LockAnswer>, items: Items, unaccounted: nat,
             wantsReport: bool, firstPublish: bool, lastPublish: bool, buffer: nat, sha: Hash)
    returns (report: RunReport, started: bool, ghost closing: nat)
    requires host.Valid() && buffer > 0 && |answers| == |locks|
    modifies host
    ensures host.Valid()
    // Nothing is examined unless every lock is held.
    ensures started <==> old(host.signal) == None && AllTaken(answers) && (wantsReport ==> firstPublish)
    ensures started ==> report.taken == locks
    ensures !started ==> report.results == [] && report.exitCode != 0 && report.state != Complete
    ensures !started ==> host.world == old(host.world)
    // How a run that examines nothing ends.
    ensures old(host.signal).Some? ==>
              && report.state == Interrupted && report.interruptedBy == old(host.signal) && report.taken == []
              && ExitsWith(report, SignalStatus(old(host.signal).value), wantsReport, lastPublish)
    ensures old(host.signal) == None && !AllTaken(answers) ==>
              && report.taken <= locks && |report.taken| < |locks| && answers[|report.taken|] != Taken
              && (forall j :: 0 <= j < |report.taken| ==> answers[j] == Taken)
              && var locked := answers[|report.taken|] in {Held, Replaced};
              && report.state == (if locked then RefusedLocked else LockFailed)
              && ExitsWith(report, if locked then 75 else 74, wantsReport, lastPublish)
    ensures old(host.signal) == None && AllTaken(answers) && wantsReport && !firstPublish ==>
              report.state == Aborted && report.reportFailed && report.verdict == None && report.exitCode == 73
    ensures started ==> Established(report, items, unaccounted, wantsReport, lastPublish)
    ensures started ==> report.verdict.Some? && ExitsWith(report, report.verdict.value, wantsReport, lastPublish)
    ensures report.state == Interrupted ==> host.signal.Some?
    // What a complete run reports was true of every path as the window closed.
    ensures report.state == Complete ==>
              forall r :: r in report.results ==> TrueWithin(host.history, closing, r.file, r.outcome, sha)
    // A run that nobody disturbs and whose calls all work is complete and says what the files deserve.
    ensures started && Smooth(old(host.script)) ==>
              report.state == Complete && host.world == old(host.world) && AsJudged(host.world, report.results, sha)
  {
    report := RunReport(Aborted, [], [], NO_FILES, None, false, None, EXIT_CANT_CREATE);
    started, closing := false, 0;
    if host.signal.Some? {
      var signal := host.signal.value;
      report := Conclude(report.(state := Interrupted, interruptedBy := Some(signal)), SignalExit(signal), wantsReport, lastPublish);
      return;
    }
    var held, refused, taken := AcquireAll(locks, answers);
    report := report.(taken := taken);
    if refused.Some? {
      var code := LockExit(refused.value);
      var state := if code == EXIT_LOCKED then RefusedLocked else LockFailed;
      report := Conclude(report.(state := state), code, wantsReport, lastPublish);
      return;
    }
    if wantsReport && !firstPublish {
      report := report.(reportFailed := true);
      return;
    }
    started := true;
    report, closing := Examine(host, report, items, unaccounted, wantsReport, lastPublish, buffer, sha);
  }

  /** The run once every lock is held and the first report is out. */
  method Examine(host: Host, begun: RunReport, items: Items, unaccounted: nat, wantsReport: bool, lastPublish: bool, buffer: nat, sha: Hash)
    returns (report: RunReport, ghost closing: nat)
    requires host.Valid() && buffer > 0 && host.signal == None && !begun.reportFailed && begun.interruptedBy == None
    modifies host
    ensures host.Valid() && report.taken == begun.taken
    ensures Established(report, items, unaccounted, wantsReport, lastPublish)
    ensures report.verdict.Some? && ExitsWith(report, report.verdict.value, wantsReport, lastPublish)
    ensures report.state == Interrupted ==> host.signal.Some?
    ensures report.state == Complete ==>
              forall r :: r in report.results ==> TrueWithin(host.history, closing, r.file, r.outcome, sha)
    ensures Smooth(old(host.script)) ==>
              report.state == Complete && host.world == old(host.world) && AsJudged(host.world, report.results, sha)
  {
    hide Judge, TrueWithin, StatusFor, Tally, AsJudged;
    report, closing := begun, 0;
    var results, signal := CheckAll(host, items, buffer, sha);
    signal := if signal.Some? then signal else host.signal;
    if signal == None {
      closing := |host.history|;
      ghost var before := results;
      results := CloseWindow(host, results, sha);
      NothingUnchecked(before, results);
    }
    VerdictIsStatus(results, unaccounted);
    var summary := Tally(results);
    if signal.Some? {
      report := report.(state := Interrupted, interruptedBy := signal, results := results, summary := summary);
      report := Conclude(report, SignalExit(signal.value), wantsReport, lastPublish);
    } else {
      StatusZero(results, unaccounted, Verdict(summary, unaccounted));
      report := report.(state := Complete, results := results, summary := summary);
      report := Conclude(report, Verdict(summary, unaccounted), wantsReport, lastPublish);
    }
  }

  lemma StatusZero(results: seq<FileResult>, unaccounted: nat, code: nat)
    requires StatusFor(results, unaccounted, code) && forall r :: r in results ==> !r.outcome.NotChecked?
    ensures code == 0 <==> unaccounted == 0 && forall r :: r in results ==> Good(r.outcome)
  {
  }

  lemma NothingUnchecked(before: seq<FileResult>, after: seq<FileResult>)
    requires |after| == |before| && forall r :: r in before ==> !r.outcome.NotChecked?
    requires forall k :: 0 <= k < |before| ==> after[k].outcome in {before[k].outcome, ChangedDuringRead, Unreadable("lstat")}
    ensures forall r :: r in after ==> !r.outcome.NotChecked?
    ensures NotCheckedIsSuffix(after)
  {
    forall k | 0 <= k < |after| ensures !after[k].outcome.NotChecked? {
      assert before[k] in before;
    }
  }
}

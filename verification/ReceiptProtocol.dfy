/** One receipt and any number of callers of `run_cached`, interleaved step by step, any of which
    may crash anywhere (verification/qualification-supervisor/qualification_cache.py). Receipts
    of different gates or models have different files and different locks, so one is enough. */
module ReceiptProtocol {
  import opened Common
  import opened Receipts

  type Pid = nat

  /** `Inside`: holds the lock. `Dispatched`: has revoked the receipt it found and is running.
      `Reporting`: the run has returned. `Over`: gone, with the lock released. */
  datatype Caller =
    | Inside(key: Option<string>, force: bool, components: Option<map<string, string>>)
    | Dispatched(key: Option<string>, components: Option<map<string, string>>, found: Option<Receipt>)
    | Reporting(key: Option<string>, components: Option<map<string, string>>, found: Option<Receipt>, result: Option<GateResult>)
    | Over

  /** `log` is what happened, for the specification; no step reads it. */
  datatype State = State(receipt: Option<Receipt>, owner: Option<Pid>, callers: map<Pid, Caller>, log: seq<Attempt>)

  datatype Label =
    | Enter(p: Pid, key: Option<string>, force: bool, components: Option<map<string, string>>)
    | Answer(p: Pid)
    | Refuse(p: Pid)
    | Dispatch(p: Pid, now: int)
    | Return(p: Pid, result: Option<GateResult>)
    | Finish(p: Pid, now: int)
    | Crash(p: Pid)

  predicate SaysBlocked(result: Option<GateResult>) { result.Some? && StatesBlocked(result.value) }

  function Gone(s: State, p: Pid): State {
    s.(callers := s.callers[p := Over], owner := if s.owner == Some(p) then None else s.owner)
  }

  ghost predicate Next(s: State, t: State, l: Label) {
    match l
    case Enter(p, key, force, components) =>
      && p !in s.callers
      && t == if s.owner.Some? then s.(callers := s.callers[p := Over])
              else s.(owner := Some(p), callers := s.callers[p := Inside(key, force, components)])
    case Answer(p) =>
      && p in s.callers && s.callers[p].Inside?
      && Reuse(s.receipt, s.callers[p].key, s.callers[p].force).Some?
      && t == Gone(s, p)
    case Refuse(p) =>
      && p in s.callers && s.callers[p].Inside?
      && Reuse(s.receipt, s.callers[p].key, s.callers[p].force).None?
      && t == Gone(s, p)
    case Dispatch(p, now) =>
      && p in s.callers && s.callers[p].Inside?
      && Reuse(s.receipt, s.callers[p].key, s.callers[p].force).None?
      && var c := s.callers[p];
      && t == s.(receipt := Some(Published(s.receipt, c.key, None, c.components, now)),
                 callers := s.callers[p := Dispatched(c.key, c.components, s.receipt)],
                 log := s.log + [Attempt(c.key, None)])
    case Return(p, result) =>
      && p in s.callers && s.callers[p].Dispatched?
      && var c := s.callers[p];
      && t == s.(callers := s.callers[p := Reporting(c.key, c.components, c.found, result)])
    case Finish(p, now) =>
      && p in s.callers && s.callers[p].Reporting? && s.log != []
      && var c := s.callers[p];
      && t == if SaysBlocked(c.result)
              then Gone(s, p).(receipt := c.found, log := s.log[..|s.log| - 1])
              else Gone(s, p).(receipt := Some(Published(s.receipt, c.key, c.result, c.components, now)),
                               log := s.log[..|s.log| - 1] + [Attempt(c.key, c.result)])
    case Crash(p) => p in s.callers && t == Gone(s, p)
  }

  ghost predicate Run(states: seq<State>, labels: seq<Label>) {
    && |states| == |labels| + 1
    && states[0] == State(None, None, map[], [])
    && forall j :: 0 <= j < |labels| ==> Next(states[j], states[j + 1], labels[j])
  }

  /** Only the lock's owner is inside, and the receipt always tells of the attempts; a caller
      that is running also still has, word for word, the receipt that told of those before. */
  ghost predicate Inv(s: State) {
    && Tells(s.receipt, s.log)
    && (forall p :: p in s.callers && s.callers[p] != Over ==> s.owner == Some(p))
    && (forall p :: p in s.callers && (s.callers[p].Dispatched? || s.callers[p].Reporting?) ==> Underway(s, s.callers[p]))
  }

  ghost predicate Underway(s: State, c: Caller)
    requires c.Dispatched? || c.Reporting?
  {
    && s.log != [] && s.log[|s.log| - 1] == Attempt(c.key, None)
    && Tells(c.found, s.log[..|s.log| - 1])
  }

  lemma InvKept(s: State, t: State, l: Label)
    requires Inv(s) && Next(s, t, l)
    ensures Inv(t)
  {
    match l {
      case Dispatch(_, _) => DispatchKeeps(s, t, l);
      case Finish(_, _) => FinishKeeps(s, t, l);
      case _ => OthersKeep(s, t, l);
    }
  }

  lemma OthersKeep(s: State, t: State, l: Label)
    requires Inv(s) && Next(s, t, l) && !l.Dispatch? && !l.Finish?
    ensures Inv(t)
  {
    hide Tells, Reuse, Published, OutcomeOf;
    forall p | p in t.callers && (t.callers[p].Dispatched? || t.callers[p].Reporting?) ensures Underway(t, t.callers[p]) {
      assert Underway(s, s.callers[p]);
    }
  }

  lemma DispatchKeeps(s: State, t: State, l: Label)
    requires Inv(s) && Next(s, t, l) && l.Dispatch?
    ensures Inv(t)
  {
    hide Tells, Reuse, Published;
    var c := s.callers[l.p];
    PublishedTells(s.receipt, s.log, c.key, c.components, l.now);
    assert t.log[..|t.log| - 1] == s.log;
  }

  lemma FinishKeeps(s: State, t: State, l: Label)
    requires Inv(s) && Next(s, t, l) && l.Finish?
    ensures Inv(t)
  {
    hide Tells, Reuse, Published;
    var c := s.callers[l.p];
    assert Underway(s, c);
    if c.result.None? {
      RepublishedTells(s.receipt, s.log, c.components, l.now);
      assert t.log == s.log;
    } else if !SaysBlocked(c.result) {
      CompletedTells(s.receipt, s.log, c.result.value, c.components, l.now);
    }
  }

  lemma {:induction false} EveryRunTells(states: seq<State>, labels: seq<Label>, j: nat)
    requires Run(states, labels) && j < |states|
    ensures Inv(states[j])
  {
    if j > 0 {
      EveryRunTells(states, labels, j - 1);
      InvKept(states[j - 1], states[j], labels[j - 1]);
    }
  }

  /** The theorem: over every history of concurrent callers with crashes anywhere, asking the
      store at any moment for this key answers exactly when the last attempt that was
      dispatched, and did not end blocked, completed with a pass under this very key. */
  lemma ReuseIsTheLastWord(states: seq<State>, labels: seq<Label>, j: nat, key: Option<string>, force: bool)
    requires Run(states, labels) && j < |states|
    ensures Reuse(states[j].receipt, key, force).Some? <==> !force && IsKey(key) && LastAttemptPassed(states[j].log, key)
    ensures Reuse(states[j].receipt, key, force).Some? ==>
              Reuse(states[j].receipt, key, force) == states[j].log[|states[j].log| - 1].result
    ensures states[j].receipt.Some? && states[j].receipt.value.status != Passed ==>
              states[j].receipt.value.lastPass == MostRecentPass(states[j].log)
  {
    EveryRunTells(states, labels, j);
    TellsReuse(states[j].receipt, states[j].log, key, force);
  }

  /** So a caller is given an old result exactly when it may be, and a test is run, or refused, only when
      it has to be run: because the caller insists, claims no identity, or the last word is not a pass
      for it. */
  lemma RunsOnlyWhenNeeded(states: seq<State>, labels: seq<Label>, j: nat)
    requires Run(states, labels) && j < |labels|
    requires labels[j].Answer? || labels[j].Dispatch? || labels[j].Refuse?
    ensures labels[j].p in states[j].callers && states[j].callers[labels[j].p].Inside?
    ensures var c := states[j].callers[labels[j].p];
            labels[j].Answer? <==> !c.force && IsKey(c.key) && LastAttemptPassed(states[j].log, c.key)
  {
    hide Reuse, LastAttemptPassed, Published;
    assert Next(states[j], states[j + 1], labels[j]);
    var c := states[j].callers[labels[j].p];
    ReuseIsTheLastWord(states, labels, j, c.key, c.force);
  }

  /** Between dispatching and finishing. */
  predicate Running(s: State, p: Pid) {
    p in s.callers && (s.callers[p].Dispatched? || s.callers[p].Reporting?)
  }

  /** While a caller runs, the receipt it will put back is the one it found. */
  lemma {:induction false} FoundIsKept(states: seq<State>, labels: seq<Label>, p: Pid, j: nat, k: nat)
    requires Run(states, labels) && j < k < |states|
    requires labels[j].Dispatch? && labels[j].p == p
    requires Running(states[k], p)
    ensures states[k].callers[p].found == states[j].receipt
    ensures states[k].log == states[j].log + [Attempt(states[k].callers[p].key, None)]
  {
    hide Inv, Next, Running;
    EveryRunTells(states, labels, k - 1);
    var before, l := states[k - 1], labels[k - 1];
    assert Next(before, states[k], l);
    if j < k - 1 {
      assert Next(states[j], states[j + 1], labels[j]);
      DispatchedRuns(states[j], states[j + 1], labels[j]);
      if !Running(before, p) {
        NotRunningAgain(states, labels, p, j + 1, k - 1);
      }
      FoundIsKept(states, labels, p, j, k - 1);
      RunningStays(before, states[k], l, p);
    } else {
      DispatchedRuns(before, states[k], l);
    }
  }

  lemma DispatchedRuns(s: State, t: State, l: Label)
    requires Next(s, t, l) && l.Dispatch?
    ensures Running(t, l.p) && t.callers[l.p].found == s.receipt
    ensures t.log == s.log + [Attempt(t.callers[l.p].key, None)]
  {
    hide Reuse, Published;
  }

  /** While one caller runs, nobody else touches the history, and it keeps what it found. */
  lemma RunningStays(s: State, t: State, l: Label, p: Pid)
    requires Inv(s) && Next(s, t, l) && Running(s, p) && Running(t, p)
    ensures t.callers[p].found == s.callers[p].found && t.callers[p].key == s.callers[p].key && t.log == s.log
  {
    hide Tells, Reuse, Published, OutcomeOf, SaysBlocked;
  }

  /** A caller that has been dispatched and no longer runs is over, and stays so. */
  lemma {:induction false} NotRunningAgain(states: seq<State>, labels: seq<Label>, p: Pid, i: nat, k: nat)
    requires Run(states, labels) && i <= k && k + 1 < |states| && Running(states[i], p) && !Running(states[k], p)
    ensures !Running(states[k + 1], p)
  {
    InsideComesFirst(states, labels, p, i, k);
    assert Next(states[k], states[k + 1], labels[k]);
    OverIsForGood(states, labels, p, k, k + 1);
  }

  /** A caller never goes back: once dispatched it is not inside again, once over it stays over. */
  lemma {:induction false} OverIsForGood(states: seq<State>, labels: seq<Label>, p: Pid, i: nat, k: nat)
    requires Run(states, labels) && i <= k < |states| && p in states[i].callers
    ensures p in states[k].callers
    ensures states[i].callers[p] == Over ==> states[k].callers[p] == Over
  {
    hide Next;
    if i < k {
      OverIsForGood(states, labels, p, i, k - 1);
      NeverBack(states[k - 1], states[k], labels[k - 1], p);
    }
  }

  lemma {:induction false} InsideComesFirst(states: seq<State>, labels: seq<Label>, p: Pid, i: nat, k: nat)
    requires Run(states, labels) && i <= k < |states| && p in states[i].callers && !states[i].callers[p].Inside?
    ensures p in states[k].callers && !states[k].callers[p].Inside?
  {
    hide Next;
    if i < k {
      InsideComesFirst(states, labels, p, i, k - 1);
      NeverBack(states[k - 1], states[k], labels[k - 1], p);
    }
  }

  lemma NeverBack(s: State, t: State, l: Label, p: Pid)
    requires Next(s, t, l) && p in s.callers
    ensures p in t.callers && (s.callers[p] == Over ==> t.callers[p] == Over) && (t.callers[p].Inside? ==> s.callers[p].Inside?)
  {
    hide Reuse, Published, SaysBlocked;
  }

  /** Blocked attempts cost nothing: whatever other callers did meanwhile, a run that reports
      blocked leaves the receipt equal to the one it found, and the history as if it had not
      happened. */
  lemma BlockedSpendsNothing(states: seq<State>, labels: seq<Label>, p: Pid, j: nat, k: nat)
    requires Run(states, labels) && j < k < |labels|
    requires labels[j].Dispatch? && labels[j].p == p
    requires labels[k].Finish? && labels[k].p == p && p in states[k].callers && states[k].callers[p].Reporting?
    requires match states[k].callers[p].result
             case Some(Verdict(stated, _, _)) => stated == Some(Blocked)
             case _ => false
    ensures states[k + 1].receipt == states[j].receipt && states[k + 1].log == states[j].log
  {
    FoundIsKept(states, labels, p, j, k);
    assert Next(states[k], states[k + 1], labels[k]);
  }

  /** Any other run is told of: the history ends with what the caller asked for and what came of it,
      and so does the receipt. A run that returned nothing, or not a verdict, is one of those. */
  lemma OthersAreTold(states: seq<State>, labels: seq<Label>, p: Pid, j: nat, k: nat)
    requires Run(states, labels) && j < k < |labels|
    requires labels[j].Dispatch? && labels[j].p == p
    requires labels[k].Finish? && labels[k].p == p && p in states[k].callers && states[k].callers[p].Reporting?
    requires match states[k].callers[p].result
             case Some(Verdict(stated, _, _)) => stated != Some(Blocked)
             case _ => true
    ensures states[k + 1].log == states[j].log + [Attempt(states[k].callers[p].key, states[k].callers[p].result)]
    ensures states[k + 1].receipt.Some?
    ensures states[k + 1].receipt.value.key == states[k].callers[p].key
    ensures states[k + 1].receipt.value.result == states[k].callers[p].result
  {
    FoundIsKept(states, labels, p, j, k);
    assert Next(states[k], states[k + 1], labels[k]);
    assert (states[j].log + [Attempt(states[k].callers[p].key, None)])[..|states[j].log|] == states[j].log;
  }

  /** Nobody is stuck: a caller that comes gets in exactly when nobody holds the lock, one inside is
      answered or else can be refused or dispatched, any run can return anything, any caller can finish,
      and any can crash where it is, with nothing but the lock let go. */
  lemma NobodyIsStuck(s: State, p: Pid, key: Option<string>, force: bool, components: Option<map<string, string>>, result: Option<GateResult>, now: int)
    requires Inv(s)
    ensures p !in s.callers ==>
              exists t :: Next(s, t, Enter(p, key, force, components)) &&
                          if s.owner == None then t.owner == Some(p) && t.callers[p].Inside? else t.owner == s.owner && t.callers[p].Over?
    ensures p in s.callers && s.callers[p].Inside? ==>
              if Reuse(s.receipt, s.callers[p].key, s.callers[p].force).Some?
              then exists t :: Next(s, t, Answer(p)) && t.owner == None && t.receipt == s.receipt && t.log == s.log
              else (exists t :: Next(s, t, Dispatch(p, now)) && Running(t, p))
                   && exists t :: Next(s, t, Refuse(p)) && t.owner == None && t.receipt == s.receipt && t.log == s.log
    ensures p in s.callers ==>
              exists t :: Next(s, t, Crash(p)) && t.owner != Some(p) && t.receipt == s.receipt && t.log == s.log
    ensures p in s.callers && s.callers[p].Dispatched? ==> exists t :: Next(s, t, Return(p, result)) && t.callers[p].Reporting?
    ensures p in s.callers && s.callers[p].Reporting? ==> exists t :: Next(s, t, Finish(p, now)) && t.owner == None
  {
    hide Tells, Reuse, Published, SaysBlocked;
    if p !in s.callers {
      var t := if s.owner.Some? then s.(callers := s.callers[p := Over])
               else s.(owner := Some(p), callers := s.callers[p := Inside(key, force, components)]);
      assert Next(s, t, Enter(p, key, force, components));
    } else {
      var c := s.callers[p];
      assert Next(s, Gone(s, p), Crash(p));
      match c {
        case Inside(_, _, _) =>
          if Reuse(s.receipt, c.key, c.force).Some? {
            assert Next(s, Gone(s, p), Answer(p));
          } else {
            var t := s.(receipt := Some(Published(s.receipt, c.key, None, c.components, now)),
                        callers := s.callers[p := Dispatched(c.key, c.components, s.receipt)],
                        log := s.log + [Attempt(c.key, None)]);
            assert Next(s, t, Dispatch(p, now));
            assert Next(s, Gone(s, p), Refuse(p));
          }
        case Dispatched(_, _, _) =>
          var t := s.(callers := s.callers[p := Reporting(c.key, c.components, c.found, result)]);
          assert Next(s, t, Return(p, result));
        case Reporting(_, _, _, _) =>
          assert Underway(s, c);
          var t := if SaysBlocked(c.result)
                   then Gone(s, p).(receipt := c.found, log := s.log[..|s.log| - 1])
                   else Gone(s, p).(receipt := Some(Published(s.receipt, c.key, c.result, c.components, now)),
                                    log := s.log[..|s.log| - 1] + [Attempt(c.key, c.result)]);
          assert Next(s, t, Finish(p, now));
        case Over =>
      }
    }
  }

  /** The next caller is served from a run exactly when that run passed: after a caller has dispatched
      and finished, another who asks for the same key is given its result if it is a pass, and has
      to run again if it is not. */
  lemma PassIsServed(states: seq<State>, labels: seq<Label>, p: Pid, j: nat, k: nat)
    requires Run(states, labels) && j < k < |labels|
    requires labels[j].Dispatch? && labels[j].p == p
    requires labels[k].Finish? && labels[k].p == p && p in states[k].callers && states[k].callers[p].Reporting?
    requires IsKey(states[k].callers[p].key)
    ensures var c := states[k].callers[p];
            match c.result
            case Some(Verdict(stated, pass, body)) =>
              Reuse(states[k + 1].receipt, c.key, false)
                == if stated == Some(Blocked) then Reuse(states[j].receipt, c.key, false)
                   else if pass && stated != Some(Inconclusive) && stated != Some(Failed) then c.result
                   else None
            case _ => Reuse(states[k + 1].receipt, c.key, false) == None
  {
    var c := states[k].callers[p];
    match c.result {
      case Some(Verdict(Some(Blocked), _, _)) =>
        BlockedSpendsNothing(states, labels, p, j, k);
      case _ =>
        OthersAreTold(states, labels, p, j, k);
        ReuseIsTheLastWord(states, labels, k + 1, c.key, false);
    }
  }
}

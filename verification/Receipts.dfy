/** The qualification receipt cache (verification/qualification-supervisor/qualification_cache.py):
    a receipt is revoked before a test runs, so that it only ever repeats what the last real
    attempt said. */
module Receipts {
  import opened Common

  // --- records --------------------------------------------------------------------

  datatype Status = Running | Passed | Failed | Inconclusive | Blocked

  /** What a gate returns, if it returns anything: a dictionary with a stated outcome and a pass flag,
      or something that cannot be made into one. */
  datatype GateResult = Verdict(stated: Option<Status>, pass: bool, body: string) | NotADictionary

  /** `outcome_of`: fail-closed on anything unrecognised. */
  function OutcomeOf(r: GateResult): Status {
    match r
    case NotADictionary => Failed
    case Verdict(stated, pass, _) =>
      if stated == Some(Blocked) || stated == Some(Inconclusive) || stated == Some(Failed) then stated.value
      else if pass then Passed
      else Failed
  }

  /** What a pass is, by the fields of the result alone: the pass flag is set, and the stated outcome,
      if there is one, is none of blocked, inconclusive and failed. */
  predicate Passes(r: GateResult) {
    r.Verdict? && r.pass && r.stated != Some(Blocked) && r.stated != Some(Inconclusive) && r.stated != Some(Failed)
  }

  predicate StatesBlocked(r: GateResult) { r.Verdict? && r.stated == Some(Blocked) }

  /** The classification, by those fields: each outcome but `failed` needs to be earned. */
  lemma OutcomeIs(r: GateResult)
    ensures OutcomeOf(r) == Passed <==> Passes(r)
    ensures OutcomeOf(r) == Blocked <==> StatesBlocked(r)
    ensures OutcomeOf(r) == Inconclusive <==> r.Verdict? && r.stated == Some(Inconclusive)
    ensures OutcomeOf(r) == Failed <==>
              r.NotADictionary? || r.stated == Some(Failed) || (!r.pass && r.stated != Some(Blocked) && r.stated != Some(Inconclusive))
  {
  }

  /** A key that the code's `not key` takes for a key. */
  predicate IsKey(key: Option<string>) { key.Some? && key.value != "" }

  datatype Receipt = Receipt(key: Option<string>, status: Status, updatedAt: int, result: Option<GateResult>,
                             components: Option<map<string, string>>, lastPass: Option<GateResult>)

  /** `publish`: the record that replaces `before`; without a result the attempt is running. */
  function Published(before: Option<Receipt>, key: Option<string>, result: Option<GateResult>,
                     components: Option<map<string, string>>, now: int): Receipt {
    Receipt(key,
            match result case None => Running case Some(r) => OutcomeOf(r),
            now, result,
            if components.Some? then components else if before.Some? then before.value.components else None,
            if before.None? then None
            else if before.value.status == Passed then before.value.result
            else before.value.lastPass)
  }

  /** `reuse` */
  function Reuse(record: Option<Receipt>, key: Option<string>, force: bool): Option<GateResult> {
    if force || !IsKey(key) || record.None? || record.value.key != key || record.value.status != Passed then None
    else if record.value.result.None? || OutcomeOf(record.value.result.value) != Passed then None
    else record.value.result
  }

  /** Whatever receipt stands there, however it came about: a result is answered exactly when the receipt
      says passed for this very key and carries a result that is a pass by its own fields. */
  lemma ReuseIff(record: Option<Receipt>, key: Option<string>, force: bool)
    ensures Reuse(record, key, force).Some? <==>
              && !force && IsKey(key) && record.Some? && record.value.key == key
              && record.value.status == Passed && record.value.result.Some? && Passes(record.value.result.value)
    ensures Reuse(record, key, force).Some? ==> Reuse(record, key, force) == record.value.result
  {
  }

  datatype Reason = Reusable | NoIdentity | NoReceipt | ForcedRetest | NotPassed(status: Status) | InputsChanged | InvalidReceipt

  datatype Explanation = Explanation(reason: Reason, changed: Option<set<string>>)

  function Differing(a: map<string, string>, b: map<string, string>): set<string> {
    set n | n in a.Keys + b.Keys && Get(a, n) != Get(b, n)
  }

  /** `explain` */
  function Explain(record: Option<Receipt>, key: Option<string>, components: Option<map<string, string>>, force: bool): Explanation {
    if !IsKey(key) then Explanation(NoIdentity, None)
    else if record.None? then Explanation(NoReceipt, None)
    else if force then Explanation(ForcedRetest, None)
    else if record.value.status != Passed then Explanation(NotPassed(record.value.status), None)
    else if record.value.key != key then
      Explanation(InputsChanged,
                  if record.value.components.Some? && components.Some?
                  then Some(Differing(record.value.components.value, components.value)) else None)
    else if Reuse(record, key, false).None? then Explanation(InvalidReceipt, None)
    else Explanation(Reusable, Some({}))
  }

  /** The plan says `reusable` exactly when a run would reuse, force included. */
  lemma ExplainAgreesWithReuse(record: Option<Receipt>, key: Option<string>, components: Option<map<string, string>>, force: bool)
    ensures Explain(record, key, components, force).reason == Reusable <==> Reuse(record, key, force).Some?
  {
  }

  /** Otherwise it names the first thing that stands in the way, and the names of the components that
      differ exactly when both sides recorded theirs and nothing else stands in the way. */
  lemma ExplainNamesTheObstacle(record: Option<Receipt>, key: Option<string>, components: Option<map<string, string>>, force: bool)
    ensures var e := Explain(record, key, components, force);
            && (e.reason == NoIdentity <==> key == None || key == Some(""))
            && (e.reason == NoReceipt <==> IsKey(key) && record == None)
            && (e.reason == ForcedRetest <==> IsKey(key) && record.Some? && force)
            && (e.reason.NotPassed? <==> IsKey(key) && record.Some? && !force && record.value.status != Passed)
            && (e.reason.NotPassed? ==> e.reason.status == record.value.status)
            && (e.reason == InputsChanged <==> IsKey(key) && record.Some? && !force && record.value.status == Passed && record.value.key != key)
            && (e.reason == InvalidReceipt <==>
                  && IsKey(key) && record.Some? && !force && record.value.status == Passed && record.value.key == key
                  && (record.value.result.None? || !Passes(record.value.result.value)))
            && (e.reason == InputsChanged && record.value.components.Some? && components.Some? ==>
                  e.changed.Some? && forall n :: n in e.changed.value <==> Get(record.value.components.value, n) != Get(components.value, n))
            && (e.reason == InputsChanged && !(record.value.components.Some? && components.Some?) ==> e.changed == None)
            && (e.reason == Reusable ==> e.changed == Some({}))
            && (e.reason != Reusable && e.reason != InputsChanged ==> e.changed == None)
  {
    if record.Some? && components.Some? && record.value.components.Some? {
      DifferingIs(record.value.components.value, components.value);
    }
  }

  lemma DifferingIs(a: map<string, string>, b: map<string, string>)
    ensures forall n :: n in Differing(a, b) <==> Get(a, n) != Get(b, n)
  {
  }

  // --- what the attempts said ---------------------------------------------------------

  /** A dispatched attempt that did not end blocked: its key, and its result if it completed.
      One that crashed, or is still under way, has none. */
  datatype Attempt = Attempt(key: Option<string>, result: Option<GateResult>)

  predicate EndedPassed(a: Attempt) { a.result.Some? && Passes(a.result.value) }

  function MostRecentPass(log: seq<Attempt>): Option<GateResult> {
    if log == [] then None
    else if EndedPassed(log[|log| - 1]) then log[|log| - 1].result
    else MostRecentPass(log[..|log| - 1])
  }

  /** The specification: what the last real attempt said. */
  predicate LastAttemptPassed(log: seq<Attempt>, key: Option<string>) {
    log != [] && log[|log| - 1].key == key && EndedPassed(log[|log| - 1])
  }

  /** A status says how an attempt with this result ended, or that it has not. */
  ghost predicate SaysHow(status: Status, result: Option<GateResult>) {
    && (status == Running <==> result == None)
    && (status == Passed <==> result.Some? && Passes(result.value))
    && (status == Blocked <==> result.Some? && StatesBlocked(result.value))
    && (status == Inconclusive <==> result.Some? && result.value.Verdict? && result.value.stated == Some(Inconclusive))
  }

  /** The receipt tells of the last attempt, and remembers the most recent pass before it. */
  ghost predicate Tells(record: Option<Receipt>, log: seq<Attempt>) {
    if log == [] then record == None
    else
      var last := log[|log| - 1];
      && record.Some?
      && record.value.key == last.key && record.value.result == last.result
      && SaysHow(record.value.status, last.result)
      && record.value.lastPass == MostRecentPass(log[..|log| - 1])
  }

  lemma PublishedTells(record: Option<Receipt>, log: seq<Attempt>, key: Option<string>, components: Option<map<string, string>>, now: int)
    requires Tells(record, log)
    ensures Tells(Some(Published(record, key, None, components, now)), log + [Attempt(key, None)])
  {
    assert (log + [Attempt(key, None)])[..|log|] == log;
  }

  lemma CompletedTells(record: Option<Receipt>, log: seq<Attempt>, r: GateResult, components: Option<map<string, string>>, now: int)
    requires Tells(record, log) && log != [] && log[|log| - 1].result == None
    ensures var key := log[|log| - 1].key;
            Tells(Some(Published(record, key, Some(r), components, now)), log[..|log| - 1] + [Attempt(key, Some(r))])
  {
    var front, key := log[..|log| - 1], log[|log| - 1].key;
    assert (front + [Attempt(key, Some(r))])[..|front|] == front;
  }

  /** A run that returns nothing is published as running once more, and is told as an attempt that
      never completed. */
  lemma RepublishedTells(record: Option<Receipt>, log: seq<Attempt>, components: Option<map<string, string>>, now: int)
    requires Tells(record, log) && log != [] && log[|log| - 1].result == None
    ensures Tells(Some(Published(record, log[|log| - 1].key, None, components, now)), log)
  {
  }

  /** A receipt that tells of the attempts is reused exactly when the last one passed under
      this key; an older pass cannot come back. */
  lemma TellsReuse(record: Option<Receipt>, log: seq<Attempt>, key: Option<string>, force: bool)
    requires Tells(record, log)
    ensures Reuse(record, key, force).Some? <==> !force && IsKey(key) && LastAttemptPassed(log, key)
    ensures Reuse(record, key, force).Some? ==> Reuse(record, key, force) == log[|log| - 1].result
    ensures record.Some? && record.value.status != Passed ==> record.value.lastPass == MostRecentPass(log)
  {
  }

  // --- the store ------------------------------------------------------------------------

  datatype Slot = Slot(gate: string, model: string)

  datatype RunEnd = Returns(result: Option<GateResult>) | Raises

  datatype Answer = Reused(result: GateResult) | LockLost | Refused | Ran(result: GateResult) | Propagated

  class Store {
    var receipts: map<Slot, Receipt>
    var locked: set<Slot>

    function Read(slot: Slot): Option<Receipt>
      reads this
    {
      Get(receipts, slot)
    }

    method Publish(slot: Slot, key: Option<string>, result: Option<GateResult>, components: Option<map<string, string>>, now: int)
      modifies this`receipts
      ensures receipts == old(receipts)[slot := Published(old(Read(slot)), key, result, components, now)]
    {
      var before := Read(slot);
      receipts := receipts[slot := Published(before, key, result, components, now)];
    }

    /** The receipt is what `record` says, or gone if it says nothing. */
    method Restore(slot: Slot, record: Option<Receipt>)
      modifies this`receipts
      ensures receipts == if record.None? then old(receipts) - {slot} else old(receipts)[slot := record.value]
    {
      match record {
        case None => receipts := receipts - {slot};
        case Some(r) => receipts := receipts[slot := r];
      }
    }

    /** `run_cached`: reuse, refuse, or run, in that order. `admits` is what host admission
        says, `run` how the test ends. Only a test that really ran, or died running, spends
        the receipt: a lost lock, a refusal, a reuse and a run that reports blocked leave the
        whole store as it was found. A run that returns no dictionary is published and then
        raises. */
    method RunCached(slot: Slot, key: Option<string>, run: RunEnd, force: bool, admits: bool,
                     components: Option<map<string, string>>, started: int, ended: int) returns (answer: Answer)
      modifies this
      ensures locked == old(locked)
      ensures answer == LockLost <==> slot in old(locked)
      ensures answer.Reused? <==> slot !in old(locked) && Reuse(old(Read(slot)), key, force).Some?
      ensures answer.Reused? ==> Some(answer.result) == Reuse(old(Read(slot)), key, force)
      ensures answer == Refused <==> slot !in old(locked) && Reuse(old(Read(slot)), key, force).None? && !admits
      ensures answer == Propagated <==>
                slot !in old(locked) && Reuse(old(Read(slot)), key, force).None? && admits && !GivesDictionary(run)
      ensures answer.LockLost? || answer.Reused? || answer.Refused? || (answer.Ran? && StatesBlocked(answer.result)) ==>
                receipts == old(receipts)
      ensures answer == Propagated || (answer.Ran? && !StatesBlocked(answer.result)) ==>
                receipts == old(receipts)[slot := Spent(old(Read(slot)), key, components, run, started, ended)]
      ensures answer.Ran? ==> run == Returns(Some(answer.result))
    {
      if slot in locked {
        return LockLost;
      }
      locked := locked + {slot};
      answer := RunLocked(slot, key, run, force, admits, components, started, ended);
      locked := locked - {slot};
    }

    /** `_run_cached` */
    method RunLocked(slot: Slot, key: Option<string>, run: RunEnd, force: bool, admits: bool,
                     components: Option<map<string, string>>, started: int, ended: int) returns (answer: Answer)
      requires slot in locked
      modifies this`receipts
      ensures answer != LockLost
      ensures answer.Reused? <==> Reuse(old(Read(slot)), key, force).Some?
      ensures answer.Reused? ==> Some(answer.result) == Reuse(old(Read(slot)), key, force)
      ensures answer == Refused <==> Reuse(old(Read(slot)), key, force).None? && !admits
      ensures answer == Propagated <==> Reuse(old(Read(slot)), key, force).None? && admits && !GivesDictionary(run)
      ensures answer.Reused? || answer.Refused? || (answer.Ran? && StatesBlocked(answer.result)) ==>
                receipts == old(receipts)
      ensures answer == Propagated || (answer.Ran? && !StatesBlocked(answer.result)) ==>
                receipts == old(receipts)[slot := Spent(old(Read(slot)), key, components, run, started, ended)]
      ensures answer.Ran? ==> run == Returns(Some(answer.result))
    {
      var cached := Reuse(Read(slot), key, force);
      if cached.Some? {
        return Reused(cached.value);
      }
      if !admits {
        return Refused;
      }
      var previous := Read(slot);
      Publish(slot, key, None, components, started);
      if run.Raises? {
        return Propagated;
      }
      if run.result.Some? && OutcomeOf(run.result.value) == Blocked {
        Restore(slot, previous);
        RestoreUndoesPublish(old(receipts), slot, Published(previous, key, None, components, started));
      } else {
        Publish(slot, key, run.result, components, ended);
      }
      // `dict(result, ...)` refuses what is not a dictionary.
      if run.result.None? || run.result.value.NotADictionary? {
        return Propagated;
      }
      return Ran(run.result.value);
    }
  }

  predicate GivesDictionary(run: RunEnd) { run.Returns? && run.result.Some? && run.result.value.Verdict? }

  /** The receipt a real attempt leaves: revoked when it was dispatched, and told again how it ended
      unless it raised. */
  function Spent(before: Option<Receipt>, key: Option<string>, components: Option<map<string, string>>,
                 run: RunEnd, started: int, ended: int): Receipt {
    var revoked := Published(before, key, None, components, started);
    if run.Raises? then revoked else Published(Some(revoked), key, run.result, components, ended)
  }

  /** The store with one receipt replaced, or removed. */
  function Put(receipts: map<Slot, Receipt>, slot: Slot, record: Option<Receipt>): map<Slot, Receipt> {
    if record.None? then receipts - {slot} else receipts[slot := record.value]
  }

  /** Restoring what was read before a publication brings back the whole store, whether or not there
      was a receipt. */
  lemma RestoreUndoesPublish(receipts: map<Slot, Receipt>, slot: Slot, published: Receipt)
    ensures Put(Put(receipts, slot, Some(published)), slot, Get(receipts, slot)) == receipts
  {
  }

  /** Whatever a spent receipt was made from, a real attempt that did not end in a pass leaves nothing
      to reuse, for any key; and one that did can be reused for its own key alone. */
  lemma SpentIsReusableIff(before: Option<Receipt>, key: Option<string>, components: Option<map<string, string>>,
                           run: RunEnd, started: int, ended: int, asked: Option<string>)
    ensures Reuse(Some(Spent(before, key, components, run, started, ended)), asked, false).Some? <==>
              IsKey(asked) && asked == key && run.Returns? && run.result.Some? && Passes(run.result.value)
  {
  }

  /** Spending a receipt that tells of the attempts leaves one that tells of one attempt more: the one
      under this key, with what it returned, if it returned. It was last written when that attempt
      ended, or when it began if it never ended, and it has the latest components anyone gave. */
  lemma SpentTells(before: Option<Receipt>, log: seq<Attempt>, key: Option<string>, components: Option<map<string, string>>,
                   run: RunEnd, started: int, ended: int)
    requires Tells(before, log)
    ensures var after := Spent(before, key, components, run, started, ended);
            && Tells(Some(after), log + [Attempt(key, if run.Returns? then run.result else None)])
            && after.updatedAt == (if run.Returns? then ended else started)
            && (components.Some? ==> after.components == components)
            && (components.None? && before.Some? ==> after.components == before.value.components)
            && (components.None? && before.None? ==> after.components == None)
  {
    var revoked := Published(before, key, None, components, started);
    PublishedTells(before, log, key, components, started);
    var longer := log + [Attempt(key, None)];
    assert longer[..|longer| - 1] == log;
    if run.Returns? && run.result.Some? {
      CompletedTells(Some(revoked), longer, run.result.value, components, ended);
    } else if run.Returns? {
      RepublishedTells(Some(revoked), longer, components, ended);
    }
  }
}

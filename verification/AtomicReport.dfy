/** Durable publication of a report (rust/src/report.rs): the bytes go to a temporary name
    first, are flushed there, take the target's name, and then the name is flushed too. */
module AtomicReport {
  import opened Common
  import opened Artifact
  import opened CrashDisk
  import opened CrashMachine

  /** What a binding of the target may be: what it could be at the start, unchanged, or a file
      that holds exactly the new report on stable storage. */
  ghost predicate OldOrNew(start: Disk, d: Disk, c: Option<Inode>, report: Bytes) {
    || c in Candidates(start, Final)
    || (c.Some? && c.value in d.nodes && d.nodes[c.value] == Node(report, true))
  }

  ghost predicate Invariant(start: Disk, d: Disk, report: Bytes) {
    && WellFormed(start) && WellFormed(d)
    && (forall k :: k in start.nodes ==> k in d.nodes && d.nodes[k] == start.nodes[k])
    && (forall c :: c in Candidates(d, Final) ==> OldOrNew(start, d, c, report))
  }

  /** What stands at the target once power has come back: a file it could name before the call
      began, bytes and all, or a file that holds the whole new report. */
  lemma RecoveredReport(start: Disk, d: Disk, after: Disk, report: Bytes)
    requires Invariant(start, d, report) && Recovers(d, after)
    requires forall k :: k in start.nodes ==> start.nodes[k].synced
    ensures || Current(after, Final) in Candidates(start, Final)
            || (Exists(after, Final) && Content(after, Final) == report)
    ensures forall k :: k in start.nodes ==> k in after.nodes && after.nodes[k] == start.nodes[k]
  {
    assert Current(after, Final) in Candidates(d, Final);
    forall k | k in start.nodes ensures k in after.nodes && after.nodes[k] == start.nodes[k] {
      assert after.nodes[k].synced && after.nodes[k].content == start.nodes[k].content;
    }
  }

  /** No power loss can undo a success: with the new report flushed under a settled name, every
      recovery finds exactly it at the target. */
  lemma SuccessSurvives(d: Disk, after: Disk, report: Bytes)
    requires Candidates(d, Final) == {Current(d, Final)}
    requires Exists(d, Final) && d.nodes[d.names[Final]] == Node(report, true)
    requires Recovers(d, after)
    ensures Exists(after, Final) && after.nodes[after.names[Final]] == Node(report, true)
  {
    assert Current(after, Final) in Candidates(d, Final);
  }

  /** The temporary file is one this call created: new, and bound to no other name. */
  ghost predicate Ours(start: Disk, d: Disk, n: Name) {
    && n != Final && Exists(d, n) && d.names[n] !in start.nodes
    && Some(d.names[n]) !in Candidates(d, Final)
  }

  lemma CreateOurs(start: Disk, d: Disk, n: Name, inode: Inode, report: Bytes)
    requires Invariant(start, d, report) && inode !in d.nodes && n != Final
    ensures Invariant(start, Create(d, n, inode), report) && Ours(start, Create(d, n, inode), n)
    ensures Candidates(Create(d, n, inode), Final) == Candidates(d, Final)
  {
    var e := Create(d, n, inode);
    assert forall c :: c in Candidates(d, Final) && c.Some? ==> c.value in d.nodes;
    CandidatesAfterCreate(d, n, inode);
    CreateIsWellFormed(d, n, inode);
    hide Candidates, WellFormed;
    forall c | c in Candidates(e, Final) ensures OldOrNew(start, e, c, report) {
      assert OldOrNew(start, d, c, report);
    }
  }

  lemma WriteOurs(start: Disk, d: Disk, n: Name, content: Bytes, report: Bytes)
    requires Invariant(start, d, report) && Ours(start, d, n)
    ensures Invariant(start, Write(d, n, content), report) && Ours(start, Write(d, n, content), n)
  {
    var e := Write(d, n, content);
    forall m ensures Candidates(e, m) == Candidates(d, m) {
    }
    forall c | c in Candidates(e, Final) ensures OldOrNew(start, e, c, report) {
      assert OldOrNew(start, d, c, report);
    }
  }

  lemma FlushOurs(start: Disk, d: Disk, n: Name, report: Bytes)
    requires Invariant(start, d, report) && Ours(start, d, n)
    ensures Invariant(start, Fsync(d, n), report) && Ours(start, Fsync(d, n), n)
  {
    var e := Fsync(d, n);
    forall m ensures Candidates(e, m) == Candidates(d, m) {
    }
    forall c | c in Candidates(e, Final) ensures OldOrNew(start, e, c, report) {
      assert OldOrNew(start, d, c, report);
    }
  }

  lemma RemoveOurs(start: Disk, d: Disk, n: Name, report: Bytes)
    requires Invariant(start, d, report) && n != Final
    ensures Invariant(start, Unlink(d, n), report)
  {
    var e := Unlink(d, n);
    forall m ensures Candidates(e, m) <= Candidates(d, m) + if m == n then {None} else {} {
    }
    forall c | c in Candidates(e, Final) ensures OldOrNew(start, e, c, report) {
      assert OldOrNew(start, d, c, report);
    }
  }

  lemma RenameOurs(start: Disk, d: Disk, n: Name, report: Bytes)
    requires Invariant(start, d, report) && Ours(start, d, n) && d.nodes[d.names[n]] == Node(report, true)
    ensures Invariant(start, Rename(d, n, Final), report)
  {
    var e := Rename(d, n, Final);
    forall m ensures Candidates(e, m) <= Candidates(d, m) + {None, Some(d.names[n])} {
    }
    forall c | c in Candidates(e, Final) ensures OldOrNew(start, e, c, report) {
      assert c == Some(d.names[n]) || c in Candidates(d, Final);
    }
  }

  lemma FlushNames(start: Disk, d: Disk, report: Bytes)
    requires Invariant(start, d, report)
    ensures Invariant(start, FsyncDirectory(d), report)
  {
    forall m ensures Candidates(FsyncDirectory(d), m) <= Candidates(d, m) {
    }
    forall c | c in Candidates(FsyncDirectory(d), Final) ensures OldOrNew(start, FsyncDirectory(d), c, report) {
      assert OldOrNew(start, d, c, report);
    }
  }

  /** The step that failed, as `ReportError` names it. */
  datatype Published = Ok | WriteFailed | RenameFailed | CreateFailed | DirectoryFailed | Cut

  // --- what the world has to do for each outcome -----------------------------------

  /** The attempts from `attempt` on end with a new temporary file. */
  predicate Creates(script: seq<Step>, d: Disk, attempt: nat)
    decreases 17 - attempt
  {
    && First(script).fault == Fine
    && if Temporary(attempt) in d.names then attempt < 16 && Creates(Later(script), d, attempt + 1)
       else First(script).inode !in d.nodes
  }

  /** Or the power goes during one of them. */
  predicate CreationDies(script: seq<Step>, d: Disk, attempt: nat)
    decreases 17 - attempt
  {
    || First(script).fault == PowerLoss
    || (First(script).fault == Fine && Temporary(attempt) in d.names && attempt < 16 && CreationDies(Later(script), d, attempt + 1))
  }

  /** What is left of the script after those attempts. */
  function AfterCreate(script: seq<Step>, d: Disk, attempt: nat): seq<Step>
    decreases 17 - attempt
  {
    if Temporary(attempt) in d.names && attempt < 16 then AfterCreate(Later(script), d, attempt + 1) else Later(script)
  }

  /** Everything up to the rename works: the write, the flush and the rename itself. */
  predicate Replaces(script: seq<Step>, d: Disk) {
    Creates(script, d, 0) && FineFor(AfterCreate(script, d, 0), 3)
  }

  /** The first of the next steps that does not work meets this fault; `Fine` if they all work. */
  function FirstFault(script: seq<Step>, n: nat): (f: Fault)
    ensures f == Fine <==> FineFor(script, n)
    decreases n
  {
    if n == 0 then Fine
    else if First(script).fault != Fine then First(script).fault
    else FirstFault(Later(script), n - 1)
  }

  /** How many of the next steps work before one does not. */
  function WorkBefore(script: seq<Step>, n: nat): nat
    decreases n
  {
    if n == 0 || First(script).fault != Fine then 0 else 1 + WorkBefore(Later(script), n - 1)
  }

  /** `create_temporary`: seventeen names are tried before giving up. */
  method CreateTemporary(m: Machine, ghost start: Disk, report: Bytes) returns (end: Ending, temporary: Name)
    requires Invariant(start, m.disk, report) && !m.lost
    modifies m
    ensures Invariant(start, m.disk, report) && (m.lost <==> end == Dead)
    ensures end == Done <==> Creates(old(m.script), old(m.disk), 0)
    ensures end == Dead <==> CreationDies(old(m.script), old(m.disk), 0)
    ensures end != Done ==> m.disk == old(m.disk)
    ensures end == Done ==> m.disk.names.Keys == old(m.disk).names.Keys + {temporary} && temporary !in old(m.disk).names
    ensures end == Done ==> Ours(start, m.disk, temporary) && m.script == AfterCreate(old(m.script), old(m.disk), 0)
    ensures Candidates(m.disk, Final) == Candidates(old(m.disk), Final)
    ensures Current(m.disk, Final) == Current(old(m.disk), Final)
  {
    var attempt := 0;
    while true
      invariant attempt <= 16 && m.disk == old(m.disk) && !m.lost
      invariant Creates(m.script, m.disk, attempt) <==> Creates(old(m.script), old(m.disk), 0)
      invariant CreationDies(m.script, m.disk, attempt) <==> CreationDies(old(m.script), old(m.disk), 0)
      invariant AfterCreate(m.script, m.disk, attempt) == AfterCreate(old(m.script), old(m.disk), 0)
      decreases 16 - attempt
    {
      temporary := Temporary(attempt);
      ghost var inode := First(m.script).inode;
      var taken;
      end, taken := m.CreateNew(temporary);
      if end == Done && !taken {
        CreateOurs(start, old(m.disk), temporary, inode, report);
        return;
      }
      if end != Done || attempt == 16 {
        end := if end == Done then Raised else end;
        return;
      }
      attempt := attempt + 1;
    }
  }

  /** Write the temporary file and flush it. */
  method Fill(m: Machine, ghost start: Disk, temporary: Name, report: Bytes) returns (end: Ending)
    requires Invariant(start, m.disk, report) && Ours(start, m.disk, temporary) && !m.lost
    modifies m
    ensures Invariant(start, m.disk, report) && Ours(start, m.disk, temporary) && (m.lost <==> end == Dead)
    ensures end == EndOf(FirstFault(old(m.script), 2))
    ensures end == Done ==> m.disk.nodes[m.disk.names[temporary]] == Node(report, true)
    ensures m.script == Skip(old(m.script), if First(old(m.script)).fault == Fine then 2 else 1)
    ensures Current(m.disk, Final) == Current(old(m.disk), Final) && m.disk.names == old(m.disk).names
  {
    end := m.WriteAll(temporary, report);
    if m.disk != old(m.disk) {
      ghost var content :| m.disk == Write(old(m.disk), temporary, content);
      WriteOurs(start, old(m.disk), temporary, content, report);
    }
    if end == Done {
      ghost var written := m.disk;
      end := m.Flush(temporary);
      if end == Done {
        FlushOurs(start, written, temporary, report);
      }
    }
  }

  /** Take the temporary away again, if the disk lets it; the target is left alone, and the answer is
      the error there was, unless the power goes before it can be given. */
  method Abandon(m: Machine, ghost start: Disk, temporary: Name, report: Bytes, error: Published) returns (r: Published)
    requires Invariant(start, m.disk, report) && temporary != Final && !m.lost && error != Cut
    modifies m
    ensures Invariant(start, m.disk, report) && Current(m.disk, Final) == Current(old(m.disk), Final)
    ensures m.disk == if First(old(m.script)).fault == Fine then Unlink(old(m.disk), temporary) else old(m.disk)
    ensures r == (if First(old(m.script)).fault == PowerLoss then Cut else error) && (m.lost <==> r == Cut)
  {
    RemoveOurs(start, m.disk, temporary, report);
    m.Remove(temporary);
    r := if m.lost then Cut else error;
  }

  /** The rename and the flush of the directory. */
  method Install(m: Machine, ghost start: Disk, temporary: Name, report: Bytes) returns (r: Published)
    requires Invariant(start, m.disk, report) && Ours(start, m.disk, temporary) && !m.lost
    requires m.disk.nodes[m.disk.names[temporary]] == Node(report, true)
    modifies m
    ensures Invariant(start, m.disk, report) && (m.lost <==> r == Cut)
    ensures r == match First(old(m.script)).fault
                 case Fails => if First(Later(old(m.script))).fault == PowerLoss then Cut else RenameFailed
                 case PowerLoss => Cut
                 case Fine => match First(Later(old(m.script))).fault case Fine => Ok case Fails => DirectoryFailed case PowerLoss => Cut
    ensures First(old(m.script)).fault == Fine ==>
              && Current(m.disk, Final) == Current(old(m.disk), temporary) && m.disk.nodes == old(m.disk).nodes
              && m.disk.names.Keys == old(m.disk).names.Keys - {temporary} + {Final}
    ensures First(old(m.script)).fault != Fine ==> Current(m.disk, Final) == Current(old(m.disk), Final)
    ensures r == RenameFailed && First(Later(old(m.script))).fault == Fine ==> m.disk.names == old(m.disk).names - {temporary}
    ensures r == Ok ==> Candidates(m.disk, Final) == {Current(m.disk, Final)}
  {
    var end := m.Replace(temporary, Final);
    if end == Dead {
      return Cut;
    }
    if end != Done {
      r := Abandon(m, start, temporary, report, RenameFailed);
      return;
    }
    RenameOurs(start, old(m.disk), temporary, report);
    FlushNames(start, m.disk, report);
    end := m.FlushDirectory();
    r := if end == Done then Ok else if end == Dead then Cut else DirectoryFailed;
  }

  lemma StartsOut(start: Disk, report: Bytes)
    requires WellFormed(start)
    ensures Invariant(start, start, report)
  {
  }

  lemma NewIsDifferent(start: Disk, d: Disk, n: Name, report: Bytes)
    requires Invariant(start, d, report) && Ours(start, d, n)
    ensures Current(d, n) != Current(start, Final) && n in d.names && n != Final
  {
    assert Current(start, Final) in Candidates(start, Final);
  }

  /** The four steps after the creation, one by one. */
  lemma Faults(rest: seq<Step>)
    ensures FineFor(rest, 3) <==> FineFor(rest, 2) && First(Skip(rest, 2)).fault == Fine
    ensures FineFor(rest, 4) <==> FineFor(rest, 3) && First(Later(Skip(rest, 2))).fault == Fine
    ensures FineFor(rest, 2) <==> FirstFault(rest, 2) == Fine
    ensures FineFor(rest, 2) ==> First(rest).fault == Fine
    ensures FirstFault(rest, 3) == if FineFor(rest, 2) then First(Skip(rest, 2)).fault else FirstFault(rest, 2)
    ensures FirstFault(rest, 4) == if FineFor(rest, 3) then First(Later(Skip(rest, 2))).fault else FirstFault(rest, 3)
    ensures !FineFor(rest, 2) ==> Skip(rest, WorkBefore(rest, 3) + 1) == Skip(rest, if First(rest).fault == Fine then 2 else 1)
    ensures FineFor(rest, 2) && !FineFor(rest, 3) ==> Skip(rest, WorkBefore(rest, 3) + 1) == Later(Skip(rest, 2))
  {
    var b := Later(rest);
    var c := Later(b);
    assert Skip(rest, 1) == b && Skip(rest, 2) == c && Skip(rest, 3) == Later(c);
    assert FirstFault(c, 1) == First(c).fault && FirstFault(Later(c), 1) == First(Later(c)).fault;
    assert FirstFault(c, 2) == if First(c).fault != Fine then First(c).fault else FirstFault(Later(c), 1);
  }

  /** The step that removes the temporary after a failure. */
  function RemovalFault(script: seq<Step>, d: Disk): Fault {
    var rest := AfterCreate(script, d, 0);
    First(Skip(rest, WorkBefore(rest, 3) + 1)).fault
  }

  /** `write_atomic`. At every moment the target is what it was or exactly the new report; a
      success leaves the new report there for good. The disk and the script before it decide the rest.
      The target changes exactly when everything up to the rename works, and then a failure to flush
      the directory is reported as a failure with the new report in place. Each failure names the
      first step that did not work, and leaves no temporary file if removing it works. */
  method WriteAtomic(m: Machine, report: Bytes) returns (r: Published)
    requires WellFormed(m.disk) && !m.lost
    modifies m
    ensures Invariant(old(m.disk), m.disk, report) && (m.lost <==> r == Cut)
    ensures Current(m.disk, Final) != Current(old(m.disk), Final) <==> Replaces(old(m.script), old(m.disk))
    ensures Replaces(old(m.script), old(m.disk)) ==> Exists(m.disk, Final) && m.disk.nodes[m.disk.names[Final]] == Node(report, true)
    ensures r == Ok ==> Candidates(m.disk, Final) == {Current(m.disk, Final)}
    ensures !Creates(old(m.script), old(m.disk), 0) ==>
              r == (if CreationDies(old(m.script), old(m.disk), 0) then Cut else CreateFailed) && m.disk == old(m.disk)
    ensures Creates(old(m.script), old(m.disk), 0) ==>
              var rest := AfterCreate(old(m.script), old(m.disk), 0);
              && (r == Ok <==> FineFor(rest, 4))
              && (r == Cut <==> FirstFault(rest, 4) == PowerLoss ||
                                (FirstFault(rest, 3) == Fails && RemovalFault(old(m.script), old(m.disk)) == PowerLoss))
              && (r == WriteFailed <==> FirstFault(rest, 2) == Fails && RemovalFault(old(m.script), old(m.disk)) != PowerLoss)
              && (r == RenameFailed <==>
                    FineFor(rest, 2) && FirstFault(rest, 3) == Fails && RemovalFault(old(m.script), old(m.disk)) != PowerLoss)
              && (r == DirectoryFailed <==> FineFor(rest, 3) && FirstFault(rest, 4) == Fails)
    ensures (r == WriteFailed || r == RenameFailed) && RemovalFault(old(m.script), old(m.disk)) == Fine ==>
              m.disk.names.Keys == old(m.disk).names.Keys
    ensures r == Ok || r == DirectoryFailed ==> m.disk.names.Keys == old(m.disk).names.Keys + {Final}
  {
    hide FirstFault, FineFor, Skip, WorkBefore, Creates, CreationDies, AfterCreate, Invariant, Candidates;
    ghost var start := m.disk;
    StartsOut(start, report);
    Faults(AfterCreate(m.script, m.disk, 0));
    var end, temporary := CreateTemporary(m, start, report);
    if end != Done {
      return if end == Dead then Cut else CreateFailed;
    }
    end := Fill(m, start, temporary, report);
    if end == Dead {
      return Cut;
    }
    if end != Done {
      r := Abandon(m, start, temporary, report, WriteFailed);
      return;
    }
    NewIsDifferent(start, m.disk, temporary, report);
    r := Install(m, start, temporary, report);
  }

  /** The failure that replaces the target, on an empty disk: the directory flush alone fails, the
      error is returned, and the new report stands where nothing was. */
  method FailsAndReplaces(report: Bytes) returns (m: Machine, r: Published)
    ensures r == DirectoryFailed && Exists(m.disk, Final) && Content(m.disk, Final) == report
  {
    var fine := Step(Fine, 0, 0, None, false, 0);
    var script := [fine, fine, fine, fine, fine.(fault := Fails)];
    m := new Machine(Disk(map[], map[], map[]), script);
    assert Later(script) == [fine, fine, fine, fine.(fault := Fails)];
    assert Later(Later(script)) == [fine, fine, fine.(fault := Fails)];
    assert Later(Later(Later(script))) == [fine, fine.(fault := Fails)];
    assert Later(Later(Later(Later(script)))) == [fine.(fault := Fails)];
    r := WriteAtomic(m, report);
  }

  /** `write_atomic`, and then the power goes: whatever the recovery picks, a report that was
      published is there. */
  method WriteThenLosePower(m: Machine, report: Bytes, picks: map<Name, Option<Inode>>, bytes: map<Inode, Bytes>)
    returns (r: Published, after: Disk)
    requires WellFormed(m.disk) && !m.lost
    modifies m
    ensures Recovers(m.disk, after)
    ensures r == Ok ==> Exists(after, Final) && Content(after, Final) == report
    ensures r == Ok ==> forall d :: Recovers(m.disk, d) ==> Exists(d, Final) && Content(d, Final) == report
  {
    r := WriteAtomic(m, report);
    after := Recover(m.disk, picks, bytes);
    RecoverRecovers(m.disk, picks, bytes);
    forall d | r == Ok && Recovers(m.disk, d) ensures Exists(d, Final) && Content(d, Final) == report {
      SuccessSurvives(m.disk, d, report);
    }
  }
}

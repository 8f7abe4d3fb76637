/** The resumable downloader (verification/local-coverage-foundation/download_queue.py): one
    file is verified, quarantined, resumed, verified again and promoted, with a power loss or
    an error possible before every step. */
module Downloader {
  import opened Common
  import opened Artifact
  import opened CrashDisk
  import opened CrashMachine

  // --- the promise and the invariant that carries it -------------------------------

  /** The same file that could be found at the destination when the history began. */
  ghost predicate Stood(start: Disk, d: Disk, k: Inode) {
    && Some(k) in Candidates(start, Final) && k in start.nodes && k in d.nodes
    && (start.nodes[k].synced ==> d.nodes[k] == start.nodes[k])
  }

  /** What a binding of the destination may be: nothing, what stood there before, or a file
      that holds the recorded bytes on stable storage. */
  ghost predicate Allowed(start: Disk, d: Disk, c: Option<Inode>, record: Record, sha: Hash) {
    c.None? || Stood(start, d, c.value) || Holds(d, c.value, record, sha)
  }

  ghost predicate Invariant(start: Disk, d: Disk, record: Record, sha: Hash) {
    && WellFormed(d)
    && start.nodes.Keys <= d.nodes.Keys
    && (forall c :: c in Candidates(d, Final) ==> Allowed(start, d, c, record, sha))
    // The partial file is never a file that stood at the destination.
    && (forall c :: c in Candidates(d, Partial) && c.Some? ==> c !in Candidates(start, Final))
    && (forall k :: k in start.nodes && start.nodes[k].synced && Some(k) in Candidates(start, Final) ==>
          d.nodes[k] == start.nodes[k])
  }

  /** A disk a history may begin with: the destination and the partial name different files. */
  ghost predicate Fresh(start: Disk) {
    WellFormed(start) && forall c :: c in Candidates(start, Partial) && c.Some? ==> c !in Candidates(start, Final)
  }

  lemma FreshStarts(start: Disk, record: Record, sha: Hash)
    requires Fresh(start)
    ensures Invariant(start, start, record, sha)
  {
  }

  /** The promise itself: after a power loss at any moment the invariant holds, the
      destination is absent, is a file that stood there before, or holds bytes of the recorded
      size and digest. */
  lemma RecoveredDestination(start: Disk, d: Disk, after: Disk, record: Record, sha: Hash)
    requires Invariant(start, d, record, sha) && Recovers(d, after)
    ensures Invariant(start, after, record, sha)
    ensures !Exists(after, Final) || Stood(start, after, after.names[Final]) || Matches(Content(after, Final), record, sha)
  {
    forall c | c in Candidates(after, Final) ensures c in Candidates(d, Final) && Allowed(start, after, c, record, sha) {
      assert Allowed(start, d, c, record, sha);
    }
    forall c | c in Candidates(after, Partial) ensures c in Candidates(d, Partial) {
    }
    forall n, c | c in Candidates(after, n) && c.Some? ensures c.value in after.nodes {
      assert c in Candidates(d, n);
    }
    assert Current(after, Final) in Candidates(after, Final);
  }

  // --- each step keeps the invariant -------------------------------------------------

  /** Moving the destination or the partial aside, or any other name that is neither. */
  lemma MoveAsideKeeps(start: Disk, d: Disk, src: Name, dst: Name, record: Record, sha: Hash)
    requires Invariant(start, d, record, sha) && src in d.names && src != dst
    requires dst != Final && dst != Partial
    ensures Invariant(start, Rename(d, src, dst), record, sha)
  {
    var e := Rename(d, src, dst);
    forall n ensures Candidates(e, n) <= Candidates(d, n) + {None, Some(d.names[src])} {
      CandidatesAfterRename(d, src, dst, n);
    }
    assert Current(d, src) in Candidates(d, src);
    CandidatesAfterRename(d, src, dst, Final);
    CandidatesAfterRename(d, src, dst, Partial);
    forall c | c in Candidates(e, Final) ensures Allowed(start, e, c, record, sha) {
      assert c.None? || Allowed(start, d, c, record, sha);
    }
  }

  /** Promoting a partial whose bytes match and are on stable storage. */
  lemma PromoteKeeps(start: Disk, d: Disk, record: Record, sha: Hash)
    requires Invariant(start, d, record, sha) && Exists(d, Partial) && Holds(d, d.names[Partial], record, sha)
    ensures Invariant(start, Rename(d, Partial, Final), record, sha)
    ensures Candidates(Rename(d, Partial, Final), Final) == Candidates(d, Final) + {Some(d.names[Partial])}
  {
    var e := Rename(d, Partial, Final);
    forall n ensures Candidates(e, n) <= Candidates(d, n) + {None, Some(d.names[Partial])} {
      CandidatesAfterRename(d, Partial, Final, n);
    }
    CandidatesAfterRename(d, Partial, Final, Final);
    CandidatesAfterRename(d, Partial, Final, Partial);
    forall c | c in Candidates(e, Final) ensures Allowed(start, e, c, record, sha) {
      assert c in Candidates(d, Final) ==> Allowed(start, d, c, record, sha);
    }
  }

  /** Flushing a file changes no byte. */
  lemma FsyncKeeps(start: Disk, d: Disk, n: Name, record: Record, sha: Hash)
    requires Invariant(start, d, record, sha) && Exists(d, n)
    ensures Invariant(start, Fsync(d, n), record, sha)
  {
    var e := Fsync(d, n);
    forall m ensures Candidates(e, m) == Candidates(d, m) {
    }
    forall c | c in Candidates(e, Final) ensures Allowed(start, e, c, record, sha) {
      assert c in Candidates(d, Final) && Allowed(start, d, c, record, sha);
    }
  }

  lemma FsyncDirectoryKeeps(start: Disk, d: Disk, record: Record, sha: Hash)
    requires Invariant(start, d, record, sha)
    ensures Invariant(start, FsyncDirectory(d), record, sha)
    ensures forall n :: Candidates(FsyncDirectory(d), n) == {Current(d, n)}
  {
    var e := FsyncDirectory(d);
    forall n ensures Candidates(e, n) <= Candidates(d, n) {
    }
    forall c | c in Candidates(e, Final) ensures Allowed(start, e, c, record, sha) {
      assert c in Candidates(d, Final) && Allowed(start, d, c, record, sha);
    }
  }

  /** A transfer creates the partial under an unused inode. */
  lemma CreateKeeps(start: Disk, d: Disk, n: Name, inode: Inode, record: Record, sha: Hash)
    requires Invariant(start, d, record, sha) && inode !in d.nodes && n != Final && Fresh(start)
    ensures Invariant(start, Create(d, n, inode), record, sha)
  {
    var e := Create(d, n, inode);
    CandidatesAfterCreate(d, n, inode);
    CreateIsWellFormed(d, n, inode);
    hide Candidates, Matches, WellFormed;
    forall c | c in Candidates(e, Final) ensures Allowed(start, e, c, record, sha) {
      assert c in Candidates(d, Final) && Allowed(start, d, c, record, sha);
    }
    assert forall c :: c in Candidates(start, Final) && c.Some? ==> c.value in start.nodes by {
      FreshNamesFiles(start);
    }
  }

  lemma FreshNamesFiles(start: Disk)
    requires Fresh(start)
    ensures forall c :: c in Candidates(start, Final) && c.Some? ==> c.value in start.nodes
  {
  }

  lemma UnlinkKeeps(start: Disk, d: Disk, n: Name, record: Record, sha: Hash)
    requires Invariant(start, d, record, sha)
    ensures Invariant(start, Unlink(d, n), record, sha)
  {
    var e := Unlink(d, n);
    forall m ensures Candidates(e, m) <= Candidates(d, m) + {None} {
    }
    forall c | c in Candidates(e, Final) ensures Allowed(start, e, c, record, sha) {
      assert c.None? || Allowed(start, d, c, record, sha);
    }
  }

  /** A transfer may write any bytes to a partial that does not already hold the recorded
      ones: such a file cannot be one the destination might come back to. */
  lemma WriteKeeps(start: Disk, d: Disk, content: Bytes, record: Record, sha: Hash)
    requires Invariant(start, d, record, sha) && Exists(d, Partial)
    requires Current(d, Partial) in Candidates(d, Final) ==> !Matches(Content(d, Partial), record, sha)
    ensures Invariant(start, Write(d, Partial, content), record, sha)
  {
    var e, k := Write(d, Partial, content), d.names[Partial];
    assert Current(d, Partial) in Candidates(d, Partial);
    forall n ensures Candidates(e, n) == Candidates(d, n) {
    }
    forall c | c in Candidates(e, Final) ensures Allowed(start, e, c, record, sha) {
      assert Allowed(start, d, c, record, sha);
    }
  }

  // --- the calls ------------------------------------------------------------------

  datatype Transport = Curl | Aria2c

  /** aria2 may resume its own sparse file or start afresh; a contiguous partial of curl's
      stays with curl. */
  function TransferCommand(ariaManaged: bool, afresh: bool, connections: nat, aria2cInstalled: bool): Transport {
    if connections > 1 && aria2cInstalled && (afresh || ariaManaged) then Aria2c else Curl
  }

  /** One line of the log: a transfer's resume offset, its transport, and whether aria2's
      control file was beside the partial. */
  datatype Started = Started(offset: nat, transport: Transport, controlled: bool)

  /** A transfer of a file that is not empty starts strictly before its end, and aria2 never
      resumes a partial it did not write. */
  ghost predicate GoodStart(t: Started, record: Record) {
    && (t.offset < record.size || t.offset == record.size == 0)
    && (t.transport == Aria2c ==> t.offset == 0 || t.controlled)
  }

  /** How many digests `valid` reads: none of a file that is missing or of another size. */
  function Checks(d: Disk, n: Name, record: Record): nat {
    if Exists(d, n) && |Content(d, n)| == record.size && record.digest.Some? then 1 else 0
  }

  /** `valid`: a file that is missing or of another size is not valid; only then is it read. */
  method Valid(m: Machine, n: Name, record: Record, sha: Hash) returns (end: Ending, ok: bool)
    requires !m.lost
    modifies m`script, m`lost
    ensures m.lost <==> end == Dead
    ensures end == Done <==> FineFor(old(m.script), Checks(m.disk, n, record))
    ensures end == Done ==> (ok <==> Exists(m.disk, n) && Matches(Content(m.disk, n), record, sha))
    ensures end == Done ==> m.script == Skip(old(m.script), Checks(m.disk, n, record))
  {
    end, ok := Done, false;
    if Exists(m.disk, n) && |Content(m.disk, n)| == record.size {
      ok := true;
      if record.digest.Some? {
        var digest;
        end, digest := m.ReadDigest(n, sha);
        ok := digest == record.digest.value;
      }
    }
  }

  /** The disk with the partial, and its control file if it has one, moved aside. */
  function Quarantined(d: Disk, tag: nat, controlTag: nat): Disk
    requires Partial in d.names
  {
    var moved := Rename(d, Partial, Aside(Partial, tag));
    if Control in moved.names then Rename(moved, Control, Aside(Control, controlTag)) else moved
  }

  function QuarantineSteps(d: Disk): nat { if Control in d.names then 2 else 1 }

  /** `quarantine_partial`: the partial and its aria2 control file move aside together; nothing is
      thrown away. */
  method QuarantinePartial(m: Machine, ghost start: Disk, record: Record, sha: Hash) returns (end: Ending)
    requires Invariant(start, m.disk, record, sha) && Exists(m.disk, Partial)
    requires !m.lost
    modifies m
    ensures m.lost <==> end == Dead
    ensures Invariant(start, m.disk, record, sha)
    ensures end == Done <==> FineFor(old(m.script), QuarantineSteps(old(m.disk)))
    ensures end == Done ==> m.script == Skip(old(m.script), QuarantineSteps(old(m.disk)))
    ensures end == Done ==>
              m.disk == Quarantined(old(m.disk), First(old(m.script)).tag, First(old(m.script)).tag)
  {
    hide Invariant;
    FineSplit(m.script, 1, 1);
    var tag := First(m.script).tag;
    end := m.Replace(Partial, Aside(Partial, tag));
    if end == Done {
      MoveAsideKeeps(start, old(m.disk), Partial, Aside(Partial, tag), record, sha);
      if Control in m.disk.names {
        ghost var moved := m.disk;
        end := m.Replace(Control, Aside(Control, tag));
        if end == Done {
          MoveAsideKeeps(start, moved, Control, Aside(Control, tag), record, sha);
        }
      }
    }
  }

  /** The script of a call whose first steps work and whose `n`th fails. */
  predicate OnlyLastFails(script: seq<Step>, n: nat) {
    |script| == n > 0 && (forall j :: 0 <= j < n - 1 ==> script[j].fault == Fine) && script[n - 1].fault == Fails
  }

  /** `durable_promote`: flush the bytes, rename, flush the name. */
  method DurablePromote(m: Machine, ghost start: Disk, record: Record, sha: Hash) returns (end: Ending)
    requires Invariant(start, m.disk, record, sha)
    requires Exists(m.disk, Partial) && Matches(Content(m.disk, Partial), record, sha)
    requires !m.lost
    modifies m
    ensures m.lost <==> end == Dead
    ensures Invariant(start, m.disk, record, sha)
    ensures end == Done <==> FineFor(old(m.script), 3)
    ensures end == Done ==> m.disk == FsyncDirectory(Rename(Fsync(old(m.disk), Partial), Partial, Final))
    ensures end == Done ==> DurablyHolds(m.disk, Final, record, sha)
    ensures end == Done ==> Exists(m.disk, Final) && Matches(Content(m.disk, Final), record, sha)
    ensures OnlyLastFails(old(m.script), 3) ==>
              end == Raised && m.disk == Rename(Fsync(old(m.disk), Partial), Partial, Final)
  {
    FineSplit(m.script, 1, 2);
    FineSplit(Later(m.script), 1, 1);
    end := m.Flush(Partial);
    if end != Done {
      return;
    }
    FsyncKeeps(start, old(m.disk), Partial, record, sha);
    ghost var flushed := m.disk;
    end := m.Replace(Partial, Final);
    if end != Done {
      return;
    }
    PromoteKeeps(start, flushed, record, sha);
    ghost var named := m.disk;
    end := m.FlushDirectory();
    if end == Done {
      FsyncDirectoryKeeps(start, named, record, sha);
    }
  }

  /** Reading the digest, if there is one, and the three steps of `durable_promote`. */
  function PromoteSteps(record: Record): nat { if record.digest.Some? then 4 else 3 }

  /** `promote_complete_partial`: called with every byte present. Bad bytes move aside and
      the answer is no; good bytes are promoted. */
  method PromoteCompletePartial(m: Machine, ghost start: Disk, record: Record, sha: Hash) returns (end: Ending, promoted: bool)
    requires Invariant(start, m.disk, record, sha)
    requires Exists(m.disk, Partial) && |Content(m.disk, Partial)| == record.size
    requires !m.lost
    modifies m
    ensures m.lost <==> end == Dead
    ensures Invariant(start, m.disk, record, sha)
    ensures end == Done <==> FineFor(old(m.script), PartialSteps(old(m.disk), record, sha))
    ensures promoted <==> end == Done && Matches(Content(old(m.disk), Partial), record, sha)
    ensures end == Done && promoted ==> DurablyHolds(m.disk, Final, record, sha)
    ensures end == Done && promoted ==> Exists(m.disk, Final) && Matches(Content(m.disk, Final), record, sha)
    ensures end == Done && !promoted ==>
              && m.script == Skip(old(m.script), PartialSteps(old(m.disk), record, sha))
              && var tag := First(Later(old(m.script))).tag;
              && m.disk == Quarantined(old(m.disk), tag, tag)
    ensures Matches(Content(old(m.disk), Partial), record, sha) && OnlyLastFails(old(m.script), PromoteSteps(record)) ==>
              end == Raised && m.disk == Rename(Fsync(old(m.disk), Partial), Partial, Final)
  {
    hide Invariant, Quarantined;
    promoted := false;
    if record.digest.Some? {
      FineSplit(m.script, 1, QuarantineSteps(m.disk));
      FineSplit(m.script, 1, 3);
      var digest;
      end, digest := m.ReadDigest(Partial, sha);
      if end != Done {
        return;
      }
      if digest != record.digest.value {
        end := QuarantinePartial(m, start, record, sha);
        return;
      }
    }
    end := DurablePromote(m, start, record, sha);
    promoted := end == Done;
  }

  /** What a transport leaves behind. */
  function Transferred(d: Disk, s: Step): Disk {
    var written :=
      if s.bytes.None? then d
      else if Exists(d, Partial) then Write(d, Partial, s.bytes.value)
      else if s.inode !in d.nodes then Write(Create(d, Partial, s.inode), Partial, s.bytes.value)
      else d;
    if !s.control then Unlink(written, Control)
    else if Control !in written.names && s.inode + 1 !in written.nodes then Create(written, Control, s.inode + 1)
    else written
  }

  lemma FilledKeeps(start: Disk, d: Disk, s: Step, record: Record, sha: Hash)
    requires Fresh(start) && Invariant(start, d, record, sha) && s.bytes.Some?
    requires if Exists(d, Partial) then !Matches(Content(d, Partial), record, sha) else s.inode !in d.nodes
    ensures var there := if Exists(d, Partial) then d else Create(d, Partial, s.inode);
            Invariant(start, Write(there, Partial, s.bytes.value), record, sha)
  {
    if Exists(d, Partial) {
      WriteKeeps(start, d, s.bytes.value, record, sha);
    } else {
      CreateKeeps(start, d, Partial, s.inode, record, sha);
      assert Candidates(Create(d, Partial, s.inode), Final) == Candidates(d, Final);
      WriteKeeps(start, Create(d, Partial, s.inode), s.bytes.value, record, sha);
    }
  }

  /** `subprocess.run(command)`: the transport leaves any bytes it likes in the partial, and
      the power may go while it runs; it may also not start at all. */
  method Transfer(m: Machine, ghost start: Disk, record: Record, sha: Hash) returns (end: Ending, status: int)
    requires Fresh(start) && Invariant(start, m.disk, record, sha)
    requires Exists(m.disk, Partial) ==> !Matches(Content(m.disk, Partial), record, sha)
    requires !m.lost
    modifies m
    ensures m.lost <==> end == Dead
    ensures Invariant(start, m.disk, record, sha)
    ensures end == EndOf(First(old(m.script)).fault) && status == First(old(m.script)).status && m.script == Later(old(m.script))
    ensures m.disk == if end == Raised then old(m.disk) else Transferred(old(m.disk), First(old(m.script)))
  {
    var s := m.NextStep();
    end, status := EndOf(s.fault), s.status;
    if end == Raised {
      return;
    }
    hide Invariant, Fresh;
    if s.bytes.Some? && (Exists(m.disk, Partial) || s.inode !in m.disk.nodes) {
      FilledKeeps(start, m.disk, s, record, sha);
      if !Exists(m.disk, Partial) {
        m.disk := Create(m.disk, Partial, s.inode);
      }
      m.disk := Write(m.disk, Partial, s.bytes.value);
    }
    if s.control && Control !in m.disk.names && s.inode + 1 !in m.disk.nodes {
      CreateKeeps(start, m.disk, Control, s.inode + 1, record, sha);
      m.disk := Create(m.disk, Control, s.inode + 1);
    } else if !s.control {
      UnlinkKeeps(start, m.disk, Control, record, sha);
      m.disk := Unlink(m.disk, Control);
    }
  }

  /** The destination is there with the recorded size and digest. */
  predicate ValidAt(d: Disk, record: Record, sha: Hash) {
    Exists(d, Final) && Matches(Content(d, Final), record, sha)
  }

  /** The partial has every good byte. */
  predicate GoodPartial(d: Disk, record: Record, sha: Hash) {
    Exists(d, Partial) && Matches(Content(d, Partial), record, sha)
  }

  /** Nothing at the destination, and every good byte in the partial. */
  ghost predicate CompleteUnpromoted(d: Disk, record: Record, sha: Hash) {
    !Exists(d, Final) && GoodPartial(d, record, sha)
  }

  /** Its bytes have been flushed, and its directory too, or the flush could only have brought
      back other good bytes. */
  ghost predicate Flushed(d: Disk, record: Record, sha: Hash)
    requires Exists(d, Final)
  {
    && d.nodes[d.names[Final]].synced
    && (Final in d.earlier ==> forall c :: c in d.earlier[Final] ==> c.Some? && Holds(d, c.value, record, sha))
  }

  lemma ValidIsDurableIff(d: Disk, record: Record, sha: Hash)
    requires ValidAt(d, record, sha)
    ensures DurablyHolds(d, Final, record, sha) <==> Flushed(d, record, sha)
  {
    assert Current(d, Final) in Candidates(d, Final);
    assert Final in d.earlier ==> forall c :: c in d.earlier[Final] ==> c in Candidates(d, Final);
  }

  // --- what a call needs to succeed -------------------------------------------------------

  /** The steps that look at the destination, and move it aside if it is there and not valid. */
  function FinalSteps(d: Disk, record: Record, sha: Hash): nat {
    Checks(d, Final, record) + if Exists(d, Final) && !ValidAt(d, record, sha) then 1 else 0
  }

  /** The steps that deal with a partial that is complete or too long; a shorter one is resumed. */
  function PartialSteps(d: Disk, record: Record, sha: Hash): nat {
    if !Exists(d, Partial) || |Content(d, Partial)| < record.size then 0
    else if |Content(d, Partial)| > record.size then QuarantineSteps(d)
    else if GoodPartial(d, record, sha) then PromoteSteps(record)
    else 1 + QuarantineSteps(d)
  }

  /** The transport ends well and leaves exactly the recorded bytes; where there is no partial to
      resume it has to make one. */
  predicate Delivers(s: Step, d: Disk, record: Record, sha: Hash) {
    && s.fault == Fine && s.status == 0 && s.bytes.Some? && Matches(s.bytes.value, record, sha)
    && ((Exists(d, Partial) && |Content(d, Partial)| < record.size) || s.inode !in d.nodes)
  }

  /** The transport comes back with something else than a whole file. */
  predicate KeepsPart(s: Step, d: Disk, record: Record) {
    && s.fault == Fine
    && (s.status != 0 || !Exists(Transferred(d, s), Partial) || |Content(Transferred(d, s), Partial)| != record.size)
  }

  /** It ends well and leaves as many bytes as recorded, but not those. */
  predicate DeliversWrong(s: Step, d: Disk, record: Record, sha: Hash) {
    && s.fault == Fine && s.status == 0 && s.bytes.Some? && |s.bytes.value| == record.size
    && !Matches(s.bytes.value, record, sha)
    && ((Exists(d, Partial) && |Content(d, Partial)| < record.size) || s.inode !in d.nodes)
  }

  /** Where there is neither a valid destination nor a good partial and both are out of the way, the
      script from the transfer on. */
  function FromTransfer(d: Disk, script: seq<Step>, record: Record, sha: Hash): seq<Step> {
    Skip(Skip(script, FinalSteps(d, record, sha)), PartialSteps(d, record, sha))
  }

  /** The call gets as far as the transfer, and that leaves wrong bytes of the right length. */
  predicate BringsWrong(d: Disk, script: seq<Step>, record: Record, sha: Hash) {
    && !ValidAt(d, record, sha) && !GoodPartial(d, record, sha)
    && FineFor(script, FinalSteps(d, record, sha))
    && FineFor(Skip(script, FinalSteps(d, record, sha)), PartialSteps(d, record, sha))
    && DeliversWrong(First(FromTransfer(d, script, record, sha)), d, record, sha)
  }

  /** Exactly what has to work for a call to return normally, by the disk and the script before it. */
  predicate Succeeds(d: Disk, script: seq<Step>, record: Record, sha: Hash) {
    var looked := Skip(script, FinalSteps(d, record, sha));
    var cleared := FromTransfer(d, script, record, sha);
    && FineFor(script, FinalSteps(d, record, sha))
    && (ValidAt(d, record, sha) ||
        (&& FineFor(looked, PartialSteps(d, record, sha))
         && (GoodPartial(d, record, sha) ||
             (Delivers(First(cleared), d, record, sha) && FineFor(Later(cleared), PromoteSteps(record))))))
  }

  /** What the first part leaves: the destination free, the rest as it was. */
  ghost predicate FinalFree(before: Disk, after: Disk) {
    && !Exists(after, Final) && after.nodes == before.nodes
    && (forall n :: n == Partial || n == Control ==> Current(after, n) == Current(before, n))
  }

  /** Look at the destination, and move it aside if it is there and not valid. */
  method ClearFinal(m: Machine, ghost start: Disk, record: Record, sha: Hash) returns (end: Ending, valid: bool)
    requires Invariant(start, m.disk, record, sha)
    requires !m.lost
    modifies m
    ensures m.lost <==> end == Dead
    ensures Invariant(start, m.disk, record, sha)
    ensures end == Done <==> FineFor(old(m.script), FinalSteps(old(m.disk), record, sha))
    ensures end == Done ==> m.script == Skip(old(m.script), FinalSteps(old(m.disk), record, sha))
    ensures end == Done ==> (valid <==> ValidAt(old(m.disk), record, sha))
    ensures ValidAt(old(m.disk), record, sha) ==> m.disk == old(m.disk)
    ensures end == Done && !valid ==> FinalFree(old(m.disk), m.disk)
    ensures end == Done && !valid && Exists(old(m.disk), Final) ==>
              exists tag :: m.disk == Rename(old(m.disk), Final, Aside(Final, tag))
    ensures end == Done && !valid && !Exists(old(m.disk), Final) ==> m.disk == old(m.disk)
  {
    hide Invariant;
    FineSplit(m.script, Checks(m.disk, Final, record), 1);
    end, valid := Valid(m, Final, record, sha);
    if end == Done && !valid && Exists(m.disk, Final) {
      var tag := First(m.script).tag;
      MoveAsideKeeps(start, m.disk, Final, Aside(Final, tag), record, sha);
      end := m.Replace(Final, Aside(Final, tag));
    }
  }

  /** Promote a partial that is complete and good, move one aside that is complete and bad or too
      long, and leave any other to be resumed. */
  method ClearPartial(m: Machine, ghost start: Disk, record: Record, sha: Hash) returns (end: Ending, promoted: bool)
    requires Invariant(start, m.disk, record, sha)
    requires !m.lost
    modifies m
    ensures m.lost <==> end == Dead
    ensures Invariant(start, m.disk, record, sha)
    ensures end == Done <==> FineFor(old(m.script), PartialSteps(old(m.disk), record, sha))
    ensures promoted <==> end == Done && GoodPartial(old(m.disk), record, sha)
    ensures end == Done && promoted ==> DurablyHolds(m.disk, Final, record, sha) && ValidAt(m.disk, record, sha)
    ensures end == Done && !promoted ==> m.script == Skip(old(m.script), PartialSteps(old(m.disk), record, sha))
    ensures end == Done && !promoted ==>
              if PartialSteps(old(m.disk), record, sha) == 0 then m.disk == old(m.disk)
              else exists tag :: m.disk == Quarantined(old(m.disk), tag, tag)
    ensures CompleteUnpromoted(old(m.disk), record, sha) && OnlyLastFails(old(m.script), PromoteSteps(record)) ==>
              end == Raised && m.disk == Rename(Fsync(old(m.disk), Partial), Partial, Final)
  {
    hide Invariant, Quarantined, DurablyHolds;
    end, promoted := Done, false;
    if Exists(m.disk, Partial) && |Content(m.disk, Partial)| > record.size {
      end := QuarantinePartial(m, start, record, sha);
    } else if Exists(m.disk, Partial) && |Content(m.disk, Partial)| == record.size {
      end, promoted := PromoteCompletePartial(m, start, record, sha);
    }
  }

  /** The transfer, the look at what it left, and the promotion. It resumes where the partial ends,
      with aria2 only where there is nothing to resume or its own control file. */
  method Fetch(m: Machine, ghost start: Disk, record: Record, sha: Hash, connections: nat, aria2cInstalled: bool)
    returns (end: Ending, started: Started)
    requires Fresh(start) && Invariant(start, m.disk, record, sha)
    requires Exists(m.disk, Partial) ==> |Content(m.disk, Partial)| < record.size
    requires !m.lost
    modifies m
    ensures m.lost <==> end == Dead
    ensures Invariant(start, m.disk, record, sha)
    ensures end == Done <==>
              Delivers(First(old(m.script)), old(m.disk), record, sha) && FineFor(Later(old(m.script)), PromoteSteps(record))
    ensures end == Done ==> DurablyHolds(m.disk, Final, record, sha) && ValidAt(m.disk, record, sha)
    // Whatever arrived of a file that is not complete is kept to be resumed.
    ensures KeepsPart(First(old(m.script)), old(m.disk), record) ==>
              end == Raised && m.disk == Transferred(old(m.disk), First(old(m.script)))
    // Wrong bytes of the right length are not: they are moved aside with their control file.
    ensures DeliversWrong(First(old(m.script)), old(m.disk), record, sha) && FineFor(Later(old(m.script)), 3) ==>
              end == Raised && Current(m.disk, Partial) == None && Current(m.disk, Control) == None
    ensures started.offset == (if Exists(old(m.disk), Partial) then |Content(old(m.disk), Partial)| else 0)
    ensures started.controlled <==> Control in old(m.disk).names
    ensures started.transport == Aria2c <==> connections > 1 && aria2cInstalled && (started.offset == 0 || started.controlled)
  {
    hide Invariant, DurablyHolds;
    var offset := if Exists(m.disk, Partial) then |Content(m.disk, Partial)| else 0;
    var transport := TransferCommand(Control in m.disk.names, offset == 0, connections, aria2cInstalled);
    started := Started(offset, transport, Control in m.disk.names);
    ghost var d, s := m.disk, First(m.script);
    FineSplit(Later(m.script), 1, 3);
    InvariantIsWellFormed(start, d, record, sha);
    var status;
    end, status := Transfer(m, start, record, sha);
    if end != Done {
      return;
    }
    TransferredPartial(d, s);
    if status != 0 || !Exists(m.disk, Partial) || |Content(m.disk, Partial)| != record.size {
      return Raised, started;
    }
    if record.digest.Some? {
      var digest;
      end, digest := m.ReadDigest(Partial, sha);
      if end != Done {
        return;
      }
      if digest != record.digest.value {
        end := QuarantinePartial(m, start, record, sha);
        if end == Done {
          end := Raised;
        }
        return;
      }
    }
    end := DurablePromote(m, start, record, sha);
  }

  /** What the partial is after a transfer. */
  lemma TransferredPartial(d: Disk, s: Step)
    requires WellFormed(d)
    ensures var e := Transferred(d, s);
            && (Exists(e, Partial) <==> Exists(d, Partial) || (s.bytes.Some? && s.inode !in d.nodes))
            && (Exists(e, Partial) ==>
                  Content(e, Partial) == if s.bytes.Some? then s.bytes.value else Content(d, Partial))
  {
    assert Current(d, Partial) in Candidates(d, Partial);
  }

  lemma InvariantIsWellFormed(start: Disk, d: Disk, record: Record, sha: Hash)
    requires Invariant(start, d, record, sha)
    ensures WellFormed(d)
  {
  }

  /** `download`, whole. It returns normally exactly when everything it needs works; however it
      ends, the invariant holds, so a power loss then keeps the promise. A normal return leaves
      the recorded bytes at the destination. It promoted them exactly when the destination was not
      valid before the call, and then they are safe from a power loss; a destination that was
      valid is exactly as safe as it was. */
  method Download(m: Machine, record: Record, sha: Hash, connections: nat, aria2cInstalled: bool, ghost start: Disk)
    returns (end: Ending, promoted: bool, started: Option<Started>)
    requires Fresh(start) && Invariant(start, m.disk, record, sha)
    requires !m.lost
    modifies m
    ensures m.lost <==> end == Dead
    ensures Invariant(start, m.disk, record, sha)
    ensures end == Done <==> Succeeds(old(m.disk), old(m.script), record, sha)
    ensures end == Done ==> ValidAt(m.disk, record, sha)
    ensures promoted <==> end == Done && !ValidAt(old(m.disk), record, sha)
    ensures ValidAt(old(m.disk), record, sha) ==> m.disk == old(m.disk)
    ensures end == Done ==>
              (DurablyHolds(m.disk, Final, record, sha) <==>
               !ValidAt(old(m.disk), record, sha) || Flushed(old(m.disk), record, sha))
    ensures started.Some? ==> GoodStart(started.value, record)
    ensures started.Some? ==> !ValidAt(old(m.disk), record, sha) && !GoodPartial(old(m.disk), record, sha)
    ensures end == Done ==> (started.Some? <==> !ValidAt(old(m.disk), record, sha) && !GoodPartial(old(m.disk), record, sha))
    // Wrong bytes are not left to be resumed.
    ensures BringsWrong(old(m.disk), old(m.script), record, sha) &&
            FineFor(Later(FromTransfer(old(m.disk), old(m.script), record, sha)), 3) ==>
              end == Raised && Current(m.disk, Partial) == None && Current(m.disk, Control) == None
    // A way a call can fail that matters for what a power loss finds.
    ensures CompleteUnpromoted(old(m.disk), record, sha) && OnlyLastFails(old(m.script), PromoteSteps(record)) ==>
              end == Raised && m.disk == Rename(Fsync(old(m.disk), Partial), Partial, Final)
  {
    hide Invariant, Fresh, Quarantined;
    promoted, started := false, None;
    ghost var before := m.disk;
    var valid;
    end, valid := ClearFinal(m, start, record, sha);
    if end != Done || valid {
      if end == Done {
        ValidIsDurableIff(m.disk, record, sha);
      }
      return;
    }
    SamePartial(before, m.disk, record, sha);
    ghost var cleared := m.disk;
    end, promoted := ClearPartial(m, start, record, sha);
    if end != Done || promoted {
      return;
    }
    ShortPartial(cleared, m.disk, record, sha);
    var how;
    end, how := Fetch(m, start, record, sha, connections, aria2cInstalled);
    started, promoted := Some(how), end == Done;
  }

  /** Moving the destination aside leaves what there is to do with the partial as it was. */
  lemma SamePartial(before: Disk, after: Disk, record: Record, sha: Hash)
    requires FinalFree(before, after)
    ensures PartialSteps(after, record, sha) == PartialSteps(before, record, sha)
    ensures GoodPartial(after, record, sha) <==> GoodPartial(before, record, sha)
    ensures forall s :: Delivers(s, after, record, sha) <==> Delivers(s, before, record, sha)
    ensures forall s :: DeliversWrong(s, after, record, sha) <==> DeliversWrong(s, before, record, sha)
    ensures CompleteUnpromoted(before, record, sha) ==> CompleteUnpromoted(after, record, sha)
  {
    assert Current(after, Partial) == Current(before, Partial) && Current(after, Control) == Current(before, Control);
  }

  /** What is left to resume is shorter than the file, and there is something exactly when there was. */
  lemma ShortPartial(before: Disk, after: Disk, record: Record, sha: Hash)
    requires !GoodPartial(before, record, sha)
    requires if PartialSteps(before, record, sha) == 0 then after == before
             else Partial in before.names && exists tag :: after == Quarantined(before, tag, tag)
    ensures Exists(after, Partial) ==> |Content(after, Partial)| < record.size
    ensures forall s :: Delivers(s, after, record, sha) <==> Delivers(s, before, record, sha)
    ensures forall s :: DeliversWrong(s, after, record, sha) <==> DeliversWrong(s, before, record, sha)
  {
  }

  // --- whole histories -----------------------------------------------------------------

  /** One boot: some calls of `download`, then a power loss with what it leaves behind. */
  datatype Life = Life(script: seq<Step>, calls: nat, picks: map<Name, Option<Inode>>, bytes: map<Inode, Bytes>)

  /** One such boot. The promise is kept; a file that was there for good still is, and a first call
      that succeeds brings it there. */
  method Boot(start: Disk, disk: Disk, life: Life, record: Record, sha: Hash, connections: nat, aria2cInstalled: bool)
    returns (after: Disk)
    requires Fresh(start) && Invariant(start, disk, record, sha)
    ensures Promised(start, after, record, sha) && Invariant(start, after, record, sha)
    ensures ValidAt(after, record, sha) <==> DurablyHolds(after, Final, record, sha)
    ensures DurablyHolds(disk, Final, record, sha) ==> ValidAt(after, record, sha)
    ensures Arrives(disk, life, record, sha) ==> ValidAt(after, record, sha)
  {
    hide Invariant, Succeeds, Promised, DurablyHolds;
    var m := new Machine(disk, life.script);
    ghost var safe := DurablyHolds(disk, Final, record, sha);
    ghost var arrives := Arrives(disk, life, record, sha);
    if safe { DurableIsValid(disk, record, sha); }
    for call := 0 to life.calls
      invariant !m.lost && Invariant(start, m.disk, record, sha)
      invariant safe ==> m.disk == disk
      invariant call == 0 ==> m.disk == disk && m.script == life.script
      invariant call > 0 && arrives ==> DurablyHolds(m.disk, Final, record, sha)
    {
      if DurablyHolds(m.disk, Final, record, sha) { DurableIsValid(m.disk, record, sha); }
      var end, _, _ := Download(m, record, sha, connections, aria2cInstalled, start);
      if end == Dead {
        break;
      }
    }
    after := Recover(m.disk, life.picks, life.bytes);
    Recovered(start, m.disk, life, record, sha);
  }

  /** A file that was not there is brought there by the first call. */
  predicate Arrives(disk: Disk, life: Life, record: Record, sha: Hash) {
    life.calls > 0 && !ValidAt(disk, record, sha) && Succeeds(disk, life.script, record, sha)
  }

  lemma DurableIsValid(d: Disk, record: Record, sha: Hash)
    requires DurablyHolds(d, Final, record, sha)
    ensures ValidAt(d, record, sha)
  {
    assert Current(d, Final) in Candidates(d, Final);
  }

  /** The promise and what carries it. */
  ghost predicate Promised(start: Disk, d: Disk, record: Record, sha: Hash) {
    && Invariant(start, d, record, sha)
    && (!Exists(d, Final) || Stood(start, d, d.names[Final]) || Matches(Content(d, Final), record, sha))
  }

  lemma Recovered(start: Disk, d: Disk, life: Life, record: Record, sha: Hash)
    requires Invariant(start, d, record, sha)
    ensures var after := Recover(d, life.picks, life.bytes);
            && Promised(start, after, record, sha)
            && (ValidAt(after, record, sha) <==> DurablyHolds(after, Final, record, sha))
            && (DurablyHolds(d, Final, record, sha) ==> ValidAt(after, record, sha))
  {
    var after := Recover(d, life.picks, life.bytes);
    RecoverRecovers(d, life.picks, life.bytes);
    RecoveredDestination(start, d, after, record, sha);
    if DurablyHolds(d, Final, record, sha) {
      DurableSurvives(d, Final, record, sha, after);
    }
    if ValidAt(after, record, sha) {
      ValidIsDurableIff(after, record, sha);
    }
    if DurablyHolds(after, Final, record, sha) {
      DurableIsValid(after, record, sha);
    }
  }

  /** The disk a boot starts from. */
  function Before(start: Disk, recovered: seq<Disk>, j: nat): Disk
    requires j <= |recovered|
  {
    if j == 0 then start else recovered[j - 1]
  }

  /** Any number of boots, each with any number of interrupted, failed or completed calls: after
      every one of the power losses the destination is absent, is a file that stood there before
      the history began, or holds bytes of the recorded size and digest. A boot whose first call
      succeeds leaves the file there, and a file that is there after one power loss is there after
      every later one. */
  method History(start: Disk, lives: seq<Life>, record: Record, sha: Hash, connections: nat, aria2cInstalled: bool)
    returns (recovered: seq<Disk>)
    requires Fresh(start)
    ensures |recovered| == |lives|
    ensures forall j :: 0 <= j < |recovered| ==> Promised(start, recovered[j], record, sha)
    ensures forall j :: 0 <= j < |recovered| && Arrives(Before(start, recovered, j), lives[j], record, sha) ==> ValidAt(recovered[j], record, sha)
    ensures forall i, j :: 0 <= i <= j < |recovered| && ValidAt(recovered[i], record, sha) ==> ValidAt(recovered[j], record, sha)
  {
    hide Invariant, Promised, Arrives, ValidAt, DurablyHolds;
    recovered := [];
    var disk := start;
    FreshStarts(start, record, sha);
    for k := 0 to |lives|
      invariant |recovered| == k && Invariant(start, disk, record, sha) && disk == Before(start, recovered, k)
      invariant forall j :: 0 <= j < k ==> Promised(start, recovered[j], record, sha)
      invariant forall j :: 0 <= j < k && ValidAt(recovered[j], record, sha) ==> DurablyHolds(recovered[j], Final, record, sha)
      invariant forall j :: 0 <= j < k && Arrives(Before(start, recovered, j), lives[j], record, sha) ==> ValidAt(recovered[j], record, sha)
      invariant forall i, j :: 0 <= i <= j < k && ValidAt(recovered[i], record, sha) ==> ValidAt(recovered[j], record, sha)
    {
      disk := Boot(start, disk, lives[k], record, sha, connections, aria2cInstalled);
      recovered := recovered + [disk];
    }
  }

  // --- where durability stops ------------------------------------------------------------

  /** A file that is there only under a name that has not been flushed can be gone. */
  lemma UnflushedNameCanVanish(d: Disk, record: Record, sha: Hash) returns (after: Disk)
    requires WellFormed(d) && Exists(d, Partial) && Current(d, Final) == None
    requires Matches(Content(d, Partial), record, sha)
    ensures var renamed := Rename(Fsync(d, Partial), Partial, Final);
            ValidAt(renamed, record, sha) && Recovers(renamed, after) && !Exists(after, Final)
  {
    var flushed := Fsync(d, Partial);
    var renamed := Rename(flushed, Partial, Final);
    forall n ensures Candidates(renamed, n) <= Candidates(d, n) + {None, Some(d.names[Partial])} {
      CandidatesAfterRename(flushed, Partial, Final, n);
    }
    assert Current(d, Partial) in Candidates(d, Partial);
    RecoverRecovers(renamed, map[Final := None], map[]);
    after := Recover(renamed, map[Final := None], map[]);
    CandidatesAfterRename(flushed, Partial, Final, Final);
    assert None in Candidates(renamed, Final);
    assert Picked(renamed, map[Final := None], Final) == None;
  }

  /** The whole of it. A first call, on a disk with a complete partial, fails at its very last step,
      the flush of the directory. A second call, in which nothing fails, returns normally: the queue
      counts the file as complete. Then the power goes, and the destination is gone. */
  method VerifiedDestinationCanVanish(content: Bytes, record: Record, sha: Hash, connections: nat, aria2cInstalled: bool)
    returns (first: Ending, second: Ending, ghost after: Disk)
    requires Matches(content, record, sha)
    ensures first == Raised && second == Done
    ensures !Exists(after, Final)
    ensures exists end: Disk :: ValidAt(end, record, sha) && Recovers(end, after)
  {
    hide Invariant, Quarantined, FromTransfer, BringsWrong, GoodStart;
    var d := OnlyPartial(content);
    var fine := Step(Fine, 0, 0, None, false, 0);
    var script := seq(PromoteSteps(record) - 1, _ => fine) + [fine.(fault := Fails)];
    OnlyPartialIsComplete(content, record, sha);
    FreshStarts(d, record, sha);
    after := UnflushedNameCanVanish(d, record, sha);
    hide OnlyPartial, Fresh, Recovers;
    var m := new Machine(d, script);
    var promoted, started;
    first, promoted, started := Download(m, record, sha, connections, aria2cInstalled, d);
    m.script := [];
    NothingFails(FinalSteps(m.disk, record, sha));
    second, promoted, started := Download(m, record, sha, connections, aria2cInstalled, d);
    assert ValidAt(m.disk, record, sha) && Recovers(m.disk, after);
  }

  /** A disk with one file, the partial, flushed. */
  function OnlyPartial(content: Bytes): Disk { Disk(map[0 := Node(content, true)], map[Partial := 0], map[]) }

  lemma OnlyPartialIsComplete(content: Bytes, record: Record, sha: Hash)
    requires Matches(content, record, sha)
    ensures Fresh(OnlyPartial(content)) && CompleteUnpromoted(OnlyPartial(content), record, sha)
    ensures Current(OnlyPartial(content), Final) == None
  {
  }

  lemma {:induction false} NothingFails(n: nat)
    ensures FineFor([], n)
  {
    if n > 0 {
      NothingFails(n - 1);
    }
  }
}

/** The steps a writer takes on a crash-prone disk, each of which may work, fail, or be cut short. */
module CrashMachine {
  import opened Common
  import opened Artifact
  import opened CrashDisk

  /** What the world does to one step: let it work, make it fail, or cut the power first. */
  datatype Fault = Fine | Fails | PowerLoss

  /** The tag of a name moved aside, the inode of a file created, the bytes a transfer leaves
      in the partial, whether aria2's control file is there after it, and its exit status. */
  datatype Step = Step(fault: Fault, tag: nat, inode: Inode, bytes: Option<Bytes>, control: bool, status: int)

  /** How a call ends: normally, with an exception, or cut short by a power loss. */
  datatype Ending = Done | Raised | Dead

  /** The next entry of a script; steps past its end work. */
  function First(script: seq<Step>): Step {
    if script == [] then Step(Fine, 0, 0, None, false, 0) else script[0]
  }

  function Later(script: seq<Step>): seq<Step> {
    if script == [] then [] else script[1..]
  }

  /** What is left of a script after some steps. */
  function Skip(script: seq<Step>, n: nat): seq<Step>
    decreases n
  {
    if n == 0 then script else Skip(Later(script), n - 1)
  }

  /** The next steps all work. */
  predicate FineFor(script: seq<Step>, n: nat)
    decreases n
  {
    n == 0 || (First(script).fault == Fine && FineFor(Later(script), n - 1))
  }

  lemma {:induction false} FineSplit(script: seq<Step>, a: nat, b: nat)
    ensures FineFor(script, a + b) <==> FineFor(script, a) && FineFor(Skip(script, a), b)
    ensures Skip(script, a + b) == Skip(Skip(script, a), b)
    decreases a
  {
    if a > 0 {
      FineSplit(Later(script), a - 1, b);
    }
  }

  /** How a step that met this fault ends, and would have worked otherwise. */
  function EndOf(fault: Fault): Ending {
    match fault case Fine => Done case Fails => Raised case PowerLoss => Dead
  }

  /** The bytes that a write which does not work leaves in its file. */
  function Left(s: Step): Bytes { if s.bytes.Some? then s.bytes.value else [] }

  class Machine {
    var disk: Disk
    /** What the world will do, one entry for each step that can fail. */
    var script: seq<Step>
    /** The power has gone, and whoever was at work with it. */
    var lost: bool

    constructor (disk: Disk, script: seq<Step>)
      ensures this.disk == disk && this.script == script && !lost
    {
      this.disk, this.script, lost := disk, script, false;
    }

    method NextStep() returns (s: Step)
      requires !lost
      modifies this`script, this`lost
      ensures s == First(old(script)) && script == Later(old(script))
      ensures lost <==> s.fault == PowerLoss
    {
      if script == [] {
        s := Step(Fine, 0, 0, None, false, 0);
      } else {
        s, script := script[0], script[1..];
      }
      lost := s.fault == PowerLoss;
    }

    /** `os.replace` */
    method Replace(src: Name, dst: Name) returns (end: Ending)
      requires src != dst
      requires !lost
      modifies this`disk, this`script, this`lost
      ensures script == Later(old(script))
      ensures lost <==> end == Dead
      ensures end == Done <==> First(old(script)).fault == Fine && src in old(disk).names
      ensures end == Dead <==> First(old(script)).fault == PowerLoss
      ensures end == Done ==> src in old(disk).names && disk == Rename(old(disk), src, dst)
      ensures end != Done ==> disk == old(disk)
    {
      var s := NextStep();
      end := if s.fault == PowerLoss then Dead else if s.fault == Fails || src !in disk.names then Raised else Done;
      if end == Done {
        disk := Rename(disk, src, dst);
      }
    }

    /** `os.fsync` of a file */
    method Flush(n: Name) returns (end: Ending)
      requires !lost
      modifies this`disk, this`script, this`lost
      ensures script == Later(old(script))
      ensures lost <==> end == Dead
      ensures end == Done <==> First(old(script)).fault == Fine && Exists(old(disk), n)
      ensures end == Dead <==> First(old(script)).fault == PowerLoss
      ensures end == Done ==> Exists(old(disk), n) && disk == Fsync(old(disk), n)
      ensures end != Done ==> disk == old(disk)
    {
      var s := NextStep();
      end := if s.fault == PowerLoss then Dead else if s.fault == Fails || !Exists(disk, n) then Raised else Done;
      if end == Done {
        disk := Fsync(disk, n);
      }
    }

    /** `fsync_parent` */
    method FlushDirectory() returns (end: Ending)
      requires !lost
      modifies this`disk, this`script, this`lost
      ensures script == Later(old(script))
      ensures lost <==> end == Dead
      ensures end == Done <==> First(old(script)).fault == Fine
      ensures end == Raised <==> First(old(script)).fault == Fails
      ensures end == Done ==> disk == FsyncDirectory(old(disk))
      ensures end != Done ==> disk == old(disk)
    {
      var s := NextStep();
      end := if s.fault == PowerLoss then Dead else if s.fault == Fails then Raised else Done;
      if end == Done {
        disk := FsyncDirectory(disk);
      }
    }

    /** Hash a file that is there; reading it can fail. */
    method ReadDigest(n: Name, sha: Hash) returns (end: Ending, digest: string)
      requires Exists(disk, n)
      requires !lost
      modifies this`script, this`lost
      ensures script == Later(old(script))
      ensures lost <==> end == Dead
      ensures end == EndOf(First(old(script)).fault)
      ensures end == Done ==> digest == sha(Content(disk, n))
    {
      var s := NextStep();
      end := if s.fault == PowerLoss then Dead else if s.fault == Fails then Raised else Done;
      digest := sha(Content(disk, n));
    }

    /** Create a file exclusively: a name that is taken is not an error of the step but an
        answer. */
    method CreateNew(n: Name) returns (end: Ending, taken: bool)
      requires !lost
      modifies this`disk, this`script, this`lost
      ensures script == Later(old(script))
      ensures lost <==> end == Dead
      ensures taken ==> n in old(disk).names && disk == old(disk)
      ensures end == Dead <==> First(old(script)).fault == PowerLoss
      ensures end == Done && taken <==> First(old(script)).fault == Fine && n in old(disk).names
      ensures end == Done && !taken <==>
                First(old(script)).fault == Fine && n !in old(disk).names && First(old(script)).inode !in old(disk).nodes
      ensures end == Done && !taken ==> disk == Create(old(disk), n, First(old(script)).inode)
      ensures end != Done ==> disk == old(disk)
    {
      var s := NextStep();
      end, taken := if s.fault == PowerLoss then Dead else if s.fault == Fails then Raised else Done, false;
      if end == Done && n in disk.names {
        taken := true;
      } else if end == Done && s.inode in disk.nodes {
        end := Raised;
      } else if end == Done {
        disk := Create(disk, n, s.inode);
      }
    }

    /** `write_all`: a failed or interrupted write leaves any bytes. */
    method WriteAll(n: Name, content: Bytes) returns (end: Ending)
      requires !lost
      modifies this`disk, this`script, this`lost
      ensures script == Later(old(script))
      ensures lost <==> end == Dead
      ensures end == Done <==> First(old(script)).fault == Fine && Exists(old(disk), n)
      ensures end == Dead <==> First(old(script)).fault == PowerLoss
      ensures end == Done ==> Exists(old(disk), n) && disk == Write(old(disk), n, content)
      ensures end != Done ==>
                disk == if Exists(old(disk), n) then Write(old(disk), n, Left(First(old(script)))) else old(disk)
    {
      var s := NextStep();
      end := if s.fault == PowerLoss then Dead else if s.fault == Fails || !Exists(disk, n) then Raised else Done;
      if Exists(disk, n) {
        disk := Write(disk, n, if end == Done then content else Left(s));
      }
    }

    /** `remove_file`, whose own failure is ignored. */
    method Remove(n: Name)
      requires !lost
      modifies this`disk, this`script, this`lost
      ensures script == Later(old(script))
      ensures lost <==> First(old(script)).fault == PowerLoss
      ensures disk == if First(old(script)).fault == Fine then Unlink(old(disk), n) else old(disk)
    {
      var s := NextStep();
      if s.fault == Fine {
        disk := Unlink(disk, n);
      }
    }
  }
}

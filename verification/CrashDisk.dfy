/** One directory of a filesystem with a volatile layer and a durable one.

    A file's bytes are safe from a power loss only once the file has been fsynced, and a name
    only once its directory has. Until then a power loss may leave any bytes in the file, and
    may leave the name bound to anything it has been bound to since the last directory fsync,
    each name on its own: a rename can survive at one end and not at the other. */
module CrashDisk {
  import opened Common
  import opened Artifact

  type Inode = nat

  /** The names the writers use: the file, its `.partial`, the aria2 control file beside it,
      a name moved aside, and a temporary file. */
  datatype Name = Final | Partial | Control | Aside(of: Name, tag: nat) | Temporary(attempt: nat)

  datatype Node = Node(content: Bytes, synced: bool)

  /** `names` is what a process sees; `earlier` keeps, for each name changed since the last
      directory fsync, every binding it may still come back to. */
  datatype DiskOf<N> = Disk(nodes: map<Inode, Node>, names: map<N, Inode>, earlier: map<N, set<Option<Inode>>>)

  /** The names of one file. */
  type Disk = DiskOf<Name>

  function Current<N(==)>(d: DiskOf<N>, n: N): Option<Inode> { Get(d.names, n) }

  /** Every binding a power loss now could leave a name with. */
  function Candidates<N(==)>(d: DiskOf<N>, n: N): set<Option<Inode>> {
    {Current(d, n)} + if n in d.earlier then d.earlier[n] else {}
  }

  ghost predicate WellFormed<N(!new)>(d: DiskOf<N>) {
    forall n, c :: c in Candidates(d, n) && c.Some? ==> c.value in d.nodes
  }

  function Exists<N(==)>(d: DiskOf<N>, n: N): bool { n in d.names && d.names[n] in d.nodes }

  function Content<N(==)>(d: DiskOf<N>, n: N): Bytes
    requires Exists(d, n)
  {
    d.nodes[d.names[n]].content
  }

  // --- what a process can do ----------------------------------------------------

  function Rebound<N(==)>(d: DiskOf<N>, n: N): map<N, set<Option<Inode>>> {
    d.earlier[n := Candidates(d, n)]
  }

  /** `os.replace(src, dst)` */
  function Rename<N(==)>(d: DiskOf<N>, src: N, dst: N): DiskOf<N>
    requires src in d.names && src != dst
  {
    Disk(d.nodes, (d.names - {src})[dst := d.names[src]],
         d.earlier[src := Candidates(d, src)][dst := Candidates(d, dst)])
  }

  function Unlink<N(==)>(d: DiskOf<N>, n: N): DiskOf<N> {
    Disk(d.nodes, d.names - {n}, Rebound(d, n))
  }

  /** A new empty file at an unused inode. */
  function Create<N(==)>(d: DiskOf<N>, n: N, inode: Inode): DiskOf<N>
    requires inode !in d.nodes
  {
    Disk(d.nodes[inode := Node([], false)], d.names[n := inode], Rebound(d, n))
  }

  /** The bytes of the file at `n` become `content`, not yet on stable storage. */
  function Write<N(==)>(d: DiskOf<N>, n: N, content: Bytes): DiskOf<N>
    requires Exists(d, n)
  {
    d.(nodes := d.nodes[d.names[n] := Node(content, false)])
  }

  function Fsync<N(==)>(d: DiskOf<N>, n: N): DiskOf<N>
    requires Exists(d, n)
  {
    d.(nodes := d.nodes[d.names[n] := d.nodes[d.names[n]].(synced := true)])
  }

  function FsyncDirectory<N(==)>(d: DiskOf<N>): DiskOf<N> { d.(earlier := map[]) }

  lemma CandidatesAfterRename<N>(d: DiskOf<N>, src: N, dst: N, n: N)
    requires src in d.names && src != dst
    ensures Candidates(Rename(d, src, dst), n) ==
              if n == dst then Candidates(d, dst) + {Some(d.names[src])}
              else if n == src then Candidates(d, src) + {None}
              else Candidates(d, n)
  {
  }

  lemma CandidatesAfterCreate<N(!new)>(d: DiskOf<N>, n: N, inode: Inode)
    requires inode !in d.nodes
    ensures forall m :: Candidates(Create(d, n, inode), m) <= Candidates(d, m) + {Some(inode)}
    ensures forall m :: m != n ==> Candidates(Create(d, n, inode), m) == Candidates(d, m)
  {
  }

  lemma CreateIsWellFormed<N(!new)>(d: DiskOf<N>, n: N, inode: Inode)
    requires WellFormed(d) && inode !in d.nodes
    ensures WellFormed(Create(d, n, inode))
  {
    CandidatesAfterCreate(d, n, inode);
    hide Candidates;
  }

  // --- power loss ------------------------------------------------------------------

  /** What a disk can look like after a power loss and a reboot. */
  ghost predicate Recovers<N(!new)>(d: DiskOf<N>, after: DiskOf<N>) {
    && after.earlier == map[]
    && after.nodes.Keys == d.nodes.Keys
    && (forall k :: k in d.nodes && d.nodes[k].synced ==> after.nodes[k].content == d.nodes[k].content)
    && (forall k :: k in after.nodes ==> after.nodes[k].synced)
    && (forall n :: Current(after, n) in Candidates(d, n))
  }

  /** One recovery: each name falls back to the binding picked for it where that is possible,
      and each unsynced file to the bytes picked for it. */
  function Recover<N(==)>(d: DiskOf<N>, picks: map<N, Option<Inode>>, bytes: map<Inode, Bytes>): DiskOf<N> {
    Disk(map k | k in d.nodes ::
           Node(if d.nodes[k].synced || k !in bytes then d.nodes[k].content else bytes[k], true),
         map n | n in d.names.Keys + d.earlier.Keys && Picked(d, picks, n).Some? :: Picked(d, picks, n).value,
         map[])
  }

  function Picked<N(==)>(d: DiskOf<N>, picks: map<N, Option<Inode>>, n: N): Option<Inode> {
    if n in picks && picks[n] in Candidates(d, n) then picks[n] else Current(d, n)
  }

  lemma RecoverRecovers<N(!new)>(d: DiskOf<N>, picks: map<N, Option<Inode>>, bytes: map<Inode, Bytes>)
    requires WellFormed(d)
    ensures Recovers(d, Recover(d, picks, bytes)) && WellFormed(Recover(d, picks, bytes))
  {
    var after := Recover(d, picks, bytes);
    forall n ensures Current(after, n) in Candidates(d, n) {
    }
  }

  /** Bytes that have not been flushed are anyone's: after a power loss the file may hold others. */
  lemma UnflushedBytesCanBeLost<N(!new)>(d: DiskOf<N>, n: N, content: Bytes, other: Bytes)
    requires WellFormed(d) && Exists(d, n)
    ensures var w := Write(d, n, content);
            var after := Recover(w, map[], map[d.names[n] := other]);
            Content(w, n) == content && Recovers(w, after) && Exists(after, n) && Content(after, n) == other
  {
    var w := Write(d, n, content);
    assert forall m :: Candidates(w, m) == Candidates(d, m);
    RecoverRecovers(w, map[], map[d.names[n] := other]);
  }

  // --- what a recorded identity says about a file ------------------------------------

  /** The file has the recorded bytes, and they are on stable storage. */
  ghost predicate Holds<N(!new)>(d: DiskOf<N>, k: Inode, record: Record, sha: Hash) {
    k in d.nodes && d.nodes[k].synced && Matches(d.nodes[k].content, record, sha)
  }

  /** No power loss can take the recorded bytes away from a name. */
  ghost predicate DurablyHolds<N(!new)>(d: DiskOf<N>, n: N, record: Record, sha: Hash) {
    forall c :: c in Candidates(d, n) ==> c.Some? && Holds(d, c.value, record, sha)
  }

  lemma DurableSurvives<N(!new)>(d: DiskOf<N>, n: N, record: Record, sha: Hash, after: DiskOf<N>)
    requires DurablyHolds(d, n, record, sha) && Recovers(d, after)
    ensures Exists(after, n) && Matches(Content(after, n), record, sha)
  {
    assert Current(after, n) in Candidates(d, n);
  }
}

/** Moving proofs under one directory and leaving links behind (`prepare` in
    scripts/proof_layout.py). The table of directories and the glob results are parameters;
    a moved entry is a whole file or subtree without relative links of its own. */
module ProofLayout {
  import opened Common

  type Name = string
  type Dir = string

  /** An entry: something readable, or a link that leads nowhere inside the proofs. */
  datatype Entry<T> = Readable(content: T) | Dangling

  /** What stands at a historical directory path. A link leads to the proofs of some directory, or
      elsewhere. */
  datatype Place<T> = Absent | Folder(entries: map<Name, Entry<T>>) | Linked(to: Option<Dir>) | NotFolder

  /** What stands at its place under the proofs. */
  datatype Store<T> = Missing | Held(files: map<Name, Entry<T>>) | InTheWay | Escapes

  /** A single proof outside those directories, matched by one of the patterns; it belongs under
      its own name in the evidence of `dest`. */
  datatype Spot = Spot(dest: Dir, name: Name)

  datatype Loose<T> = Plain(content: T) | LooseLink(to: Option<Spot>) | Unusable

  datatype Tree<T> = Tree(places: map<Dir, Place<T>>, stores: map<Dir, Store<T>>, loose: map<Spot, Loose<T>>)

  const GITKEEP := ".gitkeep"

  // --- reading -------------------------------------------------------------------------------

  function Files<T>(s: Store<T>): map<Name, Entry<T>> {
    if s.Held? then s.files else map[]
  }

  function ReadEntry<T>(m: map<Name, Entry<T>>, n: Name): Option<T> {
    if n in m && m[n].Readable? then Some(m[n].content) else None
  }

  function ReadStore<T>(t: Tree<T>, d: Dir, n: Name): Option<T> {
    if d in t.stores then ReadEntry(Files(t.stores[d]), n) else None
  }

  /** The entry under the proofs, readable or not. */
  function At<T>(t: Tree<T>, d: Dir, n: Name): Option<Entry<T>> {
    if d in t.stores then Get(Files(t.stores[d]), n) else None
  }

  /** Reading `n` in a historical directory, through its link if it is one. */
  function ReadPlace<T>(t: Tree<T>, d: Dir, n: Name): Option<T> {
    if d !in t.places then None
    else
      match t.places[d]
      case Folder(entries) => ReadEntry(entries, n)
      case Linked(Some(to)) => ReadStore(t, to, n)
      case _ => None
  }

  function ReadLoose<T>(t: Tree<T>, s: Spot): Option<T> {
    if s !in t.loose then None
    else
      match t.loose[s]
      case Plain(content) => Some(content)
      case LooseLink(Some(to)) => ReadStore(t, to.dest, to.name)
      case _ => None
  }

  predicate Retains<T(==)>(before: Option<T>, now: Option<T>) {
    before.Some? ==> now == before
  }

  /** Everything readable at a path is readable there, with the same content. */
  ghost predicate Kept<T>(a: Tree<T>, b: Tree<T>) {
    && (forall d, n :: Retains(ReadStore(a, d, n), ReadStore(b, d, n)))
    && (forall d, n :: Retains(ReadPlace(a, d, n), ReadPlace(b, d, n)))
    && (forall s :: Retains(ReadLoose(a, s), ReadLoose(b, s)))
  }

  /** Every entry under the proofs, readable or not, is still there as it was. */
  ghost predicate Undisturbed<T>(a: Tree<T>, b: Tree<T>) {
    forall d, n :: At(a, d, n).Some? ==> At(b, d, n) == At(a, d, n)
  }

  /** What moving directories may do: nothing readable is lost, nothing under the proofs changes,
      and the places of the loose proofs are left alone. */
  ghost predicate Carried<T>(a: Tree<T>, b: Tree<T>, flat: seq<Spot>) {
    Kept(a, b) && Undisturbed(a, b) && forall s :: s in flat ==> At(b, s.dest, s.name) == At(a, s.dest, s.name)
  }

  lemma CarriedTwice<T>(a: Tree<T>, b: Tree<T>, c: Tree<T>, flat: seq<Spot>)
    requires Carried(a, b, flat) && Carried(b, c, flat)
    ensures Carried(a, c, flat)
  {
    KeptTwice(a, b, c);
    hide Kept, At;
    forall d, n | At(a, d, n).Some? ensures At(c, d, n) == At(a, d, n) {
      assert At(b, d, n) == At(a, d, n);
    }
  }

  /** Exactly the places of these loose proofs have been written, each with its own content. */
  ghost predicate Written<T>(a: Tree<T>, b: Tree<T>, flat: seq<Spot>) {
    forall d, n :: At(b, d, n) == if Spot(d, n) in flat then WrittenAt(a, Spot(d, n)) else At(a, d, n)
  }

  function WrittenAt<T>(t: Tree<T>, s: Spot): Option<Entry<T>> {
    if s in t.loose && t.loose[s].Plain? then Some(Readable(t.loose[s].content)) else None
  }

  lemma KeptTwice<T>(a: Tree<T>, b: Tree<T>, c: Tree<T>)
    requires Kept(a, b) && Kept(b, c)
    ensures Kept(a, c)
  {
    hide ReadStore, ReadPlace, ReadLoose;
    forall d, n ensures Retains(ReadStore(a, d, n), ReadStore(c, d, n)) {
      assert Retains(ReadStore(a, d, n), ReadStore(b, d, n)) && Retains(ReadStore(b, d, n), ReadStore(c, d, n));
    }
    forall d, n ensures Retains(ReadPlace(a, d, n), ReadPlace(c, d, n)) {
      assert Retains(ReadPlace(a, d, n), ReadPlace(b, d, n)) && Retains(ReadPlace(b, d, n), ReadPlace(c, d, n));
    }
    forall s ensures Retains(ReadLoose(a, s), ReadLoose(c, s)) {
      assert Retains(ReadLoose(a, s), ReadLoose(b, s)) && Retains(ReadLoose(b, s), ReadLoose(c, s));
    }
  }

  // --- what validation refuses ------------------------------------------------------------------

  ghost predicate Covers<T>(t: Tree<T>, dirs: seq<Dir>, spots: seq<Spot>) {
    && Distinct(dirs) && Distinct(spots)
    && (forall d :: d in dirs ==> d in t.places && d in t.stores)
    && (forall s :: s in spots <==> s in t.loose)
    && (forall s :: s in spots ==> s.dest in t.stores && s.name != GITKEEP)
  }

  predicate InPlace<T>(t: Tree<T>, d: Dir)
    requires d in t.places
  {
    t.places[d].Linked? && t.places[d].to == Some(d)
  }

  function EntriesOf<T>(t: Tree<T>, d: Dir): map<Name, Entry<T>>
    requires d in t.places
  {
    if t.places[d].Folder? then t.places[d].entries else map[]
  }

  predicate RefusesDir<T>(t: Tree<T>, d: Dir, migrate: bool)
    requires d in t.places && d in t.stores
  {
    || t.stores[d].Escapes?
    || (!InPlace(t, d) && (t.places[d].Linked? || t.places[d].NotFolder?))
    || (EntriesOf(t, d).Keys != {} && (!migrate || EntriesOf(t, d).Keys * Files(t.stores[d]).Keys != {}))
  }

  predicate Settled<T>(t: Tree<T>, s: Spot)
    requires s in t.loose
  {
    t.loose[s].LooseLink? && t.loose[s].to == Some(s)
  }

  /** A directory entry will be moved to this place. */
  predicate Occupied<T>(t: Tree<T>, dirs: seq<Dir>, s: Spot) {
    s.dest in dirs && s.dest in t.places && s.name in EntriesOf(t, s.dest)
  }

  predicate RefusesLoose<T>(t: Tree<T>, dirs: seq<Dir>, s: Spot)
    requires s in t.loose && s.dest in t.stores
  {
    || t.stores[s.dest].Escapes?
    || (!Settled(t, s) && (!t.loose[s].Plain? || ReadStore(t, s.dest, s.name).Some? || Occupied(t, dirs, s)))
  }

  /** The plan is refused: nothing has been changed yet. */
  ghost predicate Unsafe<T>(t: Tree<T>, dirs: seq<Dir>, spots: seq<Spot>, migrate: bool)
    requires Covers(t, dirs, spots)
  {
    || (exists d :: d in dirs && RefusesDir(t, d, migrate))
    || (migrate && exists s :: s in spots && RefusesLoose(t, dirs, s))
  }

  /** Spelled out. A directory stops the run when its proofs lie elsewhere, when it is a link to
      anything but them or no directory at all, and when it has entries and no migration was asked
      for or one of them has the name of an entry that is there. A loose proof stops it when its
      proofs lie elsewhere and, unless it is the right link already, when it is no plain file, a
      file can be read at its place, or a directory's entry is going there. */
  lemma UnsafeIff<T>(t: Tree<T>, dirs: seq<Dir>, spots: seq<Spot>, migrate: bool)
    requires Covers(t, dirs, spots)
    ensures Unsafe(t, dirs, spots, migrate) <==>
              || (exists d :: d in dirs && StopsDir(t, d, migrate))
              || (migrate && exists s :: s in spots && StopsLoose(t, dirs, s))
  {
    forall d | d in dirs ensures RefusesDir(t, d, migrate) <==> StopsDir(t, d, migrate) {
      if t.places[d].Folder? && t.stores[d].Held? {
        var mine, theirs := t.places[d].entries, t.stores[d].files;
        assert mine.Keys * theirs.Keys != {} <==> exists n :: n in mine && n in theirs by {
          if n :| n in mine && n in theirs { assert n in mine.Keys * theirs.Keys; }
        }
      }
      if t.places[d].Folder? {
        assert t.places[d].entries.Keys != {} <==> exists n :: n in t.places[d].entries;
      }
    }
    forall s | s in spots ensures RefusesLoose(t, dirs, s) <==> StopsLoose(t, dirs, s) {
    }
  }

  ghost predicate StopsDir<T>(t: Tree<T>, d: Dir, migrate: bool)
    requires d in t.places && d in t.stores
  {
    || t.stores[d] == Escapes
    || match t.places[d]
       case Absent => false
       case NotFolder => true
       case Linked(to) => to != Some(d)
       case Folder(entries) =>
         exists n :: n in entries && (!migrate || (t.stores[d].Held? && n in t.stores[d].files))
  }

  ghost predicate StopsLoose<T>(t: Tree<T>, dirs: seq<Dir>, s: Spot)
    requires s in t.loose && s.dest in t.stores
  {
    || t.stores[s.dest] == Escapes
    || match t.loose[s]
       case LooseLink(to) => to != Some(s)
       case Unusable => true
       case Plain(_) =>
         || (t.stores[s.dest].Held? && s.name in t.stores[s.dest].files && t.stores[s.dest].files[s.name].Readable?)
         || (s.dest in dirs && s.dest in t.places && t.places[s.dest].Folder? && s.name in t.places[s.dest].entries)
  }

  /** Every directory is a link to its proofs and, after a migration, every loose proof too. */
  ghost predicate Prepared<T>(t: Tree<T>, dirs: seq<Dir>, spots: seq<Spot>, migrate: bool)
    requires Covers(t, dirs, spots)
  {
    && (forall d :: d in dirs ==> InPlace(t, d) && !t.stores[d].Escapes?)
    && (migrate ==> forall s :: s in spots ==> Settled(t, s) && !t.stores[s.dest].Escapes?)
  }

  /** A file stands where a planned move needs a directory. */
  ghost predicate Blocked<T>(t: Tree<T>, dirs: seq<Dir>, spots: seq<Spot>, migrate: bool)
    requires Covers(t, dirs, spots)
  {
    || (exists d :: d in dirs && !InPlace(t, d) && t.stores[d].InTheWay?)
    || (migrate && exists s :: s in spots && !Settled(t, s) && t.stores[s.dest].InTheWay?)
  }

  /** An entry that cannot be read stands at the place of a loose proof. */
  ghost predicate Overwrites<T>(t: Tree<T>, spots: seq<Spot>, migrate: bool)
    requires forall s :: s in spots ==> s in t.loose
  {
    migrate && exists s :: s in spots && !Settled(t, s) && At(t, s.dest, s.name).Some?
  }

  /** The directories that are not links yet, in the order of the table. */
  function Pending<T>(t: Tree<T>, dirs: seq<Dir>): (r: seq<Dir>)
    requires forall d :: d in dirs ==> d in t.places
    ensures forall d :: d in r <==> d in dirs && !InPlace(t, d)
  {
    if dirs == [] then []
    else
      var front, last := dirs[..|dirs| - 1], dirs[|dirs| - 1];
      Pending(t, front) + if InPlace(t, last) then [] else [last]
  }

  datatype Outcome = Refused | Failed | Done(moved: nat)

  // --- one directory -----------------------------------------------------------------------------

  /** The store after `mkdir` and `touch`. */
  function Opened<T>(s: Store<T>, empty: T): map<Name, Entry<T>> {
    if GITKEEP in Files(s) then Files(s) else Files(s)[GITKEEP := Readable(empty)]
  }

  /** The tree with these two things at a directory's place and in its store. */
  function With<T>(t: Tree<T>, d: Dir, place: Place<T>, store: Store<T>): (u: Tree<T>)
    ensures d in u.places && d in u.stores && u.places[d] == place && u.stores[d] == store && u.loose == t.loose
  {
    t.(places := t.places[d := place], stores := t.stores[d := store])
  }

  lemma WithTwice<T>(t: Tree<T>, d: Dir, p: Place<T>, s: Store<T>, q: Place<T>, r: Store<T>)
    ensures With(With(t, d, p, s), d, q, r) == With(t, d, q, r)
  {
  }

  lemma WithSame<T>(t: Tree<T>, d: Dir)
    requires d in t.places && d in t.stores
    ensures With(t, d, t.places[d], t.stores[d]) == t
  {
  }

  /** Moving one entry does not change what source and store hold together. */
  lemma OneEntryMoves<V>(files: map<Name, V>, left: map<Name, V>, n: Name)
    requires n in left
    ensures files[n := left[n]] + (left - {n}) == files + left
  {
    var a, b := files[n := left[n]] + (left - {n}), files + left;
    forall k ensures (k in a <==> k in b) && (k in a && k in b ==> a[k] == b[k]) {
    }
    assert a.Keys == b.Keys;
  }

  lemma FewerLeft<V>(left: map<Name, V>, n: Name)
    requires n in left
    ensures |left - {n}| < |left|
  {
    assert (left - {n}).Keys == left.Keys - {n};
    assert |left.Keys| == |left| && |(left - {n}).Keys| == |left - {n}|;
  }

  lemma NothingLeft<T>(files: map<Name, Entry<T>>, left: map<Name, Entry<T>>)
    requires |left| == 0
    ensures left == map[] && files + left == files
  {
    assert left.Keys == {};
  }

  /** A directory moved: its entries on top of what the store held, a link in its place. */
  function MovedDir<T>(t: Tree<T>, d: Dir, empty: T): Tree<T>
    requires d in t.places && d in t.stores
  {
    With(t, d, Linked(Some(d)), Held(Opened(t.stores[d], empty) + EntriesOf(t, d)))
  }

  /** What the store holds then: what was moved, what was there, and `.gitkeep` in any case. */
  lemma MovedDirHolds<T>(t: Tree<T>, d: Dir, empty: T, n: Name)
    requires d in t.places && d in t.stores
    ensures At(MovedDir(t, d, empty), d, n) ==
              if t.places[d].Folder? && n in t.places[d].entries then Some(t.places[d].entries[n])
              else if t.stores[d].Held? && n in t.stores[d].files then Some(t.stores[d].files[n])
              else if n == ".gitkeep" then Some(Readable(empty))
              else None
  {
  }

  lemma MovedDirKeeps<T>(t: Tree<T>, d: Dir, empty: T)
    requires d in t.places && d in t.stores && !RefusesDir(t, d, true) && !InPlace(t, d)
    ensures Kept(t, MovedDir(t, d, empty))
  {
    var u := MovedDir(t, d, empty);
    var have, files := Files(t.stores[d]), Files(u.stores[d]);
    forall n | n in EntriesOf(t, d) ensures n !in have {
      assert n in EntriesOf(t, d).Keys && n !in EntriesOf(t, d).Keys * have.Keys;
    }
    forall e, n ensures Retains(ReadStore(t, e, n), ReadStore(u, e, n)) {
      assert n in have && e == d ==> n !in EntriesOf(t, d) && files[n] == have[n];
    }
    forall e, n ensures Retains(ReadPlace(t, e, n), ReadPlace(u, e, n)) {
      assert Retains(ReadStore(t, e, n), ReadStore(u, e, n));
      if e in t.places && t.places[e].Linked? && t.places[e].to.Some? {
        assert Retains(ReadStore(t, t.places[e].to.value, n), ReadStore(u, t.places[e].to.value, n));
      }
    }
    forall s ensures Retains(ReadLoose(t, s), ReadLoose(u, s)) {
      if s in t.loose && t.loose[s].LooseLink? && t.loose[s].to.Some? {
        var to := t.loose[s].to.value;
        assert Retains(ReadStore(t, to.dest, to.name), ReadStore(u, to.dest, to.name));
      }
    }
  }

  function MovedLoose<T>(t: Tree<T>, s: Spot): Tree<T>
    requires s in t.loose && s.dest in t.stores && t.loose[s].Plain?
  {
    t.(stores := t.stores[s.dest := Held(Files(t.stores[s.dest])[s.name := Readable(t.loose[s].content)])],
       loose := t.loose[s := LooseLink(Some(s))])
  }

  lemma MovedLooseKeeps<T>(t: Tree<T>, s: Spot)
    requires s in t.loose && s.dest in t.stores && t.loose[s].Plain? && ReadStore(t, s.dest, s.name).None?
    ensures Kept(t, MovedLoose(t, s))
  {
    var u := MovedLoose(t, s);
    forall e, n ensures Retains(ReadStore(t, e, n), ReadStore(u, e, n)) {
    }
    forall e, n ensures Retains(ReadPlace(t, e, n), ReadPlace(u, e, n)) {
      if e in t.places && t.places[e].Linked? && t.places[e].to.Some? {
        assert Retains(ReadStore(t, t.places[e].to.value, n), ReadStore(u, t.places[e].to.value, n));
      }
    }
    forall o ensures Retains(ReadLoose(t, o), ReadLoose(u, o)) {
      if o in t.loose && t.loose[o].LooseLink? && t.loose[o].to.Some? {
        var to := t.loose[o].to.value;
        assert Retains(ReadStore(t, to.dest, to.name), ReadStore(u, to.dest, to.name));
      }
    }
  }

  // --- the run -------------------------------------------------------------------------------------

  /** No store up to and including the `j`th is blocked. */
  ghost predicate Unblocked<T>(t: Tree<T>, operations: seq<Dir>, j: nat)
    requires j < |operations| && forall d :: d in operations ==> d in t.stores
  {
    forall i :: 0 <= i <= j ==> !t.stores[operations[i]].InTheWay?
  }

  /** Every directory before the first one that is blocked has been moved. */
  ghost predicate MovedUpToBlock<T>(a: Tree<T>, b: Tree<T>, operations: seq<Dir>)
    requires forall d :: d in operations ==> d in a.stores
  {
    forall j :: 0 <= j < |operations| && Unblocked(a, operations, j) ==> operations[j] in b.places && InPlace(b, operations[j])
  }

  ghost predicate Free<T>(t: Tree<T>, spots: seq<Spot>) {
    forall s :: s in spots ==>
      s in t.loose && t.loose[s].Plain? && s.dest in t.stores && ReadStore(t, s.dest, s.name).None? && !t.stores[s.dest].Escapes?
  }

  /** What validation hands over: the moves to make, each of which can be made. */
  ghost predicate Planned<T>(t: Tree<T>, dirs: seq<Dir>, spots: seq<Spot>, migrate: bool, operations: seq<Dir>, flat: seq<Spot>)
    requires Covers(t, dirs, spots)
  {
    && operations == Pending(t, dirs) && Distinct(operations) && Distinct(flat)
    && (forall s :: s in flat <==> migrate && s in spots && !Settled(t, s))
    && Movable(t, operations) && Free(t, flat) && Clear(t, operations, flat)
  }

  /** The second pass: other directories are left alone; it ends well exactly when no store is
      blocked, and then every directory is a link; and it stops at the first that is. */
  ghost predicate DirsDone<T>(a: Tree<T>, b: Tree<T>, operations: seq<Dir>, ok: bool) {
    && SameNames(a, b) && (forall d :: d in operations ==> d in a.places && d in a.stores)
    && (forall d :: d in a.places && d !in operations ==> b.places[d] == a.places[d])
    && (forall d :: d in a.stores && d !in operations ==> b.stores[d] == a.stores[d])
    && (ok <==> forall d :: d in operations ==> !a.stores[d].InTheWay?)
    && (ok ==> forall d :: d in operations ==> InPlace(b, d) && b.stores[d].Held? && GITKEEP in b.stores[d].files)
    && MovedUpToBlock(a, b, operations)
  }

  /** The last pass, in the same way. */
  ghost predicate LooseDone<T>(a: Tree<T>, b: Tree<T>, flat: seq<Spot>, ok: bool) {
    && SameNames(a, b) && (forall s :: s in flat ==> s in a.loose && s.dest in a.stores)
    && (forall s :: s in a.loose && s !in flat ==> b.loose[s] == a.loose[s])
    && (forall d :: d in a.stores && !a.stores[d].Escapes? ==> !b.stores[d].Escapes?)
    && (forall d :: d in a.stores ==> Files(a.stores[d]).Keys <= Files(b.stores[d]).Keys)
    && (ok <==> forall s :: s in flat ==> !a.stores[s.dest].InTheWay?)
    && (ok ==> forall s :: s in flat ==> Settled(b, s))
  }

  /** Both passes, from `a` through `u` to `b`. */
  ghost predicate Carries<T>(a: Tree<T>, u: Tree<T>, b: Tree<T>, operations: seq<Dir>, flat: seq<Spot>, first: bool, ok: bool) {
    && CarriesContent(a, b, flat, ok) && DirsDone(a, u, operations, first) && u.loose == a.loose && b.places == u.places
    && (if first then LooseDone(u, b, flat, ok) else !ok && b == u)
  }

  /** What they may have lost, which is nothing, and what they may have disturbed. */
  ghost predicate CarriesContent<T>(a: Tree<T>, b: Tree<T>, flat: seq<Spot>, ok: bool) {
    && Kept(a, b)
    && (ok ==> (Undisturbed(a, b) <==> forall s :: s in flat ==> At(a, s.dest, s.name).None?))
    && (Undisturbed(a, b) || exists s :: s in flat && At(a, s.dest, s.name).Some?)
  }

  /** These directories have been moved: what holds between two turns of the second pass. */
  ghost predicate DirsPassed<T>(a: Tree<T>, b: Tree<T>, moved: seq<Dir>, flat: seq<Spot>)
    requires SameNames(a, b)
  {
    Carried(a, b, flat) && Free(b, flat) && DirsFrame(a, b, moved)
  }

  ghost predicate DirsFrame<T>(a: Tree<T>, b: Tree<T>, moved: seq<Dir>)
    requires SameNames(a, b)
  {
    && b.loose == a.loose
    && (forall d :: d in a.places && d !in moved ==> b.places[d] == a.places[d])
    && (forall d :: d in a.stores && d !in moved ==> b.stores[d] == a.stores[d])
    && (forall d :: d in moved ==>
          && d in b.places && d in b.stores && InPlace(b, d) && !a.stores[d].InTheWay?
          && b.stores[d].Held? && GITKEEP in b.stores[d].files)
  }

  /** The first `i` loose proofs have been moved: what holds between two turns of the last pass. */
  ghost predicate LoosePassed<T>(a: Tree<T>, b: Tree<T>, flat: seq<Spot>, i: nat)
    requires i <= |flat| && b.stores.Keys == a.stores.Keys
  {
    LooseContent(a, b, flat, i) && LooseFrame(a, b, flat[..i])
  }

  ghost predicate LooseContent<T>(a: Tree<T>, b: Tree<T>, flat: seq<Spot>, i: nat)
    requires i <= |flat|
  {
    Kept(a, b) && Free(b, flat[i..]) && Written(a, b, flat[..i])
  }

  ghost predicate LooseFrame<T>(a: Tree<T>, b: Tree<T>, moved: seq<Spot>)
    requires b.stores.Keys == a.stores.Keys
  {
    && b.places == a.places && SameNames(a, b)
    && (forall s :: s in a.loose && s !in moved ==> b.loose[s] == a.loose[s])
    && (forall d :: d in a.stores && !a.stores[d].Escapes? ==> !b.stores[d].Escapes?)
    && (forall d :: d in a.stores ==> (b.stores[d].InTheWay? <==> a.stores[d].InTheWay?))
    && (forall d :: d in a.stores ==> Files(a.stores[d]).Keys <= Files(b.stores[d]).Keys)
    && (forall s :: s in moved ==> s in b.loose && Settled(b, s) && s.dest in a.stores && !a.stores[s.dest].InTheWay?)
  }

  class Disk<T(==)> {
    var tree: Tree<T>
    const empty: T

    constructor (tree: Tree<T>, empty: T)
      ensures this.tree == tree && this.empty == empty
    {
      this.tree, this.empty := tree, empty;
    }

    /** The first pass over the directory table: None where it raises, or the directories that are
        not links yet, in order. */
    method PlanDirs(dirs: seq<Dir>, migrate: bool) returns (r: Option<seq<Dir>>)
      requires Distinct(dirs) && forall d :: d in dirs ==> d in tree.places && d in tree.stores
      ensures r.None? <==> exists d :: d in dirs && RefusesDir(tree, d, migrate)
      ensures r.Some? ==> r.value == Pending(tree, dirs) && Distinct(r.value)
    {
      var operations: seq<Dir> := [];
      for i := 0 to |dirs|
        invariant forall d :: d in dirs[..i] ==> !RefusesDir(tree, d, migrate)
        invariant Distinct(operations) && operations == Pending(tree, dirs[..i])
      {
        hide RefusesDir, InPlace;
        var d := dirs[i];
        NextInTurn(dirs, i);
        assert dirs[..i + 1][..i] == dirs[..i];
        if RefusesDir(tree, d, migrate) { return None; }
        if !InPlace(tree, d) { operations := operations + [d]; }
      }
      assert dirs[..|dirs|] == dirs;
      r := Some(operations);
    }

    /** The pass over the glob results of a migration. */
    method PlanLoose(dirs: seq<Dir>, spots: seq<Spot>) returns (r: Option<seq<Spot>>)
      requires Distinct(spots) && forall s :: s in spots ==> s in tree.loose && s.dest in tree.stores
      ensures r.None? <==> exists s :: s in spots && RefusesLoose(tree, dirs, s)
      ensures r.Some? ==> Distinct(r.value) && forall s :: s in r.value <==> s in spots && !Settled(tree, s)
    {
      var flat: seq<Spot> := [];
      for i := 0 to |spots|
        invariant forall s :: s in spots[..i] ==> !RefusesLoose(tree, dirs, s)
        invariant Distinct(flat)
        invariant forall s :: s in flat <==> s in spots[..i] && !Settled(tree, s)
      {
        hide RefusesLoose, Settled;
        var s := spots[i];
        NextInTurn(spots, i);
        if RefusesLoose(tree, dirs, s) { return None; }
        if !Settled(tree, s) { flat := flat + [s]; }
      }
      assert spots[..|spots|] == spots;
      r := Some(flat);
    }

    /** `entry.rename(target / entry.name)`, for every entry. */
    method MoveEntries(d: Dir)
      requires d in tree.places && d in tree.stores && tree.places[d].Folder? && tree.stores[d].Held?
      modifies this`tree
      ensures tree == With(old(tree), d, Folder(map[]), Held(old(tree).stores[d].files + old(tree).places[d].entries))
    {
      hide With;
      var left, files := tree.places[d].entries, tree.stores[d].files;
      ghost var whole := files + left;
      WithSame(tree, d);
      while |left| > 0
        invariant files + left == whole
        invariant tree == With(old(tree), d, Folder(left), Held(files))
        decreases |left|
      {
        assert left.Keys != {};
        var n :| n in left;
        OneEntryMoves(files, left, n);
        FewerLeft(left, n);
        WithTwice(old(tree), d, Folder(left), Held(files), Folder(left - {n}), Held(files[n := left[n]]));
        files, left := files[n := left[n]], left - {n};
        tree := With(tree, d, Folder(left), Held(files));
      }
      NothingLeft(files, left);
    }

    /** One directory: `mkdir`, `touch`, a rename for every entry, `rmdir`, `symlink_to`. It fails
        before the first rename when a file stands where the store should be. */
    method MoveDir(d: Dir) returns (ok: bool)
      requires d in tree.places && d in tree.stores && !RefusesDir(tree, d, true) && !InPlace(tree, d)
      modifies this`tree
      ensures ok <==> !old(tree).stores[d].InTheWay?
      ensures tree == if ok then MovedDir(old(tree), d, empty) else old(tree)
    {
      if tree.stores[d].InTheWay? { return false; }
      ghost var t := tree;
      var files := Opened(tree.stores[d], empty);
      hide With, Opened;
      tree := With(tree, d, tree.places[d], Held(files));
      if tree.places[d].Folder? {
        MoveEntries(d);
        WithTwice(t, d, t.places[d], Held(files), Folder(map[]), Held(files + t.places[d].entries));
        WithTwice(t, d, Folder(map[]), Held(files + t.places[d].entries), Absent, Held(files + t.places[d].entries));
        tree := With(tree, d, Absent, tree.stores[d]); // rmdir
        WithTwice(t, d, Absent, tree.stores[d], Linked(Some(d)), tree.stores[d]);
      } else {
        WithTwice(t, d, t.places[d], Held(files), Linked(Some(d)), Held(files));
        assert files + map[] == files;
      }
      tree := With(tree, d, Linked(Some(d)), tree.stores[d]);
      ok := true;
    }

    method MoveLoose(s: Spot) returns (ok: bool)
      requires s in tree.loose && s.dest in tree.stores && tree.loose[s].Plain?
      modifies this`tree
      ensures ok <==> !old(tree).stores[s.dest].InTheWay?
      ensures tree == if ok then MovedLoose(old(tree), s) else old(tree)
    {
      if tree.stores[s.dest].InTheWay? { return false; }
      var content := tree.loose[s].content;
      tree := tree.(stores := tree.stores[s.dest := Held(Files(tree.stores[s.dest])[s.name := Readable(content)])]);
      tree := tree.(loose := tree.loose[s := LooseLink(Some(s))]);
      ok := true;
    }

    /** The second pass: every planned directory, in order. */
    method MoveDirs(operations: seq<Dir>, ghost flat: seq<Spot>) returns (ok: bool)
      requires Distinct(operations) && Movable(tree, operations) && Free(tree, flat) && Clear(tree, operations, flat)
      modifies this`tree
      ensures Carried(old(tree), tree, flat) && tree.loose == old(tree).loose && SameNames(old(tree), tree)
      ensures DirsDone(old(tree), tree, operations, ok)
      ensures ok ==> Free(tree, flat)
      ensures operations == [] ==> ok && tree == old(tree)
    {
      ghost var start := tree;
      DirsAtFirst(start, flat);
      for i := 0 to |operations|
        invariant SameNames(start, tree) && DirsPassed(start, tree, operations[..i], flat)
        invariant i == 0 ==> tree == start
      {
        hide DirsPassed, Movable, Free, Clear, RefusesDir, InPlace, MovedDir, Carried;
        var d := operations[i];
        DirsNext(start, tree, operations, flat, i);
        ghost var t := tree;
        var moved := MoveDir(d);
        if !moved {
          DirsPart(start, tree, operations, flat, i);
          return false;
        }
        DirsStep(start, t, operations, flat, i, empty);
      }
      assert operations[..|operations|] == operations;
      DirsPart(start, tree, operations, flat, |operations|);
      ok := true;
    }

    /** The last pass: every loose proof. */
    method MoveAllLoose(flat: seq<Spot>) returns (ok: bool)
      requires Distinct(flat) && Free(tree, flat)
      modifies this`tree
      ensures Kept(old(tree), tree) && tree.places == old(tree).places && SameNames(old(tree), tree)
      ensures LooseDone(old(tree), tree, flat, ok)
      ensures ok ==> Written(old(tree), tree, flat)
      ensures Undisturbed(old(tree), tree) || exists s :: s in flat && At(old(tree), s.dest, s.name).Some?
      ensures flat == [] ==> ok && tree == old(tree)
    {
      ghost var start := tree;
      LooseAtFirst(start, flat);
      for i := 0 to |flat|
        invariant tree.stores.Keys == start.stores.Keys && LoosePassed(start, tree, flat, i)
        invariant i == 0 ==> tree == start
      {
        hide LoosePassed, Settled, Undisturbed, Written, Kept;
        assert flat[i] in flat;
        LooseNext(start, tree, flat, i);
        ghost var t := tree;
        var moved := MoveLoose(flat[i]);
        if !moved {
          LoosePart(start, tree, flat, i);
          return false;
        }
        LooseStep(start, t, flat, i);
      }
      LoosePart(start, tree, flat, |flat|);
      assert flat[..|flat|] == flat;
      ok := true;
    }

    /** Both passes of validation; nothing is changed yet. */
    method Plan(dirs: seq<Dir>, spots: seq<Spot>, migrate: bool) returns (r: Option<(seq<Dir>, seq<Spot>)>)
      requires Covers(tree, dirs, spots)
      ensures r.None? <==> Unsafe(tree, dirs, spots, migrate)
      ensures r.Some? ==> Planned(tree, dirs, spots, migrate, r.value.0, r.value.1)
    {
      hide Free, Movable, Clear, RefusesDir, RefusesLoose, InPlace, Settled;
      var operations := PlanDirs(dirs, migrate);
      if operations.None? { return None; }
      var flat: Option<seq<Spot>> := Some([]);
      if migrate {
        flat := PlanLoose(dirs, spots);
        if flat.None? { return None; }
      }
      PlanIsMovable(tree, dirs, operations.value, migrate);
      PlanIsFree(tree, dirs, spots, operations.value, flat.value, migrate);
      r := Some((operations.value, flat.value));
    }

    /** Both passes of moves. */
    method Carry(operations: seq<Dir>, flat: seq<Spot>) returns (ok: bool, ghost between: Tree<T>, ghost first: bool)
      requires Distinct(operations) && Movable(tree, operations) && Free(tree, flat) && Clear(tree, operations, flat) && Distinct(flat)
      modifies this`tree
      ensures Carries(old(tree), between, tree, operations, flat, first, ok)
      ensures operations == [] && flat == [] ==> ok && tree == old(tree)
    {
      hide Kept, Free, Movable, Clear, Carried, Undisturbed, Written, At, DirsDone, LooseDone, CarriesContent, SameNames;
      ok := MoveDirs(operations, flat);
      between, first := tree, ok;
      if !ok {
        ContentOfDirs(old(tree), tree, flat);
        return;
      }
      ok := MoveAllLoose(flat);
      ContentOfBoth(old(tree), between, tree, flat, ok);
    }

    /** `prepare`: refused, with nothing changed, exactly when the plan is unsafe. Whatever the
        outcome, every file readable at a path before, through links or not, is readable there
        with the same content. A run that is not refused and finds no file in the way of a store
        leaves links everywhere, and then the entries under the proofs, readable or not, are all as
        they were exactly when no loose proof found one at its place. On a layout that is already
        prepared it does nothing and returns 0. */
    method Prepare(dirs: seq<Dir>, spots: seq<Spot>, migrate: bool) returns (r: Outcome)
      requires Covers(tree, dirs, spots)
      modifies this`tree
      ensures Kept(old(tree), tree) && Covers(tree, dirs, spots)
      ensures r.Refused? <==> Unsafe(old(tree), dirs, spots, migrate)
      ensures r.Refused? ==> tree == old(tree)
      ensures r.Done? ==> Prepared(tree, dirs, spots, migrate)
      ensures r.Failed? <==> (!Unsafe(old(tree), dirs, spots, migrate) && Blocked(old(tree), dirs, spots, migrate))
      ensures r.Done? ==> (Undisturbed(old(tree), tree) <==> !Overwrites(old(tree), spots, migrate))
      ensures !Overwrites(old(tree), spots, migrate) ==> Undisturbed(old(tree), tree)
      ensures !r.Refused? ==> MovedUpToBlock(old(tree), tree, Pending(old(tree), dirs))
      ensures r.Done? ==> forall d :: d in Pending(old(tree), dirs) ==> At(tree, d, GITKEEP).Some?
      ensures Prepared(old(tree), dirs, spots, migrate) ==> r == Done(0) && tree == old(tree)
    {
      hide Kept, Free, Movable, Clear, Planned, Carries, Prepared, Unsafe, Blocked, MovedUpToBlock, Undisturbed, Overwrites, Covers;
      KeptAtFirst(tree);
      UndisturbedAtFirst(tree);
      PreparedIsSafe(tree, dirs, spots, migrate);
      var plan := Plan(dirs, spots, migrate);
      if plan.None? { return Refused; }
      var (operations, flat) := plan.value;
      ghost var t := tree;
      PlanMeans(t, dirs, spots, migrate, operations, flat);
      var ok, between, first := Carry(operations, flat);
      CarriesMeans(t, between, tree, dirs, spots, migrate, operations, flat, first, ok);
      r := if ok then Done(|operations| + |flat|) else Failed;
    }
  }

  /** Two empty directories, and a file where the second one's proofs should be. Validation passes,
      the first directory becomes a link, and then the run fails. */
  method FailsHalfWay<T(==)>(empty: T) returns (disk: Disk<T>, ghost before: Tree<T>, r: Outcome)
    ensures fresh(disk) && r == Failed && disk.tree != before
    ensures Get(before.places, "one") == Some(Absent) && Get(disk.tree.places, "one") == Some(Linked(Some("one")))
  {
    var dirs: seq<Dir>, spots: seq<Spot> := ["one", "two"], [];
    var tree: Tree<T> := Tree(map["one" := Absent, "two" := Absent], map["one" := Missing, "two" := InTheWay], map[]);
    before := tree;
    disk := new Disk(tree, empty);
    assert Covers(tree, dirs, spots);
    assert "two" in dirs && !InPlace(tree, "two");
    TwoPending(tree, "one", "two");
    r := disk.Prepare(dirs, spots, false);
    assert Unblocked(before, dirs, 0);
  }

  /** A migration of one loose proof onto a link that leads nowhere: it succeeds, and the link is gone. */
  method ReplacesDanglingLink<T(==)>(content: T, empty: T) returns (disk: Disk<T>, ghost before: Tree<T>, r: Outcome)
    ensures fresh(disk) && r.Done? && !Undisturbed(before, disk.tree)
    ensures At(before, "one", "a.log") == Some(Dangling) && ReadStore(disk.tree, "one", "a.log") == Some(content)
  {
    var dirs: seq<Dir>, spots: seq<Spot> := ["one"], [Spot("one", "a.log")];
    var tree: Tree<T> := Tree(map["one" := Linked(Some("one"))], map["one" := Held(map["a.log" := Dangling])],
                              map[Spot("one", "a.log") := Plain(content)]);
    before := tree;
    disk := new Disk(tree, empty);
    var s := spots[0];
    assert s in spots && InPlace(tree, "one") && !Settled(tree, s) && At(tree, s.dest, s.name) == Some(Dangling);
    assert Covers(tree, dirs, spots);
    DanglingLinkIsReplaced(tree, dirs, s);
    assert !RefusesDir(tree, "one", true);
    r := disk.Prepare(dirs, spots, true);
    assert r.Done?;
    SettledReads(disk.tree, s);
    assert ReadLoose(before, s) == Some(content);
  }

  lemma SettledReads<T>(t: Tree<T>, s: Spot)
    requires s in t.loose
    ensures Settled(t, s) ==> ReadLoose(t, s) == ReadStore(t, s.dest, s.name)
  {
  }

  lemma TwoPending<T>(t: Tree<T>, a: Dir, b: Dir)
    requires a in t.places && b in t.places && !InPlace(t, a) && !InPlace(t, b)
    ensures Pending(t, [a, b]) == [a, b]
  {
    assert [a, b][..1] == [a] && [a][..0] == [];
    assert Pending(t, [a]) == [a];
  }

  // --- facts about single steps -------------------------------------------------------------------

  ghost predicate SameNames<T>(a: Tree<T>, b: Tree<T>) {
    a.places.Keys == b.places.Keys && a.stores.Keys == b.stores.Keys && a.loose.Keys == b.loose.Keys
  }

  ghost predicate Movable<T>(t: Tree<T>, operations: seq<Dir>) {
    forall d :: d in operations ==> d in t.places && d in t.stores && !RefusesDir(t, d, true) && !InPlace(t, d)
  }

  /** No planned entry lands on a planned loose proof. */
  ghost predicate Clear<T>(t: Tree<T>, operations: seq<Dir>, flat: seq<Spot>)
    requires forall d :: d in operations ==> d in t.places
  {
    forall s :: s in flat ==> s.name != GITKEEP && (s.dest in operations ==> s.name !in EntriesOf(t, s.dest))
  }

  lemma BlockedIff<T>(t: Tree<T>, dirs: seq<Dir>, spots: seq<Spot>, operations: seq<Dir>, flat: seq<Spot>, migrate: bool)
    requires Covers(t, dirs, spots)
    requires forall d :: d in operations <==> d in dirs && !InPlace(t, d)
    requires forall s :: s in flat <==> migrate && s in spots && !Settled(t, s)
    ensures Blocked(t, dirs, spots, migrate) <==>
              (exists d :: d in operations && t.stores[d].InTheWay?) || (exists s :: s in flat && t.stores[s.dest].InTheWay?)
  {
  }

  /** The moves stopped at a directory. */
  lemma ContentOfDirs<T>(a: Tree<T>, b: Tree<T>, flat: seq<Spot>)
    requires Carried(a, b, flat)
    ensures CarriesContent(a, b, flat, false)
  {
    hide Kept, Undisturbed, At;
  }

  /** The moves went on to the loose proofs. */
  lemma ContentOfBoth<T>(a: Tree<T>, u: Tree<T>, b: Tree<T>, flat: seq<Spot>, ok: bool)
    requires Carried(a, u, flat) && Free(a, flat) && u.loose == a.loose && Kept(u, b)
    requires ok ==> Written(u, b, flat)
    requires Undisturbed(u, b) || exists s :: s in flat && At(u, s.dest, s.name).Some?
    ensures CarriesContent(a, b, flat, ok)
  {
    CarriedMeans(a, u, flat);
    KeptTwice(a, u, b);
    DisturbedIff(a, u, b, flat);
    hide Kept, Undisturbed, At, Carried, Written, Free;
  }

  lemma SamePlacesSameMoves<T>(a: Tree<T>, b: Tree<T>, c: Tree<T>, operations: seq<Dir>)
    requires forall d :: d in operations ==> d in a.stores
    requires MovedUpToBlock(a, b, operations) && c.places == b.places
    ensures MovedUpToBlock(a, c, operations)
  {
  }

  lemma CoverStays<T>(a: Tree<T>, b: Tree<T>, dirs: seq<Dir>, spots: seq<Spot>)
    requires Covers(a, dirs, spots) && SameNames(a, b)
    ensures Covers(b, dirs, spots)
  {
  }

  lemma NextInTurn<X>(xs: seq<X>, i: nat)
    requires i < |xs| && Distinct(xs)
    ensures xs[i] in xs && xs[i] !in xs[..i]
    ensures forall x :: x in xs[..i + 1] <==> x in xs[..i] || x == xs[i]
  {
    assert xs[..i + 1] == xs[..i] + [xs[i]];
  }

  lemma CarriedAtFirst<T>(t: Tree<T>, flat: seq<Spot>)
    ensures Carried(t, t, flat)
  {
  }

  lemma UndisturbedAtFirst<T>(t: Tree<T>)
    ensures Undisturbed(t, t)
  {
  }

  lemma CarriedMeans<T>(a: Tree<T>, b: Tree<T>, flat: seq<Spot>)
    requires Carried(a, b, flat)
    ensures Kept(a, b) && Undisturbed(a, b)
  {
  }

  lemma MovedDirCarries<T>(t: Tree<T>, d: Dir, empty: T, flat: seq<Spot>)
    requires d in t.places && d in t.stores && !RefusesDir(t, d, true) && !InPlace(t, d) && Clear(t, [d], flat)
    ensures Carried(t, MovedDir(t, d, empty), flat)
  {
    var u := MovedDir(t, d, empty);
    MovedDirKeeps(t, d, empty);
    hide Kept;
    var have := Files(t.stores[d]);
    forall n | n in EntriesOf(t, d) ensures n !in have {
      assert n in EntriesOf(t, d).Keys && n !in EntriesOf(t, d).Keys * have.Keys;
    }
    forall s | s in flat ensures At(u, s.dest, s.name) == At(t, s.dest, s.name) {
      assert s.dest == d ==> d in [d] && s.name !in EntriesOf(t, d);
    }
  }

  lemma DirsAtFirst<T>(t: Tree<T>, flat: seq<Spot>)
    requires Free(t, flat)
    ensures SameNames(t, t) && DirsPassed(t, t, [], flat)
  {
    CarriedAtFirst(t, flat);
  }

  /** The next directory is as it was, and can be moved. */
  lemma DirsNext<T>(a: Tree<T>, b: Tree<T>, operations: seq<Dir>, flat: seq<Spot>, i: nat)
    requires i < |operations| && Distinct(operations) && Movable(a, operations) && Clear(a, operations, flat)
    requires SameNames(a, b) && DirsPassed(a, b, operations[..i], flat)
    ensures var d := operations[i];
            && d in a.places && d in a.stores && d in b.places && d in b.stores
            && b.stores[d] == a.stores[d] && b.places[d] == a.places[d]
            && !RefusesDir(b, d, true) && !InPlace(b, d) && Clear(b, [d], flat)
  {
    NextInTurn(operations, i);
    SameRefusal(a, b, operations[i]);
    hide Carried, Free, RefusesDir;
  }

  lemma DirsStep<T>(a: Tree<T>, t: Tree<T>, operations: seq<Dir>, flat: seq<Spot>, i: nat, empty: T)
    requires i < |operations| && Distinct(operations) && SameNames(a, t) && DirsPassed(a, t, operations[..i], flat)
    requires var d := operations[i];
             && d in t.places && d in t.stores && d in a.stores && t.stores[d] == a.stores[d] && !a.stores[d].InTheWay?
             && !RefusesDir(t, d, true) && !InPlace(t, d) && Clear(t, [d], flat)
    ensures SameNames(a, MovedDir(t, operations[i], empty))
    ensures DirsPassed(a, MovedDir(t, operations[i], empty), operations[..i + 1], flat)
  {
    var d := operations[i];
    hide Carried, Free, Clear, RefusesDir, MovedDir;
    NextInTurn(operations, i);
    MovedDirCarries(t, d, empty, flat);
    MovedDirFrees(t, d, empty, flat);
    MovedDirElsewhere(t, d, empty);
    CarriedTwice(a, t, MovedDir(t, d, empty), flat);
  }

  /** What the second pass has done when it ends at `i`, with all directories or at a blocked one. */
  lemma DirsPart<T>(a: Tree<T>, b: Tree<T>, operations: seq<Dir>, flat: seq<Spot>, i: nat)
    requires i <= |operations| && SameNames(a, b) && DirsPassed(a, b, operations[..i], flat)
    requires forall d :: d in operations ==> d in a.stores
    requires i < |operations| ==> a.stores[operations[i]].InTheWay?
    ensures Carried(a, b, flat) && Free(b, flat) && b.loose == a.loose
    ensures forall d :: d in a.places && d !in operations ==> b.places[d] == a.places[d]
    ensures forall d :: d in a.stores && d !in operations ==> b.stores[d] == a.stores[d]
    ensures forall d :: d in operations[..i] ==> d in b.places && d in b.stores && InPlace(b, d) && b.stores[d].Held? && !a.stores[d].InTheWay?
    ensures MovedUpToBlock(a, b, operations)
  {
    hide Carried, Free;
    assert forall d :: d in operations[..i] ==> d in operations;
    forall j | 0 <= j < |operations| && Unblocked(a, operations, j) ensures operations[j] in operations[..i] {
      assert operations[..i][..i] == operations[..i];
      assert j < i ==> operations[..i][j] == operations[j];
    }
  }

  lemma LooseAtFirst<T>(t: Tree<T>, flat: seq<Spot>)
    requires Free(t, flat)
    ensures LoosePassed(t, t, flat, 0)
  {
    KeptAtFirst(t);
    assert flat[0..] == flat;
  }

  lemma LooseNext<T>(a: Tree<T>, b: Tree<T>, flat: seq<Spot>, i: nat)
    requires i < |flat| && b.stores.Keys == a.stores.Keys && LoosePassed(a, b, flat, i)
    ensures var s := flat[i];
            && s in b.loose && b.loose[s].Plain? && s.dest in b.stores && s.dest in a.stores
            && (b.stores[s.dest].InTheWay? <==> a.stores[s.dest].InTheWay?)
  {
    hide Kept, Written, ReadStore;
    assert flat[i..][0] == flat[i];
    FreeAtFirst(b, flat[i..]);
  }

  lemma LooseStep<T>(a: Tree<T>, t: Tree<T>, flat: seq<Spot>, i: nat)
    requires i < |flat| && Distinct(flat) && t.stores.Keys == a.stores.Keys && LoosePassed(a, t, flat, i)
    requires var s := flat[i]; s in t.loose && t.loose[s].Plain? && s.dest in t.stores && !t.stores[s.dest].InTheWay?
    ensures MovedLoose(t, flat[i]).stores.Keys == a.stores.Keys
    ensures LoosePassed(a, MovedLoose(t, flat[i]), flat, i + 1)
  {
    MovedLooseElsewhere(t, flat[i]);
    LooseContentStep(a, t, flat, i);
    LooseFrameStep(a, t, flat, i);
    hide LooseContent, LooseFrame, MovedLoose;
  }

  lemma LooseContentStep<T>(a: Tree<T>, t: Tree<T>, flat: seq<Spot>, i: nat)
    requires i < |flat| && Distinct(flat) && LooseContent(a, t, flat, i)
    requires var s := flat[i]; s in a.loose && s in t.loose && t.loose[s] == a.loose[s]
    ensures var s := flat[i]; s in t.loose && t.loose[s].Plain? && s.dest in t.stores
    ensures LooseContent(a, MovedLoose(t, flat[i]), flat, i + 1)
  {
    var s, rest := flat[i], flat[i..];
    assert rest[0] == s && rest[1..] == flat[i + 1..] && Distinct(rest);
    hide Kept, MovedLoose, ReadStore, Free, Written;
    FreeAtFirst(t, rest);
    MovedLooseKeeps(t, s);
    MovedLooseFrees(t, s, rest);
    KeptTwice(a, t, MovedLoose(t, s));
    WrittenNext(a, t, flat, i);
  }

  lemma LooseFrameStep<T>(a: Tree<T>, t: Tree<T>, flat: seq<Spot>, i: nat)
    requires i < |flat| && Distinct(flat) && t.stores.Keys == a.stores.Keys && LooseFrame(a, t, flat[..i])
    requires var s := flat[i]; s in t.loose && t.loose[s].Plain? && s.dest in t.stores && !t.stores[s.dest].InTheWay?
    ensures MovedLoose(t, flat[i]).stores.Keys == a.stores.Keys
    ensures LooseFrame(a, MovedLoose(t, flat[i]), flat[..i + 1])
  {
    NextInTurn(flat, i);
    MovedLooseElsewhere(t, flat[i]);
    SameNamesTwice(a, t, MovedLoose(t, flat[i]));
    hide MovedLoose;
  }

  lemma LoosePart<T>(a: Tree<T>, b: Tree<T>, flat: seq<Spot>, i: nat)
    requires i <= |flat| && b.stores.Keys == a.stores.Keys && LoosePassed(a, b, flat, i)
    ensures Kept(a, b) && b.places == a.places && SameNames(a, b)
    ensures forall s :: s in a.loose && s !in flat ==> b.loose[s] == a.loose[s]
    ensures forall d :: d in a.stores && !a.stores[d].Escapes? ==> !b.stores[d].Escapes?
    ensures Undisturbed(a, b) || exists s :: s in flat && At(a, s.dest, s.name).Some?
    ensures i == |flat| ==> Written(a, b, flat) && forall s :: s in flat ==> Settled(b, s) && !a.stores[s.dest].InTheWay?
  {
    assert forall s :: s in flat[..i] ==> s in flat;
    assert flat[..|flat|] == flat;
    WrittenDisturbs(a, b, flat, i);
    hide Kept, Written, Undisturbed, At;
  }

  /** One more loose proof has been written, and nothing else. */
  lemma WrittenNext<T>(a: Tree<T>, t: Tree<T>, flat: seq<Spot>, i: nat)
    requires i < |flat| && Distinct(flat) && Written(a, t, flat[..i])
    requires var s := flat[i]; s in a.loose && s in t.loose && t.loose[s] == a.loose[s] && t.loose[s].Plain? && s.dest in t.stores
    ensures Written(a, MovedLoose(t, flat[i]), flat[..i + 1])
  {
    NextInTurn(flat, i);
    var s, u := flat[i], MovedLoose(t, flat[i]);
    forall d, n ensures At(u, d, n) == if Spot(d, n) in flat[..i + 1] then WrittenAt(a, Spot(d, n)) else At(a, d, n) {
      assert At(u, d, n) == if Spot(d, n) == s then WrittenAt(a, s) else At(t, d, n);
    }
  }

  lemma WrittenDisturbs<T>(a: Tree<T>, b: Tree<T>, flat: seq<Spot>, i: nat)
    requires i <= |flat| && Written(a, b, flat[..i])
    ensures Undisturbed(a, b) || exists s :: s in flat && At(a, s.dest, s.name).Some?
  {
    hide At;
    if d, n :| At(a, d, n).Some? && At(b, d, n) != At(a, d, n) {
      var s := Spot(d, n);
      assert s in flat[..i] && s in flat && At(a, s.dest, s.name).Some?;
    }
  }

  lemma OverwritesIff<T>(t: Tree<T>, spots: seq<Spot>, flat: seq<Spot>, migrate: bool)
    requires forall s :: s in spots ==> s in t.loose
    requires forall s :: s in flat <==> migrate && s in spots && !Settled(t, s)
    ensures Overwrites(t, spots, migrate) <==> exists s :: s in flat && At(t, s.dest, s.name).Some?
  {
  }

  /** Moving the directories and then writing the loose proofs disturbs an entry exactly when one
      stood at the place of a loose proof: it could not be read, and what is there now can. */
  lemma DisturbedIff<T>(t: Tree<T>, u: Tree<T>, v: Tree<T>, flat: seq<Spot>)
    requires Carried(t, u, flat) && Free(t, flat)
    requires u.loose == t.loose
    ensures Written(u, v, flat) ==> (Undisturbed(t, v) <==> forall s :: s in flat ==> At(t, s.dest, s.name).None?)
    ensures Undisturbed(u, v) ==> Undisturbed(t, v)
    ensures (exists s :: s in flat && At(u, s.dest, s.name).Some?) <==> exists s :: s in flat && At(t, s.dest, s.name).Some?
  {
    if Undisturbed(u, v) {
      UndisturbedTwice(t, u, v);
    }
    if Written(u, v, flat) {
      WrittenDisturbs(u, v, flat, |flat|);
      assert flat[..|flat|] == flat;
      forall s | s in flat && At(t, s.dest, s.name).Some? ensures !Undisturbed(t, v) {
        assert At(v, s.dest, s.name) == WrittenAt(u, s);
        assert ReadStore(t, s.dest, s.name).None?;
      }
    }
  }

  lemma UndisturbedTwice<T>(a: Tree<T>, b: Tree<T>, c: Tree<T>)
    requires Undisturbed(a, b) && Undisturbed(b, c)
    ensures Undisturbed(a, c)
  {
    forall d, n | At(a, d, n).Some? ensures At(c, d, n) == At(a, d, n) {
      assert At(b, d, n) == At(a, d, n);
    }
  }

  lemma FreeAtFirst<T>(t: Tree<T>, flat: seq<Spot>)
    requires Free(t, flat) && flat != []
    ensures var s := flat[0];
            s in t.loose && t.loose[s].Plain? && s.dest in t.stores && ReadStore(t, s.dest, s.name).None? && !t.stores[s.dest].Escapes?
  {
    assert flat[0] in flat;
  }

  lemma SameNamesTwice<T>(a: Tree<T>, b: Tree<T>, c: Tree<T>)
    requires SameNames(a, b) && SameNames(b, c)
    ensures SameNames(a, c)
  {
  }

  lemma KeptAtFirst<T>(t: Tree<T>)
    ensures Kept(t, t) && SameNames(t, t)
  {
  }

  lemma SameRefusal<T>(t: Tree<T>, u: Tree<T>, d: Dir)
    requires d in t.places && d in t.stores && d in u.places && d in u.stores
    requires t.places[d] == u.places[d] && t.stores[d] == u.stores[d]
    ensures RefusesDir(t, d, true) == RefusesDir(u, d, true)
  {
  }

  lemma MovedDirElsewhere<T>(t: Tree<T>, d: Dir, empty: T)
    requires d in t.places && d in t.stores
    ensures var u := MovedDir(t, d, empty);
            && SameNames(t, u) && u.loose == t.loose && InPlace(u, d) && u.stores[d].Held?
            && (forall e :: e in t.places && e != d ==> u.places[e] == t.places[e])
            && (forall e :: e in t.stores && e != d ==> u.stores[e] == t.stores[e])
  {
  }

  lemma MovedDirFrees<T>(t: Tree<T>, d: Dir, empty: T, flat: seq<Spot>)
    requires d in t.places && d in t.stores && Free(t, flat) && Clear(t, [d], flat)
    ensures Free(MovedDir(t, d, empty), flat)
  {
    var u := MovedDir(t, d, empty);
    forall s | s in flat ensures ReadStore(u, s.dest, s.name).None? && !u.stores[s.dest].Escapes? {
      assert ReadStore(t, s.dest, s.name).None?;
      if s.dest == d {
        assert d in [d] && s.name !in EntriesOf(t, d);
      }
    }
  }

  lemma MovedLooseElsewhere<T>(t: Tree<T>, s: Spot)
    requires s in t.loose && s.dest in t.stores && t.loose[s].Plain?
    ensures var u := MovedLoose(t, s);
            && SameNames(t, u) && u.places == t.places && Settled(u, s) && u.stores[s.dest].Held?
            && (forall o :: o in t.loose && o != s ==> u.loose[o] == t.loose[o])
            && (forall e :: e in t.stores && e != s.dest ==> u.stores[e] == t.stores[e])
  {
  }

  lemma MovedLooseFrees<T>(t: Tree<T>, s: Spot, flat: seq<Spot>)
    requires flat != [] && flat[0] == s && Distinct(flat) && Free(t, flat)
    requires s in t.loose && s.dest in t.stores && t.loose[s].Plain?
    ensures Free(MovedLoose(t, s), flat[1..])
  {
    var u := MovedLoose(t, s);
    DistinctTail(flat);
    forall o | o in flat[1..]
      ensures o in u.loose && u.loose[o].Plain? && o.dest in u.stores && ReadStore(u, o.dest, o.name).None? && !u.stores[o.dest].Escapes?
    {
      assert o in flat && o != s;
      assert ReadStore(t, o.dest, o.name).None?;
    }
  }

  // --- facts about the plan ------------------------------------------------------------------------

  lemma PreparedIsSafe<T>(t: Tree<T>, dirs: seq<Dir>, spots: seq<Spot>, migrate: bool)
    requires Covers(t, dirs, spots)
    ensures Prepared(t, dirs, spots, migrate) ==> !Unsafe(t, dirs, spots, migrate)
  {
  }

  lemma NotPrepared<T>(t: Tree<T>, dirs: seq<Dir>, spots: seq<Spot>, operations: seq<Dir>, flat: seq<Spot>, migrate: bool)
    requires Covers(t, dirs, spots) && |operations| + |flat| > 0
    requires forall d :: d in operations ==> d in dirs && !InPlace(t, d)
    requires forall s :: s in flat ==> migrate && s in spots && !Settled(t, s)
    ensures !Prepared(t, dirs, spots, migrate)
  {
    if operations != [] {
      assert operations[0] in operations;
    } else {
      assert flat[0] in flat;
    }
  }

  lemma PlanIsMovable<T>(t: Tree<T>, dirs: seq<Dir>, operations: seq<Dir>, migrate: bool)
    requires forall d :: d in dirs ==> d in t.places && d in t.stores && !RefusesDir(t, d, migrate)
    requires forall d :: d in operations ==> d in dirs && !InPlace(t, d)
    ensures Movable(t, operations)
  {
  }

  lemma PlanIsFree<T>(t: Tree<T>, dirs: seq<Dir>, spots: seq<Spot>, operations: seq<Dir>, flat: seq<Spot>, migrate: bool)
    requires Covers(t, dirs, spots)
    requires forall d :: d in operations ==> d in dirs
    requires forall s :: s in flat ==> s in spots && !Settled(t, s) && !RefusesLoose(t, dirs, s)
    ensures Free(t, flat) && Clear(t, operations, flat)
  {
  }

  lemma PlanMeans<T>(t: Tree<T>, dirs: seq<Dir>, spots: seq<Spot>, migrate: bool, operations: seq<Dir>, flat: seq<Spot>)
    requires Covers(t, dirs, spots) && Planned(t, dirs, spots, migrate, operations, flat)
    ensures operations == Pending(t, dirs) && Distinct(operations) && Distinct(flat)
    ensures Movable(t, operations) && Free(t, flat) && Clear(t, operations, flat)
    ensures Prepared(t, dirs, spots, migrate) ==> operations == [] && flat == []
  {
    hide Free, Clear, Movable;
    if |operations| + |flat| > 0 {
      NotPrepared(t, dirs, spots, operations, flat, migrate);
    }
  }

  lemma CarriesMeans<T>(a: Tree<T>, u: Tree<T>, b: Tree<T>, dirs: seq<Dir>, spots: seq<Spot>, migrate: bool,
                        operations: seq<Dir>, flat: seq<Spot>, first: bool, ok: bool)
    requires Covers(a, dirs, spots) && !Unsafe(a, dirs, spots, migrate) && Planned(a, dirs, spots, migrate, operations, flat)
    requires Carries(a, u, b, operations, flat, first, ok)
    ensures Kept(a, b) && Covers(b, dirs, spots) && MovedUpToBlock(a, b, operations)
    ensures ok <==> !Blocked(a, dirs, spots, migrate)
    ensures ok ==> Prepared(b, dirs, spots, migrate)
    ensures ok ==> forall d :: d in operations ==> At(b, d, GITKEEP).Some?
    ensures ok ==> (Undisturbed(a, b) <==> !Overwrites(a, spots, migrate))
    ensures !Overwrites(a, spots, migrate) ==> Undisturbed(a, b)
  {
    BothMean(a, u, b, operations, flat, first, ok);
    hide Kept, Free, Movable, Clear, RefusesDir, RefusesLoose, Prepared, InPlace, Settled, Blocked, MovedUpToBlock, Undisturbed,
         Overwrites, At, SameNames, DirsDone, LooseDone;
    CoverStays(a, u, dirs, spots);
    CoverStays(u, b, dirs, spots);
    BlockedIff(a, dirs, spots, operations, flat, migrate);
    OverwritesIff(a, spots, flat, migrate);
    if ok {
      AllInPlace(a, u, b, dirs, spots, operations, flat, migrate);
    }
  }

  lemma GitkeepStays<T>(a: Tree<T>, u: Tree<T>, b: Tree<T>, operations: seq<Dir>, flat: seq<Spot>)
    requires DirsDone(a, u, operations, true) && LooseDone(u, b, flat, true)
    ensures forall d :: d in operations ==> At(b, d, GITKEEP).Some?
  {
    hide MovedUpToBlock, InPlace, Settled;
    forall d | d in operations ensures At(b, d, GITKEEP).Some? {
      assert d in u.stores && GITKEEP in Files(u.stores[d]).Keys && Files(u.stores[d]).Keys <= Files(b.stores[d]).Keys;
    }
  }

  lemma BothMean<T>(a: Tree<T>, u: Tree<T>, b: Tree<T>, operations: seq<Dir>, flat: seq<Spot>, first: bool, ok: bool)
    requires Carries(a, u, b, operations, flat, first, ok)
    requires forall s :: s in flat ==> s.dest in a.stores
    ensures SameNames(a, u) && SameNames(u, b) && MovedUpToBlock(a, b, operations)
    ensures ok ==> forall d :: d in operations ==> At(b, d, GITKEEP).Some?
    ensures ok <==> (forall d :: d in operations ==> !a.stores[d].InTheWay?) && forall s :: s in flat ==> !a.stores[s.dest].InTheWay?
  {
    hide Kept, Undisturbed, At, InPlace, Settled, CarriesContent;
    SamePlacesSameMoves(a, u, b, operations);
    if ok { GitkeepStays(a, u, b, operations, flat); }
    assert first ==> forall s :: s in flat ==> (u.stores[s.dest].InTheWay? <==> a.stores[s.dest].InTheWay?);
  }

  /** What a path reads, by what stands there: the file in a directory, the file under the proofs that a
      link leads to. */
  lemma PathsRead<T>(t: Tree<T>, d: Dir, n: Name, s: Spot, content: T)
    ensures d in t.places && t.places[d].Folder? && Get(t.places[d].entries, n) == Some(Readable(content)) ==>
              ReadPlace(t, d, n) == Some(content)
    ensures d in t.stores && t.stores[d].Held? && Get(t.stores[d].files, n) == Some(Readable(content)) ==>
              && ReadStore(t, d, n) == Some(content)
              && (forall e :: e in t.places && t.places[e] == Linked(Some(d)) ==> ReadPlace(t, e, n) == Some(content))
              && (s in t.loose && t.loose[s] == LooseLink(Some(Spot(d, n))) ==> ReadLoose(t, s) == Some(content))
    ensures s in t.loose && t.loose[s] == Plain(content) ==> ReadLoose(t, s) == Some(content)
  {
  }

  /** So what a migration keeps is where it should be: a file of a directory that is now a link stands
      under the proofs, and so does a loose proof that is now one. */
  lemma KeptUnderTheProofs<T>(a: Tree<T>, b: Tree<T>, d: Dir, n: Name, s: Spot, content: T)
    requires Kept(a, b)
    ensures d in a.places && a.places[d].Folder? && Get(a.places[d].entries, n) == Some(Readable(content)) &&
            Get(b.places, d) == Some(Linked(Some(d))) ==>
              At(b, d, n) == Some(Readable(content))
    ensures s in a.loose && a.loose[s] == Plain(content) && Get(b.loose, s) == Some(LooseLink(Some(s))) ==>
              At(b, s.dest, s.name) == Some(Readable(content))
  {
    PathsRead(a, d, n, s, content);
    assert Retains(ReadPlace(a, d, n), ReadPlace(b, d, n)) && Retains(ReadLoose(a, s), ReadLoose(b, s));
  }

  /** What was already in place stays, the rest was moved. */
  lemma AllInPlace<T>(t: Tree<T>, u: Tree<T>, v: Tree<T>, dirs: seq<Dir>, spots: seq<Spot>,
                      operations: seq<Dir>, flat: seq<Spot>, migrate: bool)
    requires Covers(t, dirs, spots) && Covers(v, dirs, spots) && !Unsafe(t, dirs, spots, migrate)
    requires u.loose == t.loose && v.places == u.places
    requires forall d :: d in operations <==> d in dirs && !InPlace(t, d)
    requires forall s :: s in flat <==> migrate && s in spots && !Settled(t, s)
    requires DirsDone(t, u, operations, true) && LooseDone(u, v, flat, true)
    ensures Prepared(v, dirs, spots, migrate)
  {
    forall d | d in dirs ensures InPlace(v, d) && !v.stores[d].Escapes? {
      assert !RefusesDir(t, d, migrate);
    }
    if migrate {
      forall s | s in spots ensures Settled(v, s) && !v.stores[s.dest].Escapes? {
        assert !RefusesLoose(t, dirs, s);
        StoreStillInside(t, u, s.dest, operations);
      }
    }
  }

  lemma StoreStillInside<T>(t: Tree<T>, u: Tree<T>, d: Dir, operations: seq<Dir>)
    requires d in t.stores && d in u.stores && !t.stores[d].Escapes?
    requires d in operations ==> u.stores[d].Held?
    requires d !in operations ==> u.stores[d] == t.stores[d]
    ensures !u.stores[d].Escapes?
  {
  }

  /** The two passes look at a collision differently: a dangling link under the proofs stops a
      directory entry, but a loose proof silently replaces it. */
  lemma DanglingLinkIsReplaced<T>(t: Tree<T>, dirs: seq<Dir>, s: Spot)
    requires s in t.loose && t.loose[s].Plain? && s.dest in t.stores && !Occupied(t, dirs, s)
    requires t.stores[s.dest].Held? && s.name in t.stores[s.dest].files && t.stores[s.dest].files[s.name].Dangling?
    ensures !RefusesLoose(t, dirs, s)
    ensures MovedLoose(t, s).stores[s.dest].files[s.name] == Readable(t.loose[s].content)
    ensures forall d :: d in t.places && d == s.dest && s.name in EntriesOf(t, d) ==> RefusesDir(t, d, true)
  {
    forall d | d in t.places && d == s.dest && s.name in EntriesOf(t, d) ensures RefusesDir(t, d, true) {
      assert s.name in EntriesOf(t, d).Keys * Files(t.stores[d]).Keys;
    }
  }
}

/** A filesystem that anything may change between two system calls of the verifier. */
module HostileHost {
  import opened Common
  import opened Artifact

  type Path = string
  type FileObject = nat

  /** `FileIdentity`: what lstat and fstat report about one file at one moment. */
  datatype Identity = Identity(dev: nat, ino: nat, size: nat, mtime: int, ctime: int)

  datatype Entry = Regular(file: FileObject) | Special(file: FileObject) | Symlink

  /** `paths` is what lstat finds; `detours` are the paths whose parent resolves through a
      link; `files` gives each file object its identity now, whether or not a path still names
      it; `states` keeps every file state there has ever been. */
  datatype World = World(paths: map<Path, Entry>, detours: set<Path>, files: map<FileObject, Identity>, states: map<Identity, Bytes>)

  /** What an outside process can do. */
  datatype Event =
    | Modify(file: FileObject, id: Identity, content: Bytes)
    | NewFile(path: Path, entry: Entry, id: Identity, content: Bytes)
    | Move(from: Path, to: Path)
    | HardLink(from: Path, to: Path)
    | Remove(path: Path)
    | Link(path: Path)
    | Detour(path: Path, on: bool)
    | Signal(number: nat)

  /** An event that the filesystem would refuse changes nothing. The one assumption about the host
      is made here: a file that is new or has changed shows an identity no file ever showed
      before. It gives more than that different bytes have different identities: going back to
      earlier bytes does not bring the earlier identity back either, because the change time
      moves on. `ReturningIdentityFoolsTheReader` shows that this is needed. */
  function Apply(w: World, e: Event): World {
    match e
    case Modify(file, id, content) =>
      if file in w.files && id !in w.states && |content| == id.size then
        w.(files := w.files[file := id], states := w.states[id := content])
      else w
    case NewFile(path, entry, id, content) =>
      if !entry.Symlink? && entry.file !in w.files && id !in w.states && |content| == id.size then
        w.(paths := w.paths[path := entry], files := w.files[entry.file := id], states := w.states[id := content])
      else w
    case Move(from, to) =>
      if from in w.paths && from != to then w.(paths := (w.paths - {from})[to := w.paths[from]]) else w
    case HardLink(from, to) =>
      if from in w.paths && to !in w.paths then w.(paths := w.paths[to := w.paths[from]]) else w
    case Remove(path) => w.(paths := w.paths - {path})
    case Link(path) => w.(paths := w.paths[path := Symlink])
    case Detour(path, on) => w.(detours := if on then w.detours + {path} else w.detours - {path})
    case Signal(_) => w
  }

  /** The paths outside `touched` find in `v` what they found in `w`. */
  ghost predicate SameBut(w: World, v: World, touched: set<Path>) {
    forall p :: p !in touched ==> Get(v.paths, p) == Get(w.paths, p)
  }

  /** The outside is free to do these things: no event on paths is without its effect, except for one
      that has nothing to act on, and it has no other effect. */
  lemma EventsHappen(w: World, e: Event)
    ensures var v := Apply(w, e);
            match e
            case Modify(file, id, content) =>
              v.paths == w.paths && (file in w.files && id !in w.states && |content| == id.size ==> v.files[file] == id && v.states[id] == content)
            case NewFile(path, entry, id, content) =>
              SameBut(w, v, {path}) &&
              (!entry.Symlink? && entry.file !in w.files && id !in w.states && |content| == id.size ==>
                 Get(v.paths, path) == Some(entry) && v.files[entry.file] == id && v.states[id] == content)
            case Move(from, to) =>
              SameBut(w, v, {from, to}) &&
              (from in w.paths && from != to ==> from !in v.paths && Get(v.paths, to) == Some(w.paths[from]))
            case HardLink(from, to) =>
              SameBut(w, v, {to}) && (from in w.paths && to !in w.paths ==> Get(v.paths, to) == Some(w.paths[from]))
            case Remove(path) => SameBut(w, v, {path}) && path !in v.paths
            case Link(path) => SameBut(w, v, {path}) && Get(v.paths, path) == Some(Symlink)
            case Detour(path, on) =>
              v.paths == w.paths && (path in v.detours <==> on) && v.detours - {path} == w.detours - {path}
            case Signal(_) => v == w
    ensures e.Move? || e.HardLink? || e.Remove? || e.Link? || e.Detour? ==>
              Apply(w, e).files == w.files && Apply(w, e).states == w.states
  {
  }

  /** A host of which less is assumed: a file may show an earlier identity again, as long as
      that identity always stands for the same bytes. */
  function ApplyLoosely(w: World, e: Event): World {
    match e
    case Modify(file, id, content) =>
      if file in w.files && |content| == id.size && (id in w.states ==> w.states[id] == content) then
        w.(files := w.files[file := id], states := w.states[id := content])
      else w
    case _ => Apply(w, e)
  }

  /** That is still kept: every recorded state stays, with its bytes. */
  lemma LooselyKeepsBytes(w: World, e: Event)
    requires WellFormed(w)
    ensures WellFormed(ApplyLoosely(w, e))
    ensures forall id :: id in w.states ==> id in ApplyLoosely(w, e).states && ApplyLoosely(w, e).states[id] == w.states[id]
  {
  }

  function ApplyAll(w: World, events: seq<Event>): World
    decreases |events|
  {
    if events == [] then w else ApplyAll(Apply(w, events[0]), events[1..])
  }

  ghost predicate WellFormed(w: World) {
    && (forall f :: f in w.files ==> w.files[f] in w.states)
    && (forall id :: id in w.states ==> |w.states[id]| == id.size)
    && (forall p :: p in w.paths && !w.paths[p].Symlink? ==> w.paths[p].file in w.files)
  }

  /** What can never be undone: file states stay on record, open files stay open, and a file
      that has changed never shows an identity it, or any other file, showed before. */
  ghost predicate Evolves(w: World, v: World) {
    && (forall id :: id in w.states ==> id in v.states && v.states[id] == w.states[id])
    && (forall f :: f in w.files ==> f in v.files && (v.files[f] == w.files[f] || v.files[f] !in w.states))
  }

  lemma EvolvesOne(w: World, e: Event)
    requires WellFormed(w)
    ensures WellFormed(Apply(w, e)) && Evolves(w, Apply(w, e))
  {
  }

  lemma EvolvesThrough(w: World, v: World, u: World)
    requires WellFormed(v) && Evolves(w, v) && Evolves(v, u)
    ensures Evolves(w, u)
  {
  }

  lemma {:induction false} EvolvesAll(w: World, events: seq<Event>)
    requires WellFormed(w)
    ensures WellFormed(ApplyAll(w, events)) && Evolves(w, ApplyAll(w, events))
    decreases |events|
  {
    if events != [] {
      EvolvesOne(w, events[0]);
      EvolvesAll(Apply(w, events[0]), events[1..]);
      EvolvesThrough(w, Apply(w, events[0]), ApplyAll(w, events));
    }
  }

  /** The last signal to arrive; signal numbers start at one. */
  function LastSignal(before: Option<nat>, events: seq<Event>): Option<nat>
    decreases |events|
  {
    if events == [] then before
    else LastSignal(Delivered(before, events[0]), events[1..])
  }

  function Delivered(before: Option<nat>, e: Event): Option<nat> {
    if e.Signal? && e.number > 0 then Some(e.number) else before
  }

  lemma {:induction false} SignalIsSticky(before: Option<nat>, events: seq<Event>)
    ensures before.Some? ==> LastSignal(before, events).Some?
    ensures (before.Some? ==> before.value > 0) ==>
              (LastSignal(before, events).Some? ==> LastSignal(before, events).value > 0)
    decreases |events|
  {
    if events != [] {
      SignalIsSticky(Delivered(before, events[0]), events[1..]);
    }
  }

  /** A signal that arrives last is the one that counts, and without one nothing changes. */
  lemma {:induction false} LastSignalIs(before: Option<nat>, events: seq<Event>, k: nat)
    requires forall i :: k < i < |events| ==> !(events[i].Signal? && events[i].number > 0)
    ensures k < |events| && events[k].Signal? && events[k].number > 0 ==>
              LastSignal(before, events) == Some(events[k].number)
    ensures (forall i :: 0 <= i < |events| ==> !(events[i].Signal? && events[i].number > 0)) ==> LastSignal(before, events) == before
    decreases |events|
  {
    if events != [] {
      if k == 0 {
        LastSignalIs(Delivered(before, events[0]), events[1..], |events|);
      } else {
        LastSignalIs(Delivered(before, events[0]), events[1..], k - 1);
      }
    }
  }

  /** Before one system call: what the outside does, the error the call fails with, if any,
      whether it is interrupted, and how few bytes a read returns. */
  datatype Turn = Turn(events: seq<Event>, fails: bool, interrupted: bool, short: nat)

  const QUIET: Turn := Turn([], false, false, 0)

  /** The next turn of a script; past its end nothing happens. */
  function NextTurn(script: seq<Turn>): Turn { if script == [] then QUIET else script[0] }

  function LaterTurns(script: seq<Turn>): seq<Turn> { if script == [] then [] else script[1..] }

  /** What happens before the `n`-th call from now, counted from zero. */
  function TurnAt(script: seq<Turn>, n: nat): Turn { if n < |script| then script[n] else QUIET }

  /** The signal that is there once `n` more calls have been answered. */
  function SignalAfter(before: Option<nat>, script: seq<Turn>, n: nat): Option<nat> {
    if n == 0 then before else LastSignal(SignalAfter(before, script, n - 1), TurnAt(script, n - 1).events)
  }

  lemma SignalNext(before: Option<nat>, script: seq<Turn>, n: nat)
    ensures SignalAfter(before, script, 0) == before
    ensures SignalAfter(before, script, n + 1) == LastSignal(SignalAfter(before, script, n), TurnAt(script, n).events)
  {
  }

  /** The turns still to come after `n` calls. */
  function Rest(script: seq<Turn>, n: nat): seq<Turn> { if n <= |script| then script[n..] else [] }

  lemma RestNext(script: seq<Turn>, n: nat)
    ensures NextTurn(Rest(script, n)) == TurnAt(script, n) && LaterTurns(Rest(script, n)) == Rest(script, n + 1)
    ensures Rest(script, 0) == script
  {
  }

  /** Nothing happens outside; calls may still fail, be interrupted or read less. */
  ghost predicate Still(script: seq<Turn>) { forall t :: t in script ==> t.events == [] }

  /** And no call fails. */
  ghost predicate Smooth(script: seq<Turn>) { forall t :: t in script ==> t.events == [] && !t.fails }

  /** The path names a regular file with this identity. */
  ghost predicate Names(w: World, path: Path, id: Identity) {
    path in w.paths && w.paths[path].Regular? && w.paths[path].file in w.files && w.files[w.paths[path].file] == id
  }

  /** What an open file reads as from an offset, now. */
  function Remaining(w: World, f: FileObject, offset: nat): Bytes
    requires WellFormed(w) && f in w.files
  {
    var content := w.states[w.files[f]];
    if offset < |content| then content[offset..] else []
  }

  /** Why identities must not come back. On the looser host a file of two bytes is rewritten after
      its first byte has been read, and then rewritten to what it was. The path names the same
      identity before and after the read, both before and after it is opened, but what was read
      is half of each, and no file ever held those bytes: a record of their digest would be
      verified. The host assumed here refuses the last event. */
  lemma ReturningIdentityFoolsTheReader(path: Path, f: FileObject)
    returns (before: World, during: World, after: World, first: Event, second: Event, read: Bytes)
    ensures WellFormed(before) && WellFormed(during) && WellFormed(after)
    ensures during == ApplyLoosely(before, first) && after == ApplyLoosely(during, second)
    ensures f in before.files && f in during.files && f in after.files
    ensures before.files[f] == after.files[f] && Names(before, path, before.files[f]) && Names(after, path, before.files[f])
    ensures |Remaining(before, f, 0)| == |Remaining(during, f, 0)| == 2
    ensures read == Remaining(before, f, 0)[..1] + Remaining(during, f, 1) && Remaining(after, f, 2) == []
    ensures |read| == before.files[f].size && read !in after.states.Values
    ensures during == Apply(before, first) && Apply(during, second) == during
  {
    var a, b := Identity(0, 1, 2, 0, 0), Identity(0, 1, 2, 1, 1);
    before := World(map[path := Regular(f)], {}, map[f := a], map[a := [0, 0]]);
    first, second := Modify(f, b, [1, 1]), Modify(f, a, [0, 0]);
    during, after := ApplyLoosely(before, first), ApplyLoosely(ApplyLoosely(before, first), second);
    assert after.states == map[a := [0, 0], b := [1, 1]];
    assert Remaining(during, f, 1) == [1];
    read := [0, 1];
  }

  /** The host as the verifier meets it: `script` is what is going to happen, `history` every
      world a system call was answered from. */
  class Host {
    var world: World
    var script: seq<Turn>
    var signal: Option<nat>
    ghost var history: seq<World>

    ghost predicate Valid()
      reads this
    {
      && WellFormed(world)
      && (forall t :: 0 <= t < |history| ==> Evolves(history[t], world))
      && (signal.Some? ==> signal.value > 0)
    }

    constructor (world: World, script: seq<Turn>)
      requires WellFormed(world)
      ensures Valid() && this.world == world && this.script == script && signal == None && history == []
    {
      this.world, this.script, signal, history := world, script, None, [];
    }

    /** Everything that happens up to the moment a system call is answered. */
    method Meanwhile() returns (turn: Turn)
      requires Valid()
      modifies this
      ensures Valid() && Evolves(old(world), world)
      ensures turn == NextTurn(old(script)) && script == LaterTurns(old(script))
      ensures world == ApplyAll(old(world), turn.events) && signal == LastSignal(old(signal), turn.events)
      ensures turn.events == [] ==> world == old(world)
      ensures Still(old(script)) ==> Still(script) && world == old(world) && signal == old(signal)
      ensures Smooth(old(script)) ==> Smooth(script) && !turn.fails
      ensures old(signal).Some? ==> signal.Some?
      ensures turn.events == [] ==> signal == old(signal)
      ensures history == old(history) + [world]
    {
      if script == [] {
        turn := QUIET;
      } else {
        turn, script := script[0], script[1..];
      }
      EvolvesAll(world, turn.events);
      SignalIsSticky(signal, turn.events);
      ghost var before := world;
      world, signal := ApplyAll(world, turn.events), LastSignal(signal, turn.events);
      forall t | 0 <= t < |history| ensures Evolves(history[t], world) {
        EvolvesThrough(history[t], before, world);
      }
      history := history + [world];
    }
  }
}

/** One file checked against its record, on a host where anything may change between two system
    calls (`verify_file_with`, `hash_stream` and `confirm_at_window_close` in rust/src/verify.rs). */
module VerifyFile {
  import opened Common
  import opened Artifact
  import opened HostileHost

  datatype ArtifactFile = ArtifactFile(destination: Path, record: Record)

  datatype Outcome =
    | VerifiedSha256(identity: Identity, bytesHashed: nat)
    | SizeOnlyNoPublishedHash(identity: Identity)
    | Missing
    | SizeMismatch(actualSize: nat, identity: Identity)
    | Sha256Mismatch(actualSha256: string, identity: Identity)
    | Unreadable(operation: string)
    | UnsafePath
    | ChangedDuringRead
    | NotChecked(signal: nat)

  /** The outcomes that say which file the path named. */
  predicate HasIdentity(o: Outcome) { o.VerifiedSha256? || o.SizeOnlyNoPublishedHash? || o.SizeMismatch? || o.Sha256Mismatch? }

  datatype Stream = Digest(sha256: string, bytes: nat) | IoError(offset: nat) | LongerThanExpected(read: nat) | Cancelled(signal: nat, read: nat)

  function Least(a: nat, b: nat): nat { if a < b then a else b }

  /** A file that shows an identity now, and showed that or another recorded one before, showed
      it then too. */
  lemma SameAsBefore(w: World, v: World, f: FileObject, id: Identity)
    requires WellFormed(w) && Evolves(w, v) && f in w.files && id in w.states
    ensures f in v.files
    ensures v.files[f] == id ==> w.files[f] == id && v.states[id] == w.states[id]
  {
  }

  /** Bytes read while the file still shows its opening identity extend a prefix of it. */
  lemma ReadExtends(w: World, v: World, f: FileObject, id: Identity, acc: Bytes, count: nat)
    requires WellFormed(w) && WellFormed(v) && Evolves(w, v) && f in w.files && id in w.states
    requires w.files[f] == id ==> acc <= w.states[id]
    requires f in v.files && count <= |Remaining(v, f, |acc|)|
    ensures v.files[f] == id ==> acc + Remaining(v, f, |acc|)[..count] <= v.states[id]
  {
  }

  datatype Reading = Got(bytes: Bytes) | AtEnd | Retry | Failed

  /** A read that works gives the end exactly at the end, and else what comes next. */
  ghost predicate Served(w: World, f: FileObject, offset: nat, buffer: nat, r: Reading)
    requires WellFormed(w) && f in w.files
  {
    && (r.AtEnd? <==> Remaining(w, f, offset) == [])
    && (r.Got? ==> r.bytes <= Remaining(w, f, offset) && |r.bytes| <= buffer)
  }

  /** One `read` into the buffer: at least a byte and at most a buffer full, or the end. If the
      file still shows its opening identity, what has been read is a prefix of its bytes. */
  method ReadSome(host: Host, f: FileObject, ghost acc: Bytes, offset: nat, buffer: nat, ghost atOpen: Identity)
    returns (r: Reading)
    requires host.Valid() && f in host.world.files && buffer > 0 && atOpen in host.world.states && offset == |acc|
    requires host.world.files[f] == atOpen ==> acc <= host.world.states[atOpen]
    modifies host
    ensures host.Valid() && Evolves(old(host.world), host.world) && old(host.history) <= host.history
    ensures old(host.signal).Some? ==> host.signal.Some?
    ensures r.Got? ==> 0 < |r.bytes|
    ensures host.world.files[f] == atOpen ==>
              if r.Got? then acc + r.bytes <= host.world.states[atOpen] else acc <= host.world.states[atOpen]
    ensures host.world.files[f] == atOpen && r.AtEnd? ==> acc == host.world.states[atOpen]
    ensures |host.script| <= |old(host.script)| && (r.Retry? || r.Failed? ==> |host.script| < |old(host.script)|)
    ensures Still(old(host.script)) ==> Still(host.script) && host.world == old(host.world) && host.signal == old(host.signal)
    ensures Smooth(old(host.script)) ==> Smooth(host.script) && r != Failed
    // What a read returns, by what happened up to it.
    ensures var turn := NextTurn(old(host.script));
            && f in host.world.files && host.script == LaterTurns(old(host.script))
            && host.signal == LastSignal(old(host.signal), turn.events) && |host.history| == |old(host.history)| + 1
            && (r == Retry <==> turn.interrupted)
            && (r == Failed <==> turn.fails && !turn.interrupted)
            && (r.AtEnd? || r.Got? ==> Served(host.world, f, offset, buffer, r))
  {
    ghost var before := host.world;
    var turn := host.Meanwhile();
    SameAsBefore(before, host.world, f, atOpen);
    if turn.interrupted {
      return Retry;
    }
    if turn.fails {
      return Failed;
    }
    var left := Remaining(host.world, f, offset);
    if left == [] {
      return AtEnd;
    }
    var count := if turn.short > 0 then Least(turn.short, Least(buffer, |left|)) else Least(buffer, |left|);
    ReadExtends(before, host.world, f, atOpen, acc, count);
    return Got(left[..count]);
  }

  /** Reading goes on after so many calls: no signal was seen before the last of them, which was
      interrupted or did not fail. */
  ghost predicate Going(before: Option<nat>, script: seq<Turn>, calls: nat, now: Option<nat>, left: seq<Turn>) {
    && left == Rest(script, calls) && now == SignalAfter(before, script, calls)
    && (before.Some? ==> calls == 0)
    && (calls > 0 ==> SignalAfter(before, script, calls - 1) == None)
    && (calls > 0 ==> TurnAt(script, calls - 1).interrupted || !TurnAt(script, calls - 1).fails)
  }

  /** A signal stops the hash before the next read, and an error ends it exactly when the last read
      failed. */
  ghost predicate StopsAsTold(before: Option<nat>, script: seq<Turn>, calls: nat, result: Stream) {
    && (calls > 0 ==> SignalAfter(before, script, calls - 1) == None)
    && (before.Some? ==> result.Cancelled? && result.signal == before.value)
    && (result.Cancelled? ==> SignalAfter(before, script, calls) == Some(result.signal))
    && (!result.Cancelled? ==> calls > 0)
    && (result.IoError? <==> calls > 0 && TurnAt(script, calls - 1).fails && !TurnAt(script, calls - 1).interrupted)
  }

  lemma StillGoing(before: Option<nat>, script: seq<Turn>)
    ensures Going(before, script, 0, before, script)
  {
  }

  /** What one read that no signal forestalled leads to. */
  ghost predicate Told(left: seq<Turn>, done: Option<Stream>, now: Option<nat>, later: seq<Turn>) {
    && later == LaterTurns(left) && now == LastSignal(None, NextTurn(left).events)
    && match done
       case None => NextTurn(left).interrupted || !NextTurn(left).fails
       case Some(r) => !r.Cancelled? && (r.IoError? <==> NextTurn(left).fails && !NextTurn(left).interrupted)
  }

  lemma OneMoreRead(before: Option<nat>, script: seq<Turn>, calls: nat, left: seq<Turn>, done: Option<Stream>, now: Option<nat>, later: seq<Turn>)
    requires Going(before, script, calls, None, left) && Told(left, done, now, later)
    ensures done == None ==> Going(before, script, calls + 1, now, later)
    ensures done.Some? ==> StopsAsTold(before, script, calls + 1, done.value)
  {
    RestNext(script, calls);
    SignalNext(before, script, calls);
    hide LastSignal;
  }

  lemma StopsOnSignal(before: Option<nat>, script: seq<Turn>, calls: nat, signal: nat, left: seq<Turn>, read: nat)
    requires Going(before, script, calls, Some(signal), left)
    ensures StopsAsTold(before, script, calls, Cancelled(signal, read))
  {
  }

  /** `hash_stream`: read to the end through a bounded buffer. The bytes hashed are read at many
      moments, but if the file still has its opening identity at the end they are the bytes
      that identity stands for, all of them: a file that changed in between could not have
      come back to that identity. */
  method HashStream(host: Host, f: FileObject, expected: nat, buffer: nat, sha: Hash, ghost atOpen: Identity)
    returns (result: Stream, ghost calls: nat)
    requires host.Valid() && f in host.world.files && buffer > 0
    requires atOpen in host.world.states && host.world.files[f] == atOpen
    modifies host
    ensures host.Valid() && Evolves(old(host.world), host.world) && old(host.history) <= host.history
    ensures old(host.signal).Some? ==> host.signal.Some?
    ensures result.Digest? ==> result.bytes <= expected
    ensures result.Digest? && host.world.files[f] == atOpen ==>
              result.bytes == atOpen.size && result.sha256 == sha(host.world.states[atOpen])
    ensures result.Cancelled? ==> host.signal == Some(result.signal)
    ensures Still(old(host.script)) ==> Still(host.script) && host.world == old(host.world) && host.signal == old(host.signal)
    ensures Still(old(host.script)) && old(host.signal) == None && atOpen.size <= expected ==> result.Digest? || result.IoError?
    ensures Smooth(old(host.script)) ==> Smooth(host.script) && !result.IoError?
    // A signal stops the hash before the next read, and only a failing read ends it with an error.
    ensures old(host.history) <= host.history
    ensures |host.history| == |old(host.history)| + calls && StopsAsTold(old(host.signal), old(host.script), calls, result)
    ensures result.LongerThanExpected? ==> result.read > expected
  {
    ghost var start, past, before, script := host.world, host.history, host.signal, host.script;
    StillGoing(before, script);
    assert Evolves(start, start);
    hide Host.Valid, WellFormed, Still, Smooth, Evolves, Going, StopsAsTold, Told;
    var acc: Bytes := [];
    calls := 0;
    while true
      invariant host.Valid() && Evolves(start, host.world) && past <= host.history && |host.history| == |past| + calls
      invariant |acc| <= expected && f in host.world.files && atOpen in host.world.states
      invariant host.world.files[f] == atOpen ==> acc <= host.world.states[atOpen]
      invariant before.Some? ==> host.signal.Some?
      invariant Still(script) ==> Still(host.script) && host.world == start && host.signal == before
      invariant Smooth(script) ==> Smooth(host.script)
      invariant Going(before, script, calls, host.signal, host.script)
      decreases expected - |acc|, |host.script|
    {
      ghost var left := host.script;
      if host.signal.Some? {
        StopsOnSignal(before, script, calls, host.signal.value, left, |acc|);
        return Cancelled(host.signal.value, |acc|), calls;
      }
      var done;
      done, acc := ReadOn(host, f, acc, expected, buffer, sha, atOpen, start, past);
      OneMoreRead(before, script, calls, left, done, host.signal, host.script);
      calls := calls + 1;
      if done.Some? {
        return done.value, calls;
      }
    }
  }

  /** One turn of that loop: the end of the reading, or more of the bytes. */
  method ReadOn(host: Host, f: FileObject, acc: Bytes, expected: nat, buffer: nat, sha: Hash, ghost atOpen: Identity,
                ghost start: World, ghost past: seq<World>)
    returns (done: Option<Stream>, more: Bytes)
    requires Evolves(start, host.world) && past <= host.history
    requires host.Valid() && f in host.world.files && buffer > 0 && atOpen in host.world.states
    requires host.world.files[f] == atOpen ==> acc <= host.world.states[atOpen]
    modifies host
    ensures host.Valid() && Evolves(start, host.world) && past <= host.history
    ensures |host.history| == |old(host.history)| + 1
    ensures f in host.world.files && atOpen in host.world.states && acc <= more
    ensures host.world.files[f] == atOpen ==> more <= host.world.states[atOpen]
    ensures old(host.signal).Some? ==> host.signal.Some?
    ensures done == None && |acc| <= expected ==> |more| <= expected
    ensures done == None ==> |acc| < |more| || |host.script| < |old(host.script)|
    ensures |host.script| <= |old(host.script)|
    ensures old(host.signal) == None ==> Told(old(host.script), done, host.signal, host.script)
    ensures done.Some? && done.value.LongerThanExpected? ==> done.value.read > expected
    ensures done.Some? && done.value.Digest? ==> more == acc && done.value.bytes == |acc|
    ensures done.Some? && done.value.Digest? && host.world.files[f] == atOpen ==>
              done.value.bytes == atOpen.size && done.value.sha256 == sha(host.world.states[atOpen])
    ensures Still(old(host.script)) ==> Still(host.script) && host.world == old(host.world) && host.signal == old(host.signal)
    ensures done.Some? && host.world.files[f] == atOpen && atOpen.size <= expected ==> !done.value.LongerThanExpected?
    ensures Smooth(old(host.script)) ==> Smooth(host.script) && (done.Some? ==> !done.value.IoError?)
  {
    hide Remaining, Names, Still, Smooth, Evolves, Served, NextTurn, LaterTurns, LastSignal;
    ghost var before := host.world;
    var r := ReadSome(host, f, acc, |acc|, buffer, atOpen);
    EvolvesThrough(start, before, host.world);
    match r {
      case Retry => return None, acc;
      case Failed => return Some(IoError(|acc|)), acc;
      case AtEnd => return Some(Digest(sha(acc), |acc|)), acc;
      case Got(bytes) =>
        more := acc + bytes;
        return if |more| > expected then Some(LongerThanExpected(|more|)) else None, more;
    }
  }

  /** What the outcome says of the file it names; it stays true however the host goes on. */
  ghost predicate Justified(w: World, file: ArtifactFile, o: Outcome, sha: Hash) {
    match o
    case VerifiedSha256(id, n) =>
      id in w.states && file.record.digest.Some? && Matches(w.states[id], file.record, sha) && n == file.record.size
    case SizeOnlyNoPublishedHash(id) =>
      id in w.states && file.record.digest.None? && Matches(w.states[id], file.record, sha)
    case SizeMismatch(n, id) => id in w.states && n == id.size != file.record.size
    case Sha256Mismatch(actual, id) =>
      id in w.states && id.size == file.record.size && actual == sha(w.states[id]) && file.record.digest.Some?
      && actual != file.record.digest.value
    case _ => true
  }

  lemma JustifiedForGood(w: World, v: World, file: ArtifactFile, o: Outcome, sha: Hash)
    requires Justified(w, file, o, sha) && Evolves(w, v)
    ensures Justified(v, file, o, sha)
  {
  }

  /** The verdict on the bytes of a file of the right size. */
  ghost function Compared(w: World, id: Identity, file: ArtifactFile, sha: Hash): (o: Outcome)
    requires id in w.states && file.record.digest.Some?
    ensures (o.VerifiedSha256? || o.Sha256Mismatch?) && o.identity == id
  {
    if sha(w.states[id]) == file.record.digest.value then VerifiedSha256(id, id.size) else Sha256Mismatch(sha(w.states[id]), id)
  }

  /** What a check of a host that leaves it alone comes to. */
  ghost function Judge(w: World, file: ArtifactFile, sha: Hash): Outcome
    requires WellFormed(w)
  {
    if file.destination !in w.paths then Missing
    else if !w.paths[file.destination].Regular? || file.destination in w.detours then UnsafePath
    else
      var id := w.files[w.paths[file.destination].file];
      if id.size != file.record.size then SizeMismatch(id.size, id)
      else if file.record.digest.None? then SizeOnlyNoPublishedHash(id)
      else Compared(w, id, file, sha)
  }

  /** The world the next call is answered from. */
  function At(w: World, script: seq<Turn>): World { ApplyAll(w, NextTurn(script).events) }

  datatype Examined = Settled(outcome: Outcome) | ToRead(identity: Identity)

  /** `verify_file_with`: lstat, open, fstat, read, fstat, lstat. A digest verdict is about one
      file state, whatever happened in between; a host that stays still gets the verdict its
      files deserve. */
  method VerifyFileWith(host: Host, file: ArtifactFile, buffer: nat, sha: Hash) returns (o: Outcome)
    requires host.Valid() && buffer > 0
    modifies host
    ensures host.Valid() && Evolves(old(host.world), host.world) && old(host.history) < host.history
    ensures old(host.signal).Some? ==> host.signal.Some?
    ensures Justified(host.world, file, o, sha)
    // A verdict on content also saw the path name that file at the end of the check.
    ensures o.VerifiedSha256? || o.Sha256Mismatch? ==> Names(host.world, file.destination, o.identity)
    ensures o == Missing ==> file.destination !in host.world.paths && host.history[|host.history| - 1] == host.world
    ensures o.NotChecked? ==> host.signal == Some(o.signal)
    // Interrupted and short reads change nothing; a failing call is the only other way to end.
    ensures Still(old(host.script)) && old(host.signal) == None ==>
              && host.world == old(host.world) && Still(host.script) && host.signal == None
              && (o == Judge(old(host.world), file, sha) || o.Unreadable?)
    ensures Smooth(old(host.script)) && old(host.signal) == None ==>
              Smooth(host.script) && o == Judge(old(host.world), file, sha)
  {
    hide Justified, Compared;
    var examined := Examine(host, file, sha);
    match examined {
      case Settled(outcome) => return outcome;
      case ToRead(before) =>
        ghost var now := host.world;
        o := OpenAndRead(host, file, before, buffer, sha);
        EvolvesThrough(old(host.world), now, host.world);
    }
  }

  /** What lstat finds. */
  datatype Found = Fails | Absent | NotRegular | AFile(identity: Identity)

  function Find(w: World, path: Path, fails: bool): Found
    requires WellFormed(w)
  {
    if fails then Fails
    else if path !in w.paths then Absent
    else if !w.paths[path].Regular? then NotRegular
    else AFile(w.files[w.paths[path].file])
  }

  /** `symlink_metadata` */
  method Lstat(host: Host, path: Path) returns (found: Found)
    requires host.Valid()
    modifies host
    ensures host.Valid() && Evolves(old(host.world), host.world) && old(host.history) < host.history
    ensures old(host.signal).Some? ==> host.signal.Some?
    ensures host.world == At(old(host.world), old(host.script)) && host.script == LaterTurns(old(host.script))
    ensures host.history == old(host.history) + [host.world]
    ensures found == Fails <==> NextTurn(old(host.script)).fails
    ensures found == Absent ==> path !in host.world.paths
    ensures found == NotRegular ==> path in host.world.paths && !host.world.paths[path].Regular?
    ensures found.AFile? ==> Names(host.world, path, found.identity) && found.identity in host.world.states
    ensures Still(old(host.script)) ==> Still(host.script) && host.world == old(host.world) && host.signal == old(host.signal)
    ensures Smooth(old(host.script)) ==> Smooth(host.script) && found != Fails
  {
    var turn := host.Meanwhile();
    found := Find(host.world, path, turn.fails);
  }

  /** The checks before the file is opened; on any host, by what there was at the lstat. */
  method Examine(host: Host, file: ArtifactFile, sha: Hash) returns (e: Examined)
    requires host.Valid()
    modifies host
    ensures host.Valid() && Evolves(old(host.world), host.world) && old(host.history) < host.history
    ensures old(host.signal).Some? ==> host.signal.Some?
    ensures e.Settled? ==> Justified(host.world, file, e.outcome, sha)
    ensures e.Settled? ==> !e.outcome.VerifiedSha256? && !e.outcome.Sha256Mismatch? && !e.outcome.NotChecked? && e.outcome != ChangedDuringRead
    ensures e == Settled(Missing) ==>
              file.destination !in host.world.paths && host.history[|host.history| - 1] == host.world
    ensures e.ToRead? ==> e.identity in host.world.states && e.identity.size == file.record.size && file.record.digest.Some?
    ensures Still(old(host.script)) ==> Still(host.script) && host.world == old(host.world) && host.signal == old(host.signal)
    ensures Still(old(host.script)) ==>
              match e
              case Settled(outcome) => outcome == Judge(old(host.world), file, sha) || outcome.Unreadable?
              case ToRead(id) => Names(host.world, file.destination, id) && file.destination !in host.world.detours
    ensures Smooth(old(host.script)) ==> Smooth(host.script) && (e.Settled? ==> !e.outcome.Unreadable?)
    ensures var seen := At(old(host.world), old(host.script));
            && (e == Settled(Unreadable("lstat")) <==> NextTurn(old(host.script)).fails)
            && (e == Settled(Missing) <==> !NextTurn(old(host.script)).fails && file.destination !in seen.paths)
            && (!NextTurn(old(host.script)).fails && file.destination in seen.paths && !seen.paths[file.destination].Regular? ==>
                  e == Settled(UnsafePath))
            && (e.ToRead? ==> Names(seen, file.destination, e.identity))
            && (e.Settled? && HasIdentity(e.outcome) ==> Names(seen, file.destination, e.outcome.identity))
  {
    hide Compared, Smooth, Still;
    var found := Lstat(host, file.destination);
    match found {
      case Fails => return Settled(Unreadable("lstat"));
      case Absent => return Settled(Missing);
      case NotRegular => return Settled(UnsafePath);
      case AFile(before) =>
        ghost var first := host.world;
        e := ExamineParent(host, file, before, sha);
        EvolvesThrough(old(host.world), first, host.world);
    }
  }

  /** The look at the parent directory, and what the record needs of a file's size. */
  method ExamineParent(host: Host, file: ArtifactFile, before: Identity, sha: Hash) returns (e: Examined)
    requires host.Valid() && before in host.world.states
    modifies host
    ensures host.Valid() && Evolves(old(host.world), host.world) && old(host.history) < host.history
    ensures old(host.signal).Some? ==> host.signal.Some?
    ensures e.Settled? ==> Justified(host.world, file, e.outcome, sha)
    ensures Still(old(host.script)) ==> Still(host.script) && host.world == old(host.world) && host.signal == old(host.signal)
    ensures Smooth(old(host.script)) ==> Smooth(host.script)
    ensures before in host.world.states
    ensures var fails, detoured := NextTurn(old(host.script)).fails, file.destination in host.world.detours;
            && (e == Settled(Unreadable("canonicalize-parent")) <==> fails)
            && (e == Settled(UnsafePath) <==> !fails && detoured)
            && (e == Settled(SizeMismatch(before.size, before)) <==> !fails && !detoured && before.size != file.record.size)
            && (e == Settled(SizeOnlyNoPublishedHash(before)) <==>
                  !fails && !detoured && before.size == file.record.size && file.record.digest == None)
            && (e == ToRead(before) <==> !fails && !detoured && before.size == file.record.size && file.record.digest.Some?)
  {
    var turn := host.Meanwhile();
    if turn.fails {
      return Settled(Unreadable("canonicalize-parent"));
    }
    if file.destination in host.world.detours {
      return Settled(UnsafePath);
    }
    if before.size != file.record.size {
      return Settled(SizeMismatch(before.size, before));
    }
    if file.record.digest == None {
      return Settled(SizeOnlyNoPublishedHash(before));
    }
    return ToRead(before);
  }

  /** Open without following a link, and see that the open file is the one lstat saw. */
  method OpenAndRead(host: Host, file: ArtifactFile, before: Identity, buffer: nat, sha: Hash) returns (o: Outcome)
    requires host.Valid() && buffer > 0
    requires before in host.world.states && before.size == file.record.size && file.record.digest.Some?
    modifies host
    ensures host.Valid() && Evolves(old(host.world), host.world) && old(host.history) <= host.history
    ensures old(host.signal).Some? ==> host.signal.Some?
    ensures Justified(host.world, file, o, sha) && o != Missing
    ensures o.VerifiedSha256? || o.Sha256Mismatch? ==> Names(host.world, file.destination, o.identity)
    ensures o.NotChecked? ==> host.signal == Some(o.signal)
    ensures Still(old(host.script)) && old(host.signal) == None && Names(old(host.world), file.destination, before) ==>
              && host.world == old(host.world) && Still(host.script) && host.signal == None
              && (o.Unreadable? || o == Compared(host.world, before, file, sha))
    ensures Smooth(old(host.script)) && old(host.signal) == None && Names(old(host.world), file.destination, before) ==>
              Smooth(host.script) && !o.Unreadable?
    // And on any host, by what there was at the open.
    ensures var seen, path := At(old(host.world), old(host.script)), file.destination;
            && (o == Unreadable("open") <==> NextTurn(old(host.script)).fails || path !in seen.paths)
            && (o == UnsafePath <==> !NextTurn(old(host.script)).fails && path in seen.paths && seen.paths[path].Symlink?)
  {
    hide Compared, ApplyAll, LastSignal, Matches;
    var path := file.destination;
    var turn := host.Meanwhile();
    if turn.fails || path !in host.world.paths {
      return Unreadable("open");
    }
    if host.world.paths[path].Symlink? {
      return UnsafePath;
    }
    var handle := host.world.paths[path].file;
    ghost var open := host.world;
    o := ReadIfSame(host, file, handle, before, buffer, sha);
    EvolvesThrough(old(host.world), open, host.world);
  }

  /** The fstat of the open file: only the file lstat saw is read. */
  method ReadIfSame(host: Host, file: ArtifactFile, handle: FileObject, before: Identity, buffer: nat, sha: Hash) returns (o: Outcome)
    requires host.Valid() && buffer > 0 && handle in host.world.files
    requires before in host.world.states && before.size == file.record.size && file.record.digest.Some?
    modifies host
    ensures host.Valid() && Evolves(old(host.world), host.world) && old(host.history) <= host.history
    ensures old(host.signal).Some? ==> host.signal.Some?
    ensures Justified(host.world, file, o, sha) && o != Missing && o != UnsafePath && o != Unreadable("open")
    ensures o.VerifiedSha256? || o.Sha256Mismatch? ==> Names(host.world, file.destination, o.identity)
    ensures o.NotChecked? ==> host.signal == Some(o.signal)
    ensures Still(old(host.script)) && old(host.signal) == None && Names(old(host.world), file.destination, before) &&
            old(host.world).files[handle] == before ==>
              && host.world == old(host.world) && Still(host.script) && host.signal == None
              && (o.Unreadable? || o == Compared(host.world, before, file, sha))
    ensures Smooth(old(host.script)) && old(host.signal) == None && Names(old(host.world), file.destination, before) &&
            old(host.world).files[handle] == before ==>
              Smooth(host.script) && !o.Unreadable?
    ensures NextTurn(old(host.script)).fails ==> o == Unreadable("fstat")
    ensures !NextTurn(old(host.script)).fails && Get(At(old(host.world), old(host.script)).files, handle) != Some(before) ==>
              o == ChangedDuringRead
  {
    hide Compared, ApplyAll, LastSignal, Names;
    var turn := host.Meanwhile();
    if turn.fails {
      return Unreadable("fstat");
    }
    var atOpen := host.world.files[handle];
    if atOpen != before {
      return ChangedDuringRead;
    }
    ghost var stat := host.world;
    o := ReadAndCompare(host, file, handle, atOpen, buffer, sha);
    EvolvesThrough(old(host.world), stat, host.world);
  }

  /** The second half: read through the handle, then look at handle and path again. */
  method ReadAndCompare(host: Host, file: ArtifactFile, handle: FileObject, atOpen: Identity, buffer: nat, sha: Hash)
    returns (o: Outcome)
    requires host.Valid() && buffer > 0 && handle in host.world.files && host.world.files[handle] == atOpen
    requires atOpen.size == file.record.size && file.record.digest.Some?
    modifies host
    ensures host.Valid() && Evolves(old(host.world), host.world) && old(host.history) <= host.history
    ensures Justified(host.world, file, o, sha) && o != Missing
    ensures o.VerifiedSha256? || o.Sha256Mismatch? ==> Names(host.world, file.destination, o.identity) && o.identity == atOpen
    ensures o.NotChecked? ==> host.signal == Some(o.signal)
    ensures old(host.signal).Some? ==> host.signal.Some?
    ensures o != UnsafePath && o != Unreadable("open")
    ensures old(host.signal).Some? ==> o == NotChecked(old(host.signal).value)
    ensures Still(old(host.script)) && old(host.signal) == None && Names(old(host.world), file.destination, atOpen) ==>
              && host.world == old(host.world) && Still(host.script) && host.signal == None
              && (o.Unreadable? || o == Compared(host.world, atOpen, file, sha))
    ensures Smooth(old(host.script)) && old(host.signal) == None && Names(old(host.world), file.destination, atOpen) ==>
              Smooth(host.script) && !o.Unreadable?
  {
    hide Names, ApplyAll, LastSignal, Compared, NextTurn, LaterTurns, At;
    var digest, _ := HashStream(host, handle, file.record.size, buffer, sha, atOpen);
    match digest {
      case IoError(_) => return Unreadable("read");
      case LongerThanExpected(_) => return ChangedDuringRead;
      case Cancelled(signal, _) => return NotChecked(signal);
      case Digest(sha256, bytes) =>
        ghost var read := host.world;
        o := LookAgain(host, file, handle, atOpen, sha256, bytes, sha);
        EvolvesThrough(old(host.world), read, host.world);
    }
  }

  /** After the last byte: the handle and then the path must still show the file that was opened. */
  method LookAgain(host: Host, file: ArtifactFile, handle: FileObject, atOpen: Identity, sha256: string, bytes: nat, ghost sha: Hash)
    returns (o: Outcome)
    requires host.Valid() && handle in host.world.files && atOpen in host.world.states
    requires atOpen.size == file.record.size && file.record.digest.Some?
    requires host.world.files[handle] == atOpen ==> bytes == atOpen.size && sha256 == sha(host.world.states[atOpen])
    modifies host
    ensures host.Valid() && Evolves(old(host.world), host.world) && old(host.history) <= host.history
    ensures old(host.signal).Some? ==> host.signal.Some?
    ensures atOpen in host.world.states
    ensures Justified(host.world, file, o, sha)
    ensures o == ChangedDuringRead || o == Unreadable("fstat") || o == Unreadable("lstat") ||
            (Names(host.world, file.destination, atOpen) && o == Compared(host.world, atOpen, file, sha))
    ensures var next := LaterTurns(old(host.script));
            var same := Get(At(old(host.world), old(host.script)).files, handle) == Some(atOpen) && bytes == atOpen.size;
            && (o == Unreadable("fstat") <==> NextTurn(old(host.script)).fails)
            && (!NextTurn(old(host.script)).fails && !same ==> o == ChangedDuringRead)
            && (o == Unreadable("lstat") <==> !NextTurn(old(host.script)).fails && same && NextTurn(next).fails)
            && (!NextTurn(old(host.script)).fails && same && !NextTurn(next).fails ==>
                  o == if Names(host.world, file.destination, atOpen) then Compared(host.world, atOpen, file, sha) else ChangedDuringRead)
    ensures Still(old(host.script)) ==> Still(host.script) && host.world == old(host.world) && host.signal == old(host.signal)
    ensures Smooth(old(host.script)) ==> Smooth(host.script) && !o.Unreadable?
    ensures Still(old(host.script)) && old(host.world).files[handle] == atOpen && Names(old(host.world), file.destination, atOpen) ==>
              o != ChangedDuringRead
  {
    hide ApplyAll, LastSignal, Names, Compared;
    ghost var read := host.world;
    var turn := host.Meanwhile();
    if turn.fails {
      return Unreadable("fstat");
    }
    var after := host.world.files[handle];
    if after != atOpen || bytes != file.record.size {
      return ChangedDuringRead;
    }
    SameAsBefore(read, host.world, handle, atOpen);
    ghost var again := host.world;
    o := Compare(host, file, atOpen, sha256, bytes, sha);
    EvolvesThrough(read, again, host.world);
  }

  /** The lstat at the end, and the verdict. */
  method Compare(host: Host, file: ArtifactFile, atOpen: Identity, sha256: string, bytes: nat, ghost sha: Hash) returns (o: Outcome)
    requires host.Valid() && atOpen in host.world.states
    requires atOpen.size == file.record.size == bytes && file.record.digest.Some? && sha256 == sha(host.world.states[atOpen])
    modifies host
    ensures host.Valid() && Evolves(old(host.world), host.world) && old(host.history) <= host.history
    ensures old(host.signal).Some? ==> host.signal.Some?
    ensures atOpen in host.world.states && Justified(host.world, file, o, sha)
    ensures o == Unreadable("lstat") <==> NextTurn(old(host.script)).fails
    ensures !NextTurn(old(host.script)).fails ==>
              o == if Names(host.world, file.destination, atOpen) then Compared(host.world, atOpen, file, sha) else ChangedDuringRead
    ensures Still(old(host.script)) ==> Still(host.script) && host.world == old(host.world) && host.signal == old(host.signal)
    ensures Smooth(old(host.script)) ==> Smooth(host.script) && !o.Unreadable?
  {
    var found := Lstat(host, file.destination);
    if found == Fails {
      return Unreadable("lstat");
    }
    if found != AFile(atOpen) {
      return ChangedDuringRead;
    }
    return if sha256 == file.record.digest.value then VerifiedSha256(atOpen, bytes) else Sha256Mismatch(sha256, atOpen);
  }

  /** `confirm_at_window_close`: exactly when the path still names that file an outcome with an
      identity is kept, and exactly when it is still absent a missing one; an outcome that says
      nothing about the path is kept without another look. */
  method ConfirmAtWindowClose(host: Host, file: ArtifactFile, outcome: Outcome, sha: Hash) returns (o: Outcome)
    requires host.Valid() && Justified(host.world, file, outcome, sha)
    modifies host
    ensures host.Valid() && Evolves(old(host.world), host.world) && old(host.history) <= host.history
    ensures Justified(host.world, file, o, sha)
    ensures o == outcome || o == ChangedDuringRead || o == Unreadable("lstat")
    ensures !HasIdentity(outcome) && outcome != Missing ==> o == outcome && unchanged(host)
    ensures HasIdentity(outcome) || outcome == Missing ==> (o == Unreadable("lstat") <==> NextTurn(old(host.script)).fails)
    ensures HasIdentity(outcome) && !NextTurn(old(host.script)).fails ==>
              o == if Names(host.world, file.destination, outcome.identity) then outcome else ChangedDuringRead
    ensures outcome == Missing && !NextTurn(old(host.script)).fails ==>
              o == if file.destination in host.world.paths then ChangedDuringRead else Missing
    // What is kept is true of the path at the moment the window closes on it.
    ensures o.VerifiedSha256? || o.SizeOnlyNoPublishedHash? ==>
              && Names(host.world, file.destination, o.identity)
              && Matches(host.world.states[o.identity], file.record, sha)
    ensures o.SizeMismatch? || o.Sha256Mismatch? ==>
              && Names(host.world, file.destination, o.identity)
              && !Matches(host.world.states[o.identity], file.record, sha)
    ensures o == Missing ==> file.destination !in host.world.paths
    ensures HasIdentity(outcome) || outcome == Missing ==> host.history == old(host.history) + [host.world]
    ensures old(host.signal).Some? ==> host.signal.Some?
    ensures Still(old(host.script)) ==> Still(host.script) && host.world == old(host.world) && host.signal == old(host.signal)
    ensures Smooth(old(host.script)) ==> Smooth(host.script)
  {
    if !HasIdentity(outcome) && outcome != Missing {
      return outcome;
    }
    var found := Lstat(host, file.destination);
    JustifiedForGood(old(host.world), host.world, file, outcome, sha);
    match found {
      case Fails => return Unreadable("lstat");
      case Absent => return if outcome == Missing then Missing else ChangedDuringRead;
      case NotRegular => return ChangedDuringRead;
      case AFile(now) => return if outcome != Missing && now == outcome.identity then outcome else ChangedDuringRead;
    }
  }

  /** What a check of a host that stays as it is comes to is still true of the path at the end. */
  lemma JudgedIsNamed(w: World, file: ArtifactFile, sha: Hash)
    requires WellFormed(w)
    ensures var o := Judge(w, file, sha);
            && (HasIdentity(o) ==> Names(w, file.destination, o.identity))
            && (o == Missing <==> file.destination !in w.paths)
            && !o.NotChecked? && !o.Unreadable? && Justified(w, file, o, sha)
  {
  }
}

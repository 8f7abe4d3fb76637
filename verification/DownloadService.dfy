/** The service that runs every maintained queue, one after another, through one downloader
    whose file names are module variables (`run_queue` and the loop of `run` in
    verification/local-coverage-foundation/download_service.py). The locks it takes first are
    part of `LockProtocol`. */
module DownloadService {
  import opened Common

  datatype Paths = Paths(queue: string, state: string, lock: string, stamp: string, log: string)

  /** One pass of the downloader: the files it worked on and the code it returned, or None when
      it raised. */
  datatype Pass = Pass(on: Paths, code: Option<int>)

  function ExitOf(code: Option<int>): int {
    if code.Some? then code.value else 1
  }

  class Service {
    var paths: Paths
    var passes: seq<Pass>

    constructor (paths: Paths)
      ensures this.paths == paths && passes == []
    {
      this.paths, passes := paths, [];
    }

    /** `dq.process_queue()`, which reads its file names from the module variables. */
    method ProcessQueue(code: Option<int>)
      modifies this`passes
      ensures passes == old(passes) + [Pass(paths, code)]
    {
      passes := passes + [Pass(paths, code)];
    }

    method RunQueue(row: Paths, code: Option<int>) returns (exit: int)
      modifies this
      ensures paths == old(paths) && passes == old(passes) + [Pass(row, code)]
      ensures exit == ExitOf(code)
    {
      var saved := paths;
      paths := row;
      ProcessQueue(code);
      paths := saved;
      exit := if code.Some? then code.value else 1;
    }

    /** Every queue of the plan runs once, in order, on its own files, whatever the queues before
        it did, even raise; the downloader's own file names come back; and the service exits 0
        exactly when every queue did. */
    method RunAll(plan: seq<Paths>, codes: seq<Option<int>>) returns (exit: int)
      requires |codes| == |plan|
      modifies this
      ensures paths == old(paths)
      ensures |passes| == |old(passes)| + |plan| && passes[..|old(passes)|] == old(passes)
      ensures forall k :: 0 <= k < |plan| ==> passes[|old(passes)| + k] == Pass(plan[k], codes[k])
      ensures exit == if forall k :: 0 <= k < |plan| ==> codes[k] == Some(0) then 0 else 1
    {
      var failed := 0;
      ghost var before := |passes|;
      for n := 0 to |plan|
        invariant paths == old(paths) && |passes| == before + n && passes[..before] == old(passes)
        invariant forall k :: 0 <= k < n ==> passes[before + k] == Pass(plan[k], codes[k])
        invariant failed == 0 <==> forall k :: 0 <= k < n ==> codes[k] == Some(0)
        invariant failed >= 0
      {
        var code := RunQueue(plan[n], codes[n]);
        if code != 0 { failed := failed + 1; }
      }
      exit := if failed > 0 then 1 else 0;
    }
  }
}

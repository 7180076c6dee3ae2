/**
  Handler registration and the distribution of workers over handlers that `Start`
  performs before it waits for them.
 */
module WorkerAllocation {

  /** A registered handler, named by the caller. */
  type Handler = nat

  class DataManager {
    var nThread: int
    var upload: seq<Handler>
    var download: seq<Handler>

    /** What the register methods maintain while `nThread` stays fixed. */
    predicate Bounded()
      reads this
    {
      1 <= nThread && |upload| <= nThread && |download| <= nThread
    }

    constructor (numCPU: int)
      requires numCPU >= 1
      ensures Bounded() && nThread == numCPU && upload == [] && download == []
    {
      nThread, upload, download := numCPU, [], [];
    }

    method RegisterUploadHandler(fn: Handler)
      modifies this`upload
      ensures upload == Register(old(upload), fn, nThread)
      ensures old(Bounded()) ==> Bounded()
    {
      if |upload| < nThread {
        upload := upload + [fn];
      }
    }

    method RegisterDownloadHandler(fn: Handler)
      modifies this`download
      ensures download == Register(old(download), fn, nThread)
      ensures old(Bounded()) ==> Bounded()
    {
      if |download| < nThread {
        download := download + [fn];
      }
    }

    method SetNThread(n: int, numCPU: int)
      requires numCPU >= 1
      modifies this`nThread
      ensures nThread == (if n < 1 then numCPU else n) && nThread >= 1
    {
      if n < 1 {
        nThread := numCPU;
      } else {
        nThread := n;
      }
    }

    method Reset()
      modifies this`upload, this`download
      ensures upload == [] && download == []
      ensures nThread >= 1 ==> Bounded()
    {
      download := [];
      upload := [];
    }

    /** Starting the upload direction with the handlers registered so far. */
    method StartUpload(mainRequestHandlerIndex: int) returns (o: Outcome)
      ensures o.EmptyTaskStack? <==> upload == []
      ensures Bounded() && upload != [] ==> |o.workers| == nThread
    {
      o := Start(|upload|, nThread, mainRequestHandlerIndex);
      if Bounded() && upload != [] {
        BoundedStartsExactly(|upload|, nThread);
      }
    }
  }

  /** Registration on values: a full direction ignores the handler. */
  function Register(fns: seq<Handler>, fn: Handler, nThread: int): seq<Handler>
  {
    if |fns| < nThread then fns + [fn] else fns
  }

  function RegisterAll(fns: seq<Handler>, more: seq<Handler>, nThread: int): seq<Handler>
    decreases |more|
  {
    if |more| == 0 then fns else RegisterAll(Register(fns, more[0], nThread), more[1..], nThread)
  }

  /** Over any run of registrations the direction holds the first `nThread` handlers. */
  lemma {:induction false} RegistersFirstNThread(fns: seq<Handler>, more: seq<Handler>, nThread: nat)
    requires |fns| <= nThread
    ensures var all := fns + more;
            RegisterAll(fns, more, nThread) == if |all| <= nThread then all else all[..nThread]
    decreases |more|
  {
    if |more| == 0 {
      assert fns + more == fns;
    } else {
      var next := Register(fns, more[0], nThread);
      RegistersFirstNThread(next, more[1..], nThread);
      if |fns| < nThread {
        assert next + more[1..] == fns + more;
      } else {
        assert (fns + more)[..nThread] == fns;
        assert (fns + more[1..])[..nThread] == fns;
        if |more| == 1 { assert fns + more[1..] == fns; }
      }
    }
  }

  // ---------------------------------------------------------------- Start

  /** Launching workers either panics or gives the handler index of each worker, in order. */
  datatype Outcome = EmptyTaskStack | Launched(workers: seq<int>)

  /** Workers reserved for the main handler: a tenth of the handlers, at least one. */
  function MainN(handlers: nat, nThread: int): int
    requires handlers >= 1
  {
    if handlers == 1 then nThread
    else if handlers / 10 == 0 then 1
    else handlers / 10
  }

  function MainIndex(handlers: nat, requested: int): int
    requires handlers >= 1
  {
    if requested > handlers - 1 then 0 else requested
  }

  function Count(workers: seq<int>, i: int): nat
  {
    if |workers| == 0 then 0
    else Count(workers[..|workers| - 1], i) + (if workers[|workers| - 1] == i then 1 else 0)
  }

  lemma CountAppend(workers: seq<int>, x: int, i: int)
    ensures Count(workers + [x], i) == Count(workers, i) + (if x == i then 1 else 0)
  {
    assert (workers + [x])[..|workers|] == workers;
  }

  function Max(a: int, b: int): int { if a < b then b else a }

  method Start(handlers: nat, nThread: int, requested: int) returns (o: Outcome)
    ensures o.EmptyTaskStack? <==> handlers == 0
    // as many workers as threads, unless the main share alone exceeds that
    ensures handlers >= 1 ==> |o.workers| == Max(0, Max(MainN(handlers, nThread), nThread))
    // every worker runs a registered handler or the requested main one
    ensures handlers >= 1 ==> forall k :: 0 <= k < |o.workers| ==>
      0 <= o.workers[k] < handlers || o.workers[k] == MainIndex(handlers, requested)
    // the main handler gets its share, and no more
    ensures handlers >= 1 ==>
      Count(o.workers, MainIndex(handlers, requested)) == Max(0, MainN(handlers, nThread))
    // an index that exists is used as requested, one that is too large stands for the first handler
    ensures 0 <= requested < handlers && nThread >= 1 ==>
      Count(o.workers, requested) == MainN(handlers, nThread) >= 1
    ensures requested >= handlers >= 1 && nThread >= 1 ==> Count(o.workers, 0) == MainN(handlers, nThread) >= 1
    // the others share the rest evenly, earlier handlers first
    ensures handlers >= 1 ==> forall i, j ::
      && 0 <= i < j < handlers
      && i != MainIndex(handlers, requested) && j != MainIndex(handlers, requested) ==>
      Count(o.workers, j) <= Count(o.workers, i) <= Count(o.workers, j) + 1
  {
    if handlers == 0 {
      return EmptyTaskStack;
    }
    var main := requested;
    if main > handlers - 1 {
      main := 0;
    }
    var mainN := handlers / 10;
    if mainN == 0 {
      mainN := 1;
    }
    if handlers == 1 {
      mainN := nThread;
    }
    var auxN := nThread - mainN;
    var workers := LaunchMain(handlers, main, mainN);
    workers := LaunchAux(workers, handlers, main, auxN);
    return Launched(workers);
  }

  /** The handlers below `upto` are one round ahead of the others. */
  ghost predicate Level(workers: seq<int>, handlers: nat, main: int, upto: nat, round: nat)
  {
    forall h :: 0 <= h < handlers && h != main ==> Count(workers, h) == if h < upto then round + 1 else round
  }

  /** Every worker runs a registered handler or the main one. */
  predicate Known(workers: seq<int>, handlers: nat, main: int)
  {
    forall k :: 0 <= k < |workers| ==> 0 <= workers[k] < handlers || workers[k] == main
  }

  /** The first loop: the workers of the main handler. */
  method LaunchMain(handlers: nat, main: int, mainN: int) returns (workers: seq<int>)
    ensures |workers| == Count(workers, main) == Max(0, mainN)
    ensures Known(workers, handlers, main) && Level(workers, handlers, main, 0, 0)
  {
    workers := [];
    var n := 0;
    while n < mainN
      invariant 0 <= n <= Max(0, mainN)
      invariant |workers| == n && Count(workers, main) == n
      invariant Known(workers, handlers, main) && Level(workers, handlers, main, 0, 0)
    {
      CountAppendAll(workers, main);
      workers := workers + [main];
      n := n + 1;
    }
  }

  /** One pass over the handlers: each but the main one gets a worker, until `left` are launched. */
  method LaunchRound(before: seq<int>, handlers: nat, main: int, left: int, ghost round: nat)
    returns (workers: seq<int>, launched: int, ghost upto: nat)
    requires handlers >= 2 && left > 0
    requires Known(before, handlers, main) && Level(before, handlers, main, 0, round)
    ensures 0 < launched <= left && |workers| == |before| + launched
    ensures Count(workers, main) == Count(before, main) && Known(workers, handlers, main)
    ensures Level(workers, handlers, main, upto, round) && (launched < left ==> upto == handlers)
  {
    workers, launched := before, 0;
    var i := 0;
    while i < handlers
      invariant 0 <= i <= handlers && 0 <= launched <= left
      invariant |workers| == |before| + launched && Count(workers, main) == Count(before, main)
      invariant Known(workers, handlers, main) && Level(workers, handlers, main, i, round)
      // a handler other than the main one has been launched by now
      invariant i >= 2 || (i == 1 && main != 0) ==> launched > 0
    {
      if launched == left {
        return workers, launched, i;
      }
      if i == main {
        i := i + 1;
        continue;
      }
      CountAppendAll(workers, i);
      workers := workers + [i];
      launched := launched + 1;
      i := i + 1;
    }
    upto := i;
  }

  /** The second loop: rounds over the other handlers; it ends because every round launches a worker. */
  method LaunchAux(before: seq<int>, handlers: nat, main: int, auxN: int) returns (workers: seq<int>)
    requires auxN > 0 ==> handlers >= 2
    requires Known(before, handlers, main) && Level(before, handlers, main, 0, 0)
    ensures |workers| == |before| + Max(0, auxN) && Count(workers, main) == Count(before, main)
    ensures Known(workers, handlers, main) && Spread(workers, handlers, main)
  {
    workers := before;
    var j := 0;
    ghost var round, upto := 0, 0;
    while j < auxN
      invariant 0 <= j <= Max(0, auxN)
      invariant |workers| == |before| + j && Count(workers, main) == Count(before, main)
      invariant Known(workers, handlers, main) && Level(workers, handlers, main, upto, round)
      invariant j < auxN ==> upto == 0
    {
      var launched;
      workers, launched, upto := LaunchRound(workers, handlers, main, auxN - j, round);
      j := j + launched;
      if j < auxN {
        round, upto := round + 1, 0;
      }
    }
  }

  /** Earlier handlers are ahead of later ones by at most one worker. */
  ghost predicate Spread(workers: seq<int>, handlers: nat, main: int)
  {
    forall i, j :: 0 <= i < j < handlers && i != main && j != main ==>
      Count(workers, j) <= Count(workers, i) <= Count(workers, j) + 1
  }

  lemma CountAppendAll(workers: seq<int>, x: int)
    ensures forall i :: Count(workers + [x], i) == Count(workers, i) + (if x == i then 1 else 0)
  {
    forall i ensures Count(workers + [x], i) == Count(workers, i) + (if x == i then 1 else 0) {
      CountAppend(workers, x, i);
    }
  }

  /** The bound kept by registration is what makes the worker count exact. */
  lemma BoundedStartsExactly(handlers: nat, nThread: int)
    requires 1 <= handlers <= nThread
    ensures 0 <= MainN(handlers, nThread) <= nThread
    ensures Max(0, Max(MainN(handlers, nThread), nThread)) == nThread
  {
  }

  /** With at least one thread the main handler gets at least one worker: a tenth of the handlers, rounded down. */
  lemma MainShare(handlers: nat, nThread: int)
    requires handlers >= 1 && nThread >= 1
    ensures MainN(handlers, nThread) >= 1
    ensures handlers == 1 ==> MainN(handlers, nThread) == nThread
    ensures 2 <= handlers < 20 ==> MainN(handlers, nThread) == 1
    ensures handlers >= 10 ==> 10 * MainN(handlers, nThread) <= handlers < 10 * MainN(handlers, nThread) + 10
  {
  }

  /** Exactly when the launched workers match the thread count, for every positive thread count. */
  lemma ExactIff(handlers: nat, nThread: int)
    requires handlers >= 1 && nThread >= 1
    ensures Max(0, Max(MainN(handlers, nThread), nThread)) == nThread <==>
        handlers < 10 * (nThread + 1) || handlers == 1
  {
  }

  /** Lowering the thread count after registering breaks it: 20 handlers, one thread, two workers. */
  lemma LoweredThreadCountOvershoots()
    ensures Max(0, Max(MainN(20, 1), 1)) == 2
  {
  }
}

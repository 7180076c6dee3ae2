/**
  The start/stop protocol of one speed test direction: the goroutine running `Start`,
  the capture goroutine, the context watcher, the capture timer, the workers, and every
  call of the close function. One step is one lock, channel, once or wait-group action.
 */
module StopProtocol {

  /** A call of the close function. All but the first wait inside the once. */
  datatype CloserPc =
    | CallOnce | Send | CloseCapture | CloseDone | Lock | Clear | Unlock | Cancel | Returned

  datatype Once = Fresh | Held(winner: nat) | Spent

  datatype CapturePc = Selecting | InCallback | Stopped

  datatype WorkerPc =
    | AtRLock | Reading | AtRUnlock(seen: bool) | Deciding(seen: bool) | InHandler | Exited

  /** `late` counts the handler calls this worker started after `running` was cleared. */
  datatype Worker = Worker(pc: WorkerPc, late: nat)

  datatype MainPc = Installing | StartingWatcher | ArmingTimer | Launching | Waiting | Done

  datatype Timer = Unarmed | Pending | Fired

  datatype Watcher = Unstarted | Watching | Finished

  datatype State = State(
    total: nat,              // workers that Start is going to launch
    main: MainPc,
    running: bool,
    writer: bool,            // the write side of runningRW is held
    once: Once,
    closers: seq<CloserPc>,
    capture: CapturePc,
    watcher: Watcher,
    timer: Timer,
    ctxDone: bool,
    workers: seq<Worker>,
    wg: int,
    sends: nat,              // values sent on stopCapture
    captureCloses: nat,      // calls of close(stopCapture)
    doneCloses: nat,         // calls of close(done)
    crashed: bool)           // a nil close function was called

  datatype Step =
    | InstallClose | StartWatcher | ArmTimer | LaunchWorker | AllLaunched | WaitReturns
    | CancelContext | WatcherCloses | WatcherQuits | TimerFires
    | Tick(converged: bool) | CallbackReturns
    | Closer(c: nat) | Work(w: nat)

  /** The state at which rateCapture has just returned to Start. */
  function Init(total: nat): State
  {
    State(total, Installing, true, false, Fresh, [], Selecting, Unstarted, Unarmed, false, [], 0, 0, 0, 0, false)
  }

  predicate ReadLocked(w: Worker)
  {
    w.pc.Reading? || w.pc.AtRUnlock?
  }

  predicate NoReader(ws: seq<Worker>)
  {
    forall i :: 0 <= i < |ws| ==> !ReadLocked(ws[i])
  }

  predicate CloserEnabled(s: State, c: nat)
    requires c < |s.closers|
  {
    match s.closers[c]
    case CallOnce => !s.once.Held?
    case Send => s.capture.Selecting?          // an unbuffered send needs its receiver
    case Lock => !s.writer && NoReader(s.workers)
    case Returned => false
    case _ => true
  }

  predicate Enabled(s: State, t: Step)
  {
    && !s.crashed
    && match t
       case InstallClose => s.main.Installing?
       case StartWatcher => s.main.StartingWatcher?
       case ArmTimer => s.main.ArmingTimer?
       case LaunchWorker => s.main.Launching? && |s.workers| < s.total
       case AllLaunched => s.main.Launching? && |s.workers| == s.total
       case WaitReturns => s.main.Waiting? && s.wg == 0
       case CancelContext => true
       case WatcherCloses => s.watcher.Watching? && s.ctxDone
       case WatcherQuits => s.watcher.Watching? && s.doneCloses > 0
       case TimerFires => s.timer.Pending?
       case Tick(_) => s.capture.Selecting?
       case CallbackReturns => s.capture.InCallback?
       case Closer(c) => c < |s.closers| && CloserEnabled(s, c)
       case Work(w) =>
         && w < |s.workers|
         && !s.workers[w].pc.Exited?
         && (s.workers[w].pc.AtRLock? ==> !s.writer)
  }

  function CloserStep(s: State, c: nat): State
    requires c < |s.closers| && CloserEnabled(s, c)
  {
    match s.closers[c]
    case CallOnce =>
      if s.once.Fresh? then s.(once := Held(c), closers := s.closers[c := Send])
      else s.(closers := s.closers[c := Returned])
    case Send =>
      s.(closers := s.closers[c := CloseCapture], capture := Stopped, sends := s.sends + 1)
    case CloseCapture =>
      s.(closers := s.closers[c := CloseDone], captureCloses := s.captureCloses + 1)
    case CloseDone =>
      s.(closers := s.closers[c := Lock], doneCloses := s.doneCloses + 1)
    case Lock => s.(closers := s.closers[c := Clear], writer := true)
    case Clear => s.(closers := s.closers[c := Unlock], running := false)
    case Unlock => s.(closers := s.closers[c := Cancel], writer := false)
    case Cancel => s.(closers := s.closers[c := Returned], once := Spent)
  }

  /** The next move of a worker that sees `running` if it looks now. */
  function Move(k: Worker, running: bool): Worker
    requires !k.pc.Exited?
  {
    match k.pc
    case AtRLock => k.(pc := Reading)
    case Reading => k.(pc := AtRUnlock(running))
    case AtRUnlock(seen) => k.(pc := Deciding(seen))
    case Deciding(seen) =>
      if !seen then k.(pc := Exited)
      else Worker(InHandler, if running then k.late else k.late + 1)
    case InHandler => k.(pc := AtRLock)
  }

  /** A worker that leaves its loop releases the wait group. */
  function WorkerStep(s: State, w: nat): State
    requires w < |s.workers| && !s.workers[w].pc.Exited?
  {
    var k := Move(s.workers[w], s.running);
    s.(workers := s.workers[w := k], wg := if k.pc.Exited? then s.wg - 1 else s.wg)
  }

  function Apply(s: State, t: Step): State
    requires Enabled(s, t)
  {
    match t
    case InstallClose => s.(main := StartingWatcher)
    case StartWatcher => s.(main := ArmingTimer, watcher := Watching)
    case ArmTimer => s.(main := Launching, timer := Pending)
    case LaunchWorker => s.(workers := s.workers + [Worker(AtRLock, 0)], wg := s.wg + 1)
    case AllLaunched => s.(main := Waiting)
    case WaitReturns => s.(main := Done)
    case CancelContext => s.(ctxDone := true)
    case WatcherCloses => s.(watcher := Finished, closers := s.closers + [CallOnce])
    case WatcherQuits => s.(watcher := Finished)
    case TimerFires => s.(timer := Fired, closers := s.closers + [CallOnce])
    case Tick(converged) =>
      if !converged then s.(capture := InCallback)
      else if s.main.Installing? then s.(crashed := true)
      else s.(capture := InCallback, closers := s.closers + [CallOnce])
    case CallbackReturns => s.(capture := Selecting)
    case Closer(c) => CloserStep(s, c)
    case Work(w) => WorkerStep(s, w)
  }

  predicate ValidRun(s: State, steps: seq<Step>)
    decreases |steps|
  {
    |steps| == 0 || (Enabled(s, steps[0]) && ValidRun(Apply(s, steps[0]), steps[1..]))
  }

  function Final(s: State, steps: seq<Step>): State
    requires ValidRun(s, steps)
    decreases |steps|
  {
    if |steps| == 0 then s else Final(Apply(s, steps[0]), steps[1..])
  }

  // ---------------------------------------------------------------- the promise

  /** What every reachable state satisfies. */
  ghost predicate Safe(s: State)
  {
    // stopCapture gets one value, then one close; done is closed after that, once
    && s.doneCloses <= s.captureCloses <= s.sends <= 1
    // the blocked sender has its receiver, and the channel is still open
    && (forall c :: 0 <= c < |s.closers| && s.closers[c].Send? ==>
          !s.capture.Stopped? && s.sends == 0 && s.captureCloses == 0)
    // a closer about to close either channel is the first to do so
    && (forall c :: 0 <= c < |s.closers| && s.closers[c].CloseCapture? ==> s.captureCloses == 0 && s.sends == 1)
    && (forall c :: 0 <= c < |s.closers| && s.closers[c].CloseDone? ==> s.doneCloses == 0)
    // one more handler call at most
    && (forall w :: 0 <= w < |s.workers| ==> s.workers[w].late <= 1)
    // readers and the writer exclude each other
    && (s.writer ==> NoReader(s.workers))
    // Start returns only when the test is over
    && (s.main.Done? ==>
          && !s.running
          && |s.workers| == s.total
          && (forall w :: 0 <= w < |s.workers| ==> s.workers[w].pc.Exited?)
          && s.sends == s.captureCloses == s.doneCloses == 1)
  }

  // ---------------------------------------------------------------- the invariant

  function Live(ws: seq<Worker>): nat
  {
    if |ws| == 0 then 0 else (if ws[0].pc.Exited? then 0 else 1) + Live(ws[1..])
  }

  ghost predicate Counters(s: State, sends: nat, captureCloses: nat, doneCloses: nat)
  {
    s.sends == sends && s.captureCloses == captureCloses && s.doneCloses == doneCloses
  }

  /** How far the winner of the once has come, seen from the shared state. */
  ghost predicate WinnerProgress(s: State, pc: CloserPc)
  {
    match pc
    case Send => Counters(s, 0, 0, 0) && s.running && !s.writer && !s.capture.Stopped?
    case CloseCapture => Counters(s, 1, 0, 0) && s.running && !s.writer && s.capture.Stopped?
    case CloseDone => Counters(s, 1, 1, 0) && s.running && !s.writer && s.capture.Stopped?
    case Lock => Counters(s, 1, 1, 1) && s.running && !s.writer && s.capture.Stopped?
    case Clear => Counters(s, 1, 1, 1) && s.running && s.writer && s.capture.Stopped?
    case Unlock => Counters(s, 1, 1, 1) && !s.running && s.writer && s.capture.Stopped?
    case Cancel => Counters(s, 1, 1, 1) && !s.running && !s.writer && s.capture.Stopped?
    case _ => false
  }

  ghost predicate CloserInv(s: State)
  {
    match s.once
    case Fresh =>
      && Counters(s, 0, 0, 0) && s.running && !s.writer && !s.capture.Stopped?
      && (forall c :: 0 <= c < |s.closers| ==> s.closers[c].CallOnce?)
    case Held(i) =>
      && i < |s.closers|
      && WinnerProgress(s, s.closers[i])
      && (forall c :: 0 <= c < |s.closers| && c != i ==> s.closers[c].CallOnce?)
    case Spent =>
      && |s.closers| > 0 && Counters(s, 1, 1, 1) && !s.running && !s.writer && s.capture.Stopped?
      && (forall c :: 0 <= c < |s.closers| ==> s.closers[c].CallOnce? || s.closers[c].Returned?)
  }

  ghost predicate WorkerOk(running: bool, writer: bool, k: Worker)
  {
    && k.late <= 1
    && (running ==> k.late == 0 && !k.pc.Exited? && k.pc != AtRUnlock(false) && k.pc != Deciding(false))
    && (!running && k.pc == Deciding(true) ==> k.late == 0)
    && (!running ==> k.pc != AtRUnlock(true))
    && (writer ==> !ReadLocked(k))
  }

  ghost predicate WorkersInv(running: bool, writer: bool, ws: seq<Worker>)
  {
    forall w :: 0 <= w < |ws| ==> WorkerOk(running, writer, ws[w])
  }

  ghost predicate MainInv(s: State)
  {
    && (s.main.Installing? || s.main.StartingWatcher? || s.main.ArmingTimer? ==> |s.workers| == 0)
    && (s.main.Waiting? || s.main.Done? ==> |s.workers| == s.total)
    && |s.workers| <= s.total
    && (s.main.Done? ==> s.wg == 0)
    && (s.main.Launching? || s.main.Waiting? || s.main.Done? ==> !s.timer.Unarmed?)
    && (s.timer.Fired? ==> |s.closers| > 0)
    && (s.watcher.Unstarted? <==> s.main.Installing? || s.main.StartingWatcher?)
    && (s.watcher.Finished? ==> |s.closers| > 0)
  }

  ghost predicate Inv(s: State)
  {
    && s.total >= 1
    && CloserInv(s)
    && MainInv(s)
    && s.wg == Live(s.workers)
    && WorkersInv(s.running, s.writer, s.workers)
  }

  lemma {:induction false} LiveUpdate(ws: seq<Worker>, w: nat, k: Worker)
    requires w < |ws|
    ensures Live(ws[w := k]) == Live(ws) - (if ws[w].pc.Exited? then 0 else 1) + (if k.pc.Exited? then 0 else 1)
  {
    if w == 0 {
      assert ws[w := k][1..] == ws[1..];
    } else {
      assert ws[w := k][1..] == ws[1..][w - 1 := k];
      LiveUpdate(ws[1..], w - 1, k);
    }
  }

  lemma {:induction false} LiveAppend(ws: seq<Worker>, k: Worker)
    ensures Live(ws + [k]) == Live(ws) + (if k.pc.Exited? then 0 else 1)
  {
    if |ws| == 0 {
      assert ws + [k] == [k];
    } else {
      assert (ws + [k])[1..] == ws[1..] + [k];
      LiveAppend(ws[1..], k);
    }
  }

  lemma {:induction false} NoneLive(ws: seq<Worker>)
    requires Live(ws) == 0
    ensures forall w :: 0 <= w < |ws| ==> ws[w].pc.Exited?
  {
    if |ws| > 0 {
      NoneLive(ws[1..]);
      forall w | 0 <= w < |ws| ensures ws[w].pc.Exited? {
        if w > 0 { assert ws[w] == ws[1..][w - 1]; }
      }
    }
  }

  lemma CloserStepKeepsCloserInv(s: State, c: nat)
    requires CloserInv(s) && c < |s.closers| && CloserEnabled(s, c)
    ensures CloserInv(CloserStep(s, c))
  {
    var n := CloserStep(s, c);
    assert forall d :: 0 <= d < |s.closers| && d != c ==> n.closers[d] == s.closers[d];
  }

  lemma CloserStepKeepsWorkers(s: State, c: nat)
    requires CloserInv(s) && WorkersInv(s.running, s.writer, s.workers)
    requires c < |s.closers| && CloserEnabled(s, c)
    ensures var n := CloserStep(s, c); WorkersInv(n.running, n.writer, s.workers)
  {
    var n := CloserStep(s, c);
    forall w | 0 <= w < |s.workers| ensures WorkerOk(n.running, n.writer, s.workers[w]) {
      assert WorkerOk(s.running, s.writer, s.workers[w]);
      if s.closers[c].Lock? { assert !ReadLocked(s.workers[w]); }
    }
  }

  lemma CloserStepKeepsInv(s: State, c: nat)
    requires Inv(s) && c < |s.closers| && CloserEnabled(s, c)
    ensures Inv(CloserStep(s, c))
  {
    CloserStepKeepsCloserInv(s, c);
    CloserStepKeepsWorkers(s, c);
    CloserStepFrame(s, c);
    SameMain(s, CloserStep(s, c));
  }

  /** Closers leave Start, its workers and the timer alone. */
  lemma CloserStepFrame(s: State, c: nat)
    requires c < |s.closers| && CloserEnabled(s, c)
    ensures var n := CloserStep(s, c);
            && n.workers == s.workers && n.wg == s.wg && n.main == s.main
            && n.timer == s.timer && n.watcher == s.watcher
            && |n.closers| == |s.closers| && n.total == s.total && n.ctxDone == s.ctxDone && n.crashed == s.crashed
  {
  }

  /** MainInv depends on these fields only. */
  lemma SameMain(s: State, n: State)
    requires MainInv(s) && s.total == n.total && s.main == n.main && s.timer == n.timer && s.watcher == n.watcher
    requires s.workers == n.workers && s.wg == n.wg && |s.closers| == |n.closers|
    ensures MainInv(n)
  {
  }

  lemma MoveKeepsOk(running: bool, writer: bool, k: Worker)
    requires !k.pc.Exited? && WorkerOk(running, writer, k)
    requires k.pc.AtRLock? ==> !writer
    ensures WorkerOk(running, writer, Move(k, running))
  {
  }

  lemma WorkerStepKeepsWorkers(s: State, w: nat)
    requires w < |s.workers| && !s.workers[w].pc.Exited?
    requires s.workers[w].pc.AtRLock? ==> !s.writer
    requires WorkersInv(s.running, s.writer, s.workers)
    ensures WorkersInv(s.running, s.writer, WorkerStep(s, w).workers)
  {
    MoveKeepsOk(s.running, s.writer, s.workers[w]);
  }

  lemma WorkerStepKeepsCount(s: State, w: nat)
    requires w < |s.workers| && !s.workers[w].pc.Exited? && s.wg == Live(s.workers)
    requires s.main.Done? ==> s.wg == 0
    ensures WorkerStep(s, w).wg == Live(WorkerStep(s, w).workers)
    ensures !s.main.Done?
  {
    LiveUpdate(s.workers, w, WorkerStep(s, w).workers[w]);
    if s.wg == 0 { NoneLive(s.workers); }
  }

  /** The rest of the invariant reads nothing that a worker step changes. */
  lemma WorkerStepKeepsInv(s: State, w: nat)
    requires Inv(s) && w < |s.workers| && !s.workers[w].pc.Exited?
    requires s.workers[w].pc.AtRLock? ==> !s.writer
    ensures Inv(WorkerStep(s, w))
  {
    WorkerStepKeepsWorkers(s, w);
    WorkerStepKeepsCount(s, w);
    SameClosers(s, WorkerStep(s, w));
  }

  /** CloserInv depends on these fields only. */
  lemma SameClosers(s: State, n: State)
    requires CloserInv(s)
    requires s.once == n.once && s.closers == n.closers && s.capture == n.capture
    requires s.running == n.running && s.writer == n.writer
    requires s.sends == n.sends && s.captureCloses == n.captureCloses && s.doneCloses == n.doneCloses
    ensures CloserInv(n)
  {
  }

  lemma LaunchKeepsInv(s: State)
    requires Inv(s) && Enabled(s, LaunchWorker)
    ensures Inv(Apply(s, LaunchWorker))
  {
    var n := Apply(s, LaunchWorker);
    LiveAppend(s.workers, Worker(AtRLock, 0));
    SameClosers(s, n);
  }

  /** A new call waits in front of the once, wherever the others are. */
  lemma MoreClosers(s: State, n: State)
    requires CloserInv(s) && s.closers <= n.closers
    requires forall c :: |s.closers| <= c < |n.closers| ==> n.closers[c] == CallOnce
    requires s.once == n.once && (s.capture.Stopped? <==> n.capture.Stopped?)
    requires s.running == n.running && s.writer == n.writer
    requires s.sends == n.sends && s.captureCloses == n.captureCloses && s.doneCloses == n.doneCloses
    ensures CloserInv(n)
  {
    assert forall c :: 0 <= c < |s.closers| ==> n.closers[c] == s.closers[c];
  }

  /** One more call of the close function, or a tick of the capture goroutine. */
  lemma NewCloserKeepsInv(s: State, t: Step)
    requires Inv(s) && Enabled(s, t) && (t.WatcherCloses? || t.TimerFires? || t.Tick? || t.CallbackReturns?)
    ensures Inv(Apply(s, t))
  {
    var n := Apply(s, t);
    assert s.closers <= n.closers;
    MoreClosers(s, n);
  }

  /** The remaining steps leave closers, workers, `running` and the lock alone. */
  lemma OtherStepKeepsInv(s: State, t: Step)
    requires Inv(s) && Enabled(s, t)
    requires t.InstallClose? || t.StartWatcher? || t.ArmTimer? || t.AllLaunched? || t.WaitReturns? ||
        t.CancelContext? || t.WatcherQuits?
    ensures Inv(Apply(s, t))
  {
    SameClosers(s, Apply(s, t));
  }

  lemma StepKeepsInv(s: State, t: Step)
    requires Inv(s) && Enabled(s, t)
    ensures Inv(Apply(s, t))
  {
    match t
    case Closer(c) => CloserStepKeepsInv(s, c);
    case Work(w) => WorkerStepKeepsInv(s, w);
    case LaunchWorker => LaunchKeepsInv(s);
    case WatcherCloses => NewCloserKeepsInv(s, t);
    case TimerFires => NewCloserKeepsInv(s, t);
    case Tick(_) => NewCloserKeepsInv(s, t);
    case CallbackReturns => NewCloserKeepsInv(s, t);
    case _ => OtherStepKeepsInv(s, t);
  }

  lemma InvIsSafe(s: State)
    requires Inv(s)
    ensures Safe(s)
  {
    assert forall w :: 0 <= w < |s.workers| ==> WorkerOk(s.running, s.writer, s.workers[w]);
    if s.main.Done? {
      NoneLive(s.workers);
      assert WorkerOk(s.running, s.writer, s.workers[0]);
    }
  }

  lemma {:induction false} RunKeepsInv(s: State, steps: seq<Step>)
    requires Inv(s) && ValidRun(s, steps)
    ensures Inv(Final(s, steps))
    decreases |steps|
  {
    if |steps| > 0 {
      StepKeepsInv(s, steps[0]);
      RunKeepsInv(Apply(s, steps[0]), steps[1..]);
    }
  }

  /** Safety of every interleaving, for any number of workers and close calls. */
  lemma EveryRunIsSafe(total: nat, steps: seq<Step>)
    requires total >= 1
    requires ValidRun(Init(total), steps)
    ensures Safe(Final(Init(total), steps))
  {
    RunKeepsInv(Init(total), steps);
    InvIsSafe(Final(Init(total), steps));
  }

  // ---------------------------------------------------------------- the start-up race

  /** Some tick reports convergence while the close function is not installed yet. */
  predicate TickBeatsInstall(steps: seq<Step>)
  {
    |steps| > 0 && steps[0] != InstallClose && (steps[0] == Tick(true) || TickBeatsInstall(steps[1..]))
  }

  lemma {:induction false} CrashExactly(s: State, steps: seq<Step>)
    requires ValidRun(s, steps) && !s.crashed && s.main.Installing?
    ensures Final(s, steps).crashed <==> TickBeatsInstall(steps)
    decreases |steps|
  {
    if |steps| > 0 {
      var t, n := steps[0], Apply(s, steps[0]);
      if t == InstallClose {
        InstalledNeverCrashes(n, steps[1..]);
      } else if t == Tick(true) {
        assert |steps[1..]| == 0;
      } else {
        CrashExactly(n, steps[1..]);
      }
    }
  }

  lemma {:induction false} TickBeatsInstallIff(steps: seq<Step>)
    ensures TickBeatsInstall(steps) <==>
        exists k :: 0 <= k < |steps| && steps[k] == Tick(true) && InstallClose !in steps[..k]
  {
    if |steps| > 0 {
      TickBeatsInstallIff(steps[1..]);
      if k :| 0 <= k < |steps| && steps[k] == Tick(true) && InstallClose !in steps[..k] {
        if k > 0 {
          assert steps[..k][0] == steps[0];
          assert steps[1..][k - 1] == Tick(true) && steps[..k] == [steps[0]] + steps[1..][..k - 1];
        }
      }
      if TickBeatsInstall(steps) {
        if steps[0] == Tick(true) {
          assert InstallClose !in steps[..0];
        } else {
          var k :| 0 <= k < |steps[1..]| && steps[1..][k] == Tick(true) && InstallClose !in steps[1..][..k];
          assert steps[k + 1] == Tick(true) && steps[..k + 1] == [steps[0]] + steps[1..][..k];
        }
      }
    }
  }

  lemma {:induction false} InstalledNeverCrashes(s: State, steps: seq<Step>)
    requires ValidRun(s, steps) && !s.crashed && !s.main.Installing?
    ensures !Final(s, steps).crashed
    decreases |steps|
  {
    if |steps| > 0 { InstalledNeverCrashes(Apply(s, steps[0]), steps[1..]); }
  }

  /** The nil close function is called exactly on the runs that report convergence too early. */
  lemma CrashIffTickBeatsInstall(total: nat, steps: seq<Step>)
    requires ValidRun(Init(total), steps)
    ensures Final(Init(total), steps).crashed <==>
            exists k :: 0 <= k < |steps| && steps[k] == Tick(true) && InstallClose !in steps[..k]
  {
    CrashExactly(Init(total), steps);
    TickBeatsInstallIff(steps);
  }

  /** The shortest such run: the first tick already converges. */
  lemma EarlyTickCrashes(total: nat)
    ensures ValidRun(Init(total), [Tick(true)])
    ensures Final(Init(total), [Tick(true)]).crashed
  {
    assert ValidRun(Apply(Init(total), Tick(true)), [Tick(true)][1..]);
  }

  // ---------------------------------------------------------------- who calls the close function

  /** A step that calls the close function: the watcher on a cancelled context, the timer, a converged tick. */
  predicate IsCall(t: Step)
  {
    t.WatcherCloses? || t.TimerFires? || t == Tick(true)
  }

  function Calls(steps: seq<Step>): nat
  {
    if |steps| == 0 then 0 else (if IsCall(steps[0]) then 1 else 0) + Calls(steps[1..])
  }

  lemma CallStep(s: State, t: Step)
    requires Enabled(s, t) && !Apply(s, t).crashed
    ensures |Apply(s, t).closers| == |s.closers| + (if IsCall(t) then 1 else 0)
  {
    match t
    case Closer(c) => CloserStepFrame(s, c);
    case Work(w) =>
    case _ =>
  }

  /** A crash is final. */
  lemma CrashEnds(s: State, steps: seq<Step>)
    requires ValidRun(s, steps) && s.crashed
    ensures Final(s, steps) == s
  {
  }

  lemma {:induction false} CallsAdded(s: State, steps: seq<Step>)
    requires ValidRun(s, steps) && !Final(s, steps).crashed
    ensures |Final(s, steps).closers| == |s.closers| + Calls(steps)
    decreases |steps|
  {
    if |steps| > 0 {
      if Apply(s, steps[0]).crashed { CrashEnds(Apply(s, steps[0]), steps[1..]); }
      CallStep(s, steps[0]);
      CallsAdded(Apply(s, steps[0]), steps[1..]);
    }
  }

  /** In every run that does not crash each such step, and nothing else, makes one call. */
  lemma EveryCallIsMade(total: nat, steps: seq<Step>)
    requires ValidRun(Init(total), steps) && !Final(Init(total), steps).crashed
    ensures |Final(Init(total), steps).closers| == Calls(steps)
  {
    CallsAdded(Init(total), steps);
  }

  // ---------------------------------------------------------------- no deadlock

  function MainRank(m: MainPc): nat
  {
    match m
    case Installing => 5 case StartingWatcher => 4 case ArmingTimer => 3
    case Launching => 2 case Waiting => 1 case Done => 0
  }

  function CloserRank(pc: CloserPc): nat
  {
    match pc
    case CallOnce => 9 case Send => 8 case CloseCapture => 7 case CloseDone => 6
    case Lock => 5 case Clear => 4 case Unlock => 3 case Cancel => 2 case Returned => 1
  }

  function OnceRank(s: State): nat
  {
    match s.once
    case Fresh => if |s.closers| == 0 then 11 else 10
    case Held(i) => if i < |s.closers| then CloserRank(s.closers[i]) else 0
    case Spent => 0
  }

  function CaptureRank(c: CapturePc): nat
  {
    match c case Stopped => 0 case Selecting => 1 case InCallback => 2
  }

  function ReaderRank(k: Worker): nat
  {
    match k.pc case Reading => 2 case AtRUnlock(_) => 1 case _ => 0
  }

  /** Steps a worker still takes once it can only see `running` false. */
  function ExitRank(k: Worker): nat
  {
    match k.pc
    case AtRUnlock(seen) => if seen then 7 else 2
    case Deciding(seen) => if seen then 6 else 1
    case InHandler => 5
    case AtRLock => 4
    case Reading => 3
    case Exited => 0
  }

  function Total(rank: Worker -> nat, ws: seq<Worker>): nat
  {
    if |ws| == 0 then 0 else rank(ws[0]) + Total(rank, ws[1..])
  }

  lemma {:induction false} TotalUpdate(rank: Worker -> nat, ws: seq<Worker>, w: nat, k: Worker)
    requires w < |ws|
    ensures Total(rank, ws[w := k]) == Total(rank, ws) - rank(ws[w]) + rank(k)
  {
    if w == 0 {
      assert ws[w := k][1..] == ws[1..];
    } else {
      assert ws[w := k][1..] == ws[1..][w - 1 := k];
      TotalUpdate(rank, ws[1..], w - 1, k);
    }
  }

  function ReadersLeft(s: State): nat
  {
    if s.once.Spent? then 0 else Total(ReaderRank, s.workers)
  }

  function ExitsLeft(s: State): nat
  {
    if s.once.Spent? then Total(ExitRank, s.workers) else 0
  }

  function LaunchesLeft(s: State): nat
  {
    if |s.workers| <= s.total then s.total - |s.workers| else 0
  }

  /** `n` is closer to Start returning than `s`, lexicographically. */
  predicate Nearer(n: State, s: State)
  {
    || MainRank(n.main) < MainRank(s.main)
    || (MainRank(n.main) == MainRank(s.main) &&
        (|| LaunchesLeft(n) < LaunchesLeft(s)
         || (LaunchesLeft(n) == LaunchesLeft(s) &&
             (|| OnceRank(n) < OnceRank(s)
              || (OnceRank(n) == OnceRank(s) &&
                  (|| CaptureRank(n.capture) < CaptureRank(s.capture)
                   || (CaptureRank(n.capture) == CaptureRank(s.capture) &&
                       (|| ReadersLeft(n) < ReadersLeft(s)
                        || (ReadersLeft(n) == ReadersLeft(s) && ExitsLeft(n) < ExitsLeft(s))))))))))
  }

  /**
    A step that brings Start closer to returning, whatever state the run is in. It calls the
    close function only if nobody has, and waits for the timer only if the context is live.
   */
  lemma HelpfulStep(s: State) returns (t: Step)
    requires Inv(s) && !s.crashed && !s.main.Done?
    ensures Enabled(s, t) && !Apply(s, t).crashed && Nearer(Apply(s, t), s)
    ensures !t.Tick? && !t.CancelContext? && (|s.closers| > 0 ==> !IsCall(t)) && (s.ctxDone ==> !t.TimerFires?)
  {
    match s.main
    case Installing => return InstallClose;
    case StartingWatcher => return StartWatcher;
    case ArmingTimer => return ArmTimer;
    case Launching => return if |s.workers| < s.total then LaunchWorker else AllLaunched;
    case Waiting =>
      match s.once {
        case Fresh =>
          return if |s.closers| > 0 then Closer(0) else if s.ctxDone then WatcherCloses else TimerFires;
        case Held(i) => t := HelpTheWinner(s, i);
        case Spent => t := HelpAWorkerOut(s);
      }
  }

  lemma HelpTheWinner(s: State, i: nat) returns (t: Step)
    requires CloserInv(s) && !s.crashed && s.once == Held(i) && s.main.Waiting?
    ensures Enabled(s, t) && !Apply(s, t).crashed && Nearer(Apply(s, t), s)
    ensures t.CallbackReturns? || t.Work? || t.Closer?
  {
    if s.closers[i].Send? && s.capture.InCallback? {
      return CallbackReturns;
    }
    if s.closers[i].Lock? && !NoReader(s.workers) {
      var w :| 0 <= w < |s.workers| && ReadLocked(s.workers[w]);
      ReaderMoves(s, w);
      return Work(w);
    }
    WinnerMoves(s, i);
    return Closer(i);
  }

  lemma WinnerMoves(s: State, i: nat)
    requires CloserInv(s) && s.once == Held(i) && CloserEnabled(s, i)
    ensures OnceRank(CloserStep(s, i)) < OnceRank(s)
    ensures var n := CloserStep(s, i);
            n.main == s.main && n.workers == s.workers && n.total == s.total && n.crashed == s.crashed
  {
  }

  lemma ReaderMoves(s: State, w: nat)
    requires w < |s.workers| && ReadLocked(s.workers[w]) && s.once.Held?
    ensures Nearer(WorkerStep(s, w), s)
  {
    TotalUpdate(ReaderRank, s.workers, w, Move(s.workers[w], s.running));
  }

  lemma HelpAWorkerOut(s: State) returns (t: Step)
    requires Inv(s) && !s.crashed && s.once.Spent? && s.main.Waiting?
    ensures Enabled(s, t) && !Apply(s, t).crashed && Nearer(Apply(s, t), s)
    ensures t.WaitReturns? || t.Work?
  {
    if s.wg == 0 { return WaitReturns; }
    var w := SomeoneLive(s.workers);
    assert WorkerOk(s.running, s.writer, s.workers[w]);
    LeaverMoves(s, w);
    return Work(w);
  }

  lemma LeaverMoves(s: State, w: nat)
    requires w < |s.workers| && !s.workers[w].pc.Exited? && s.once.Spent? && !s.running
    ensures Nearer(WorkerStep(s, w), s)
  {
    TotalUpdate(ExitRank, s.workers, w, Move(s.workers[w], s.running));
  }

  lemma {:induction false} SomeoneLive(ws: seq<Worker>) returns (w: nat)
    requires Live(ws) > 0
    ensures w < |ws| && !ws[w].pc.Exited?
  {
    if !ws[0].pc.Exited? {
      w := 0;
    } else {
      w := SomeoneLive(ws[1..]);
      w := w + 1;
    }
  }

  /** A continuation without ticks, without the timer if `noTimer`, and without any call if `noCall`. */
  predicate Restrained(steps: seq<Step>, noCall: bool, noTimer: bool)
  {
    forall i :: 0 <= i < |steps| ==>
      && !steps[i].Tick? && !steps[i].CancelContext?
      && (noCall ==> !IsCall(steps[i])) && (noTimer ==> !steps[i].TimerFires?)
  }

  /**
    From every reachable state that has not crashed, some continuation lets Start return. Any
    earlier call of the close function is enough for that, and so is a cancelled context.
   */
  lemma {:induction false} StartCanReturn(s: State) returns (steps: seq<Step>)
    requires Inv(s) && !s.crashed
    ensures ValidRun(s, steps) && Final(s, steps).main.Done?
    ensures Restrained(steps, |s.closers| > 0, s.ctxDone)
    decreases
      MainRank(s.main), LaunchesLeft(s), OnceRank(s), CaptureRank(s.capture), ReadersLeft(s), ExitsLeft(s)
  {
    if s.main.Done? {
      steps := [];
    } else {
      var t := HelpfulStep(s);
      StepKeepsInv(s, t);
      StepKeepsCause(s, t);
      var n := Apply(s, t);
      var rest := StartCanReturn(n);
      steps := [t] + rest;
      RunCons(s, t, rest);
      RestrainedCons(t, rest, |s.closers| > 0, s.ctxDone, |n.closers| > 0, n.ctxDone);
    }
  }

  lemma RunCons(s: State, t: Step, rest: seq<Step>)
    requires Enabled(s, t) && ValidRun(Apply(s, t), rest)
    ensures ValidRun(s, [t] + rest) && Final(s, [t] + rest) == Final(Apply(s, t), rest)
  {
    assert ([t] + rest)[1..] == rest;
  }

  lemma RestrainedCons(t: Step, rest: seq<Step>, noCall: bool, noTimer: bool, noCall': bool, noTimer': bool)
    requires Restrained([t], noCall, noTimer) && Restrained(rest, noCall', noTimer')
    requires (noCall ==> noCall') && (noTimer ==> noTimer')
    ensures Restrained([t] + rest, noCall, noTimer)
  {
    assert [t][0] == t;
  }

  /** Calls are not taken back, and neither is a cancellation. */
  lemma StepKeepsCause(s: State, t: Step)
    requires Enabled(s, t)
    ensures |s.closers| <= |Apply(s, t).closers| && (s.ctxDone ==> Apply(s, t).ctxDone)
  {
    match t
    case Closer(c) => CloserStepFrame(s, c);
    case Work(w) =>
    case _ =>
  }

  /** No interleaving leads into a deadlock. */
  lemma NoDeadlock(total: nat, steps: seq<Step>)
    requires total >= 1
    requires ValidRun(Init(total), steps) && !Final(Init(total), steps).crashed
    ensures exists more :: ValidRun(Final(Init(total), steps), more) &&
                           Final(Final(Init(total), steps), more).main.Done?
  {
    RunKeepsInv(Init(total), steps);
    var more := StartCanReturn(Final(Init(total), steps));
  }

  /** Once a run has called the close function, whoever did, Start can return without a further call. */
  lemma OneCallSuffices(total: nat, steps: seq<Step>)
    requires total >= 1
    requires ValidRun(Init(total), steps) && !Final(Init(total), steps).crashed && Calls(steps) > 0
    ensures exists more :: ValidRun(Final(Init(total), steps), more) && Calls(more) == 0 &&
                           Final(Final(Init(total), steps), more).main.Done?
  {
    RunKeepsInv(Init(total), steps);
    EveryCallIsMade(total, steps);
    var more := StartCanReturn(Final(Init(total), steps));
    NoCalls(more);
  }

  lemma {:induction false} NoCalls(steps: seq<Step>)
    requires forall i :: 0 <= i < |steps| ==> !IsCall(steps[i])
    ensures Calls(steps) == 0
  {
    if |steps| > 0 { NoCalls(steps[1..]); }
  }

  /** Once the context is cancelled Start can return before the timer fires. */
  lemma CancellationStops(total: nat, steps: seq<Step>)
    requires total >= 1
    requires ValidRun(Init(total), steps) && !Final(Init(total), steps).crashed && CancelContext in steps
    ensures exists more :: ValidRun(Final(Init(total), steps), more) && TimerFires !in more &&
                           Final(Final(Init(total), steps), more).main.Done?
  {
    RunKeepsInv(Init(total), steps);
    CancellationStays(Init(total), steps);
    var more := StartCanReturn(Final(Init(total), steps));
  }

  lemma {:induction false} CancellationStays(s: State, steps: seq<Step>)
    requires ValidRun(s, steps) && (s.ctxDone || CancelContext in steps)
    ensures Final(s, steps).ctxDone
    decreases |steps|
  {
    if |steps| > 0 {
      StepKeepsCause(s, steps[0]);
      CancellationStays(Apply(s, steps[0]), steps[1..]);
    }
  }

  // ---------------------------------------------------------------- every fair run ends

  /** A step of the caller that gets into the once: the first one to reach it, then the one inside. */
  predicate Effective(s: State, t: Step)
  {
    t.Closer? && (s.once.Fresh? || s.once == Held(t.c))
  }

  function Effects(s: State, steps: seq<Step>): nat
    requires ValidRun(s, steps)
    decreases |steps|
  {
    if |steps| == 0 then 0 else (if Effective(s, steps[0]) then 1 else 0) + Effects(Apply(s, steps[0]), steps[1..])
  }

  lemma EffectStep(s: State, t: Step)
    requires Inv(s) && Enabled(s, t) && |s.closers| > 0
    ensures OnceRank(Apply(s, t)) + (if Effective(s, t) then 1 else 0) <= OnceRank(s)
  {
    if t.Closer? { assert CloserInv(s) && CloserEnabled(s, t.c); }
  }

  lemma SpentRank(s: State)
    requires CloserInv(s)
    ensures OnceRank(s) == 0 <==> s.once.Spent?
  {
  }

  lemma {:induction false} EffectsRun(s: State, steps: seq<Step>)
    requires Inv(s) && ValidRun(s, steps) && |s.closers| > 0
    ensures OnceRank(Final(s, steps)) + Effects(s, steps) <= OnceRank(s)
    decreases |steps|
  {
    if |steps| > 0 {
      EffectStep(s, steps[0]);
      StepKeepsInv(s, steps[0]);
      StepKeepsCause(s, steps[0]);
      EffectsRun(Apply(s, steps[0]), steps[1..]);
    }
  }

  /**
    Whatever else is interleaved: after one call, ten steps at most of the caller that gets into
    the once bring the close function to its end. Until then that caller waits for nothing but
    the capture callback and readers of the lock.
   */
  lemma EveryFairRunCloses(s: State, steps: seq<Step>)
    requires Inv(s) && !s.crashed && |s.closers| > 0 && ValidRun(s, steps)
    ensures Effects(s, steps) <= OnceRank(s) <= 10
    ensures Effects(s, steps) == OnceRank(s) ==> Final(s, steps).once.Spent?
    ensures var f := Final(s, steps);
            !f.crashed && !f.once.Spent? && (forall t :: Enabled(f, t) ==> !Effective(f, t)) ==>
              f.capture.InCallback? || !NoReader(f.workers)
  {
    EffectsRun(s, steps);
    RunKeepsInv(s, steps);
    var f := Final(s, steps);
    SpentRank(f);
    CallsStay(s, steps);
    if !f.crashed && f.once.Fresh? { assert Enabled(f, Closer(0)) && Effective(f, Closer(0)); }
    if !f.crashed && f.once.Held? {
      var i := f.once.winner;
      assert Enabled(f, Closer(i)) ==> Effective(f, Closer(i));
    }
  }

  lemma {:induction false} CallsStay(s: State, steps: seq<Step>)
    requires ValidRun(s, steps)
    ensures |s.closers| <= |Final(s, steps).closers|
    decreases |steps|
  {
    if |steps| > 0 {
      StepKeepsCause(s, steps[0]);
      CallsStay(Apply(s, steps[0]), steps[1..]);
    }
  }

  /** A step of the goroutine running Start, or of a worker. */
  predicate Advances(t: Step)
  {
    t.InstallClose? || t.StartWatcher? || t.ArmTimer? || t.LaunchWorker? || t.AllLaunched? || t.WaitReturns? || t.Work?
  }

  function Advanced(steps: seq<Step>): nat
  {
    if |steps| == 0 then 0 else (if Advances(steps[0]) then 1 else 0) + Advanced(steps[1..])
  }

  /** The steps that Start and its workers have left once the close function has run; a new worker takes four. */
  function StepsLeft(s: State): nat
  {
    MainRank(s.main) + 5 * LaunchesLeft(s) + Total(ExitRank, s.workers)
  }

  lemma {:induction false} TotalAppend(rank: Worker -> nat, ws: seq<Worker>, k: Worker)
    ensures Total(rank, ws + [k]) == Total(rank, ws) + rank(k)
  {
    if |ws| == 0 {
      assert ws + [k] == [k];
    } else {
      assert (ws + [k])[1..] == ws[1..] + [k];
      TotalAppend(rank, ws[1..], k);
    }
  }

  /** After the close function has run, other steps do not add work. */
  lemma StepsLeftStep(s: State, t: Step)
    requires Inv(s) && Enabled(s, t) && s.once.Spent?
    ensures Apply(s, t).once.Spent?
    ensures StepsLeft(Apply(s, t)) + (if Advances(t) then 1 else 0) <= StepsLeft(s)
  {
    match t
    case Work(w) => LeaverStep(s, w);
    case LaunchWorker => TotalAppend(ExitRank, s.workers, Worker(AtRLock, 0));
    case Closer(c) => SpentCloser(s, c);
    case _ =>
  }

  lemma LeaverStep(s: State, w: nat)
    requires w < |s.workers| && !s.workers[w].pc.Exited? && !s.running
    ensures StepsLeft(WorkerStep(s, w)) < StepsLeft(s)
  {
    TotalUpdate(ExitRank, s.workers, w, Move(s.workers[w], s.running));
  }

  lemma SpentCloser(s: State, c: nat)
    requires CloserInv(s) && s.once.Spent? && c < |s.closers| && CloserEnabled(s, c)
    ensures CloserStep(s, c) == s.(closers := s.closers[c := Returned])
  {
  }

  lemma {:induction false} StepsLeftRun(s: State, steps: seq<Step>)
    requires Inv(s) && s.once.Spent? && ValidRun(s, steps)
    ensures StepsLeft(Final(s, steps)) + Advanced(steps) <= StepsLeft(s)
    decreases |steps|
  {
    if |steps| > 0 {
      StepsLeftStep(s, steps[0]);
      StepKeepsInv(s, steps[0]);
      StepsLeftRun(Apply(s, steps[0]), steps[1..]);
    }
  }

  /** Until Start has returned, it or one of its workers can move. */
  lemma SomeoneAdvances(s: State) returns (t: Step)
    requires Inv(s) && s.once.Spent? && !s.crashed && !s.main.Done?
    ensures Enabled(s, t) && Advances(t)
  {
    t := HelpfulStep(s);
  }

  /**
    Whatever else is interleaved: once the close function has run, Start and its workers take
    a bounded number of steps, and a run that leaves none of them able to move has Start returned.
   */
  lemma EveryFairRunReturns(s: State, steps: seq<Step>)
    requires Inv(s) && s.once.Spent? && !s.crashed && ValidRun(s, steps)
    ensures Advanced(steps) <= StepsLeft(s)
    ensures Advanced(steps) == StepsLeft(s) ==> Final(s, steps).main.Done?
    ensures (forall t :: Enabled(Final(s, steps), t) ==> !Advances(t)) ==> Final(s, steps).main.Done?
  {
    StepsLeftRun(s, steps);
    RunKeepsInv(s, steps);
    SpentStays(s, steps);
    var f := Final(s, steps);
    if !f.main.Done? {
      var t := SomeoneAdvances(f);
    }
  }

  lemma {:induction false} SpentStays(s: State, steps: seq<Step>)
    requires Inv(s) && s.once.Spent? && !s.crashed && ValidRun(s, steps)
    ensures Final(s, steps).once.Spent? && !Final(s, steps).crashed
    decreases |steps|
  {
    if |steps| > 0 {
      StepsLeftStep(s, steps[0]);
      StepKeepsInv(s, steps[0]);
      SpentStays(Apply(s, steps[0]), steps[1..]);
    }
  }

  // ---------------------------------------------------------------- no goroutine is left behind

  /** Calls that still wait in front of the once. */
  function CallsLeft(closers: seq<CloserPc>): nat
  {
    if |closers| == 0 then 0 else (if closers[0].Returned? then 0 else 1) + CallsLeft(closers[1..])
  }

  lemma {:induction false} CallsLeftUpdate(closers: seq<CloserPc>, c: nat, pc: CloserPc)
    requires c < |closers|
    ensures CallsLeft(closers[c := pc]) ==
            CallsLeft(closers) - (if closers[c].Returned? then 0 else 1) + (if pc.Returned? then 0 else 1)
  {
    if c == 0 {
      assert closers[c := pc][1..] == closers[1..];
    } else {
      assert closers[c := pc][1..] == closers[1..][c - 1 := pc];
      CallsLeftUpdate(closers[1..], c - 1, pc);
    }
  }

  /** Nothing that Start began is still running. */
  ghost predicate AllEnded(s: State)
  {
    && s.main.Done? && s.capture.Stopped? && s.watcher.Finished?
    && (forall w :: 0 <= w < |s.workers| ==> s.workers[w].pc.Exited?)
    && (forall c :: 0 <= c < |s.closers| ==> s.closers[c].Returned?)
  }

  function WatchersLeft(s: State): nat { if s.watcher.Watching? then 1 else 0 }

  lemma DoneMeans(s: State)
    requires Inv(s) && s.main.Done?
    ensures s.capture.Stopped? && s.doneCloses == 1 && !s.watcher.Unstarted? && !s.once.Fresh?
    ensures s.once.Held? ==> CloserEnabled(s, s.once.winner)
    ensures forall w :: 0 <= w < |s.workers| ==> s.workers[w].pc.Exited?
  {
    InvIsSafe(s);
  }

  /** After Start has returned, the watcher and every call of the close function can end too. */
  lemma {:induction false} EverythingEnds(s: State) returns (steps: seq<Step>)
    requires Inv(s) && !s.crashed && s.main.Done?
    ensures ValidRun(s, steps) && AllEnded(Final(s, steps)) && Calls(steps) == 0
    decreases OnceRank(s), CallsLeft(s.closers), WatchersLeft(s)
  {
    DoneMeans(s);
    if s.once.Held? {
      WinnerMoves(s, s.once.winner);
      steps := EndAfter(s, Closer(s.once.winner));
    } else if c: nat :| c < |s.closers| && s.closers[c].CallOnce? {
      CallsLeftUpdate(s.closers, c, Returned);
      SpentCloser(s, c);
      steps := EndAfter(s, Closer(c));
    } else if s.watcher.Watching? {
      steps := EndAfter(s, WatcherQuits);
    } else {
      steps := [];
    }
  }

  lemma {:induction false} EndAfter(s: State, t: Step) returns (steps: seq<Step>)
    requires Inv(s) && !s.crashed && s.main.Done? && Enabled(s, t) && (t.Closer? || t.WatcherQuits?)
    requires var n := Apply(s, t);
             || OnceRank(n) < OnceRank(s)
             || (OnceRank(n) == OnceRank(s) && CallsLeft(n.closers) < CallsLeft(s.closers))
             || (OnceRank(n) == OnceRank(s) && CallsLeft(n.closers) == CallsLeft(s.closers)
                 && WatchersLeft(n) < WatchersLeft(s))
    ensures ValidRun(s, steps) && AllEnded(Final(s, steps)) && Calls(steps) == 0
    decreases OnceRank(s), CallsLeft(s.closers), WatchersLeft(s), 0
  {
    StepKeepsInv(s, t);
    if t.Closer? { CloserStepFrame(s, t.c); }
    var rest := EverythingEnds(Apply(s, t));
    steps := [t] + rest;
    RunCons(s, t, rest);
    assert steps[1..] == rest;
  }
}

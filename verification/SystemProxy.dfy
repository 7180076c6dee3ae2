/**
  The global system proxy state of the core, driven by its RPC methods and by the
  callback on the instance context. Creating and disabling a controller succeed;
  enabling one may fail.
 */
module SystemProxy {

  import opened Options

  datatype Endpoint = Endpoint(addr: string, port: bv16, socks: bool)

  /** A controller remembers what it was built for. */
  datatype Controller = Controller(target: Endpoint, enabled: bool)

  /**
    `controllers` lists every controller ever created; `current` is the index of the
    one SystemProxyController refers to. `recorded` is the last accepted address, port
    and SOCKS flag, `held` says whether BoxInstance is set.
   */
  datatype State = State(
    held: bool,
    controllers: seq<Controller>,
    current: Option<nat>,
    recorded: Endpoint)

  function Init(): State
  {
    State(false, [], None, Endpoint("", 0, false))
  }

  predicate IsEnabled(s: State)
  {
    s.current.Some? && s.current.value < |s.controllers| && s.controllers[s.current.value].enabled
  }

  function Reset(s: State): State
  {
    if IsEnabled(s) then
      var i := s.current.value;
      s.(controllers := s.controllers[i := s.controllers[i].(enabled := false)])
    else s
  }

  function Set(s: State, e: Endpoint, works: bool): State
  {
    if !s.held || (e == s.recorded && IsEnabled(s)) then s
    else
      var r := if e == s.recorded then s else Reset(s);
      r.(recorded := e, current := Some(|r.controllers|),
         controllers := r.controllers + [Controller(e, works)])
  }

  /** The globals and the methods that change them. */
  class Globals {
    var boxInstance: bool
    var controllers: seq<Controller>
    var systemProxyController: Option<nat>
    var systemProxyAddr: string
    var systemProxyPort: bv16
    var systemProxySupportSOCKS: bool

    function Value(): State
      reads this
    {
      State(boxInstance, controllers, systemProxyController,
            Endpoint(systemProxyAddr, systemProxyPort, systemProxySupportSOCKS))
    }

    constructor ()
      ensures Value() == Init()
    {
      boxInstance, controllers, systemProxyController := false, [], None;
      systemProxyAddr, systemProxyPort, systemProxySupportSOCKS := "", 0, false;
    }

    method ResetSystemProxy()
      modifies this`controllers
      ensures Value() == Reset(old(Value()))
    {
      if IsEnabled(Value()) {
        var i := systemProxyController.value;
        controllers := controllers[i := controllers[i].(enabled := false)];
      }
    }

    method SetSystemProxy(addr: string, port: bv16, socks: bool, works: bool)
      modifies this
      ensures Value() == Set(old(Value()), Endpoint(addr, port, socks), works)
    {
      if !boxInstance {
        return;
      }
      if addr == systemProxyAddr && port == systemProxyPort && socks == systemProxySupportSOCKS {
        if IsEnabled(Value()) {
          return;
        }
      } else {
        ResetSystemProxy();
      }
      systemProxyAddr := addr;
      systemProxyPort := port;
      systemProxySupportSOCKS := socks;
      systemProxyController := Some(|controllers|);
      controllers := controllers + [Controller(Endpoint(addr, port, socks), works)];
    }

    /** The deferred block clears the handle on every error, also when an instance is running. */
    method Start(creates: bool) returns (error: bool)
      modifies this`boxInstance
      ensures Value() == Apply(old(Value()), Step.Start(creates))
      ensures error <==> old(boxInstance) || !creates
    {
      error := false;
      if boxInstance {
        error := true;
      } else if creates {
        boxInstance := true;
      } else {
        error := true;
      }
      if error {
        boxInstance := false;
      }
    }

    method Stop()
      modifies this
      ensures Value() == Apply(old(Value()), Step.Stop)
    {
      ResetSystemProxy();
      if !boxInstance {
        return;
      }
      boxInstance := false;
    }

    /** The requested port is cut down to 16 bits. */
    method EnableSystemProxy(addr: string, port: int, socks: bool, works: bool)
      modifies this
      ensures Value() == Apply(old(Value()), Enable(Endpoint(addr, (port % 0x10000) as bv16, socks), works))
    {
      SetSystemProxy(addr, (port % 0x10000) as bv16, socks, works);
    }

    method DisableSystemProxy()
      modifies this
      ensures Value() == Apply(old(Value()), Disable)
    {
      ResetSystemProxy();
    }

    /** Any sequence of requests and cancellations, carried out on the globals. */
    method Serve(steps: seq<Step>)
      modifies this
      ensures Value() == Run(old(Value()), steps)
    {
      var i := 0;
      assert steps[0..] == steps;
      while i < |steps|
        invariant 0 <= i <= |steps|
        invariant Run(Value(), steps[i..]) == Run(old(Value()), steps)
      {
        assert steps[i..][0] == steps[i] && steps[i..][1..] == steps[i + 1..];
        match steps[i] {
          case Start(creates) => var error := Start(creates);
          case Stop => Stop();
          case Enable(e, works) => SetSystemProxy(e.addr, e.port, e.socks, works);
          case Disable => DisableSystemProxy();
          case ContextCancelled => ResetSystemProxy();
        }
        i := i + 1;
      }
    }
  }

  datatype Step =
    | Start(creates: bool)
    | Stop
    | Enable(target: Endpoint, works: bool)
    | Disable
    | ContextCancelled

  function Apply(s: State, t: Step): State
  {
    match t
    case Start(creates) => s.(held := !s.held && creates)
    case Stop => Reset(s).(held := false)
    case Enable(e, works) => Set(s, e, works)
    case Disable => Reset(s)
    case ContextCancelled => Reset(s)
  }

  function Run(s: State, steps: seq<Step>): State
    decreases |steps|
  {
    if |steps| == 0 then s else Run(Apply(s, steps[0]), steps[1..])
  }

  /** At most one controller is enabled: the current one, built for the recorded endpoint. */
  ghost predicate SingleProxy(s: State)
  {
    forall i :: 0 <= i < |s.controllers| && s.controllers[i].enabled ==>
      s.current == Some(i) && s.controllers[i].target == s.recorded
  }

  /** An enabled system proxy with no instance behind it. */
  predicate Orphaned(s: State)
  {
    IsEnabled(s) && !s.held
  }

  lemma StepKeepsSingleProxy(s: State, t: Step)
    requires SingleProxy(s)
    ensures SingleProxy(Apply(s, t))
  {
    assert forall i :: 0 <= i < |Reset(s).controllers| ==> !Reset(s).controllers[i].enabled;
  }

  /** With an instance held, a working Enable leaves the proxy on, for the requested endpoint. */
  lemma EnableTurnsOn(s: State, e: Endpoint)
    requires s.held
    ensures var n := Apply(s, Enable(e, true)); IsEnabled(n) && n.recorded == e && n.held
    ensures var n := Run(s, [Disable, Enable(e, true)]); IsEnabled(n) && n.recorded == e && n.held
  {
    var d := Apply(s, Disable);
    assert [Disable, Enable(e, true)][1..] == [Enable(e, true)] && [Enable(e, true)][1..] == [];
    assert Run(s, [Disable, Enable(e, true)]) == Run(d, [Enable(e, true)]) == Apply(d, Enable(e, true));
  }

  /** Without an instance Enable does nothing, and a failing one enables nothing that was not enabled. */
  lemma EnableEnablesNothingElse(s: State, e: Endpoint, works: bool)
    ensures !s.held ==> Apply(s, Enable(e, works)) == s
    ensures var n := Apply(s, Enable(e, works));
            && |s.controllers| <= |n.controllers| <= |s.controllers| + 1
            && (forall i :: 0 <= i < |s.controllers| && n.controllers[i].enabled ==> s.controllers[i].enabled)
            && (|n.controllers| > |s.controllers| ==> n.controllers[|s.controllers|] == Controller(e, works))
  {
  }

  /** Disable, Stop and a cancelled context leave no controller enabled; Stop also drops the instance. */
  lemma OffIsOff(s: State, t: Step)
    requires SingleProxy(s) && (t.Disable? || t.Stop? || t.ContextCancelled?)
    ensures var n := Apply(s, t);
            && |n.controllers| == |s.controllers|
            && (forall i :: 0 <= i < |n.controllers| ==> !n.controllers[i].enabled)
            && n.held == (s.held && !t.Stop?)
  {
  }

  lemma {:induction false} RunKeepsSingleProxy(s: State, steps: seq<Step>)
    requires SingleProxy(s)
    ensures SingleProxy(Run(s, steps))
    decreases |steps|
  {
    if |steps| > 0 {
      StepKeepsSingleProxy(s, steps[0]);
      RunKeepsSingleProxy(Apply(s, steps[0]), steps[1..]);
    }
  }

  /** Over every run from the start of the core. */
  lemma EveryRunHasSingleProxy(steps: seq<Step>)
    ensures SingleProxy(Run(Init(), steps))
  {
    RunKeepsSingleProxy(Init(), steps);
  }

  /** Only a Start that finds an instance and an enabled proxy creates an orphan. */
  lemma OrphanedExactly(s: State, t: Step)
    requires SingleProxy(s) && !Orphaned(s)
    ensures Orphaned(Apply(s, t)) <==> t.Start? && s.held && IsEnabled(s)
  {
    assert forall i :: 0 <= i < |Reset(s).controllers| ==> !Reset(s).controllers[i].enabled;
  }

  /** Start is called only with no instance held. */
  predicate StartsWhenIdle(s: State, steps: seq<Step>)
    decreases |steps|
  {
    |steps| == 0 || ((steps[0].Start? ==> !s.held) && StartsWhenIdle(Apply(s, steps[0]), steps[1..]))
  }

  lemma {:induction false} IdleStartsNeverOrphan(s: State, steps: seq<Step>)
    requires SingleProxy(s) && !Orphaned(s) && StartsWhenIdle(s, steps)
    ensures !Orphaned(Run(s, steps))
    decreases |steps|
  {
    if |steps| > 0 {
      StepKeepsSingleProxy(s, steps[0]);
      OrphanedExactly(s, steps[0]);
      IdleStartsNeverOrphan(Apply(s, steps[0]), steps[1..]);
    }
  }

  /** On such runs an enabled proxy always has its instance. */
  lemma EnabledImpliesHeld(steps: seq<Step>)
    requires StartsWhenIdle(Init(), steps)
    ensures IsEnabled(Run(Init(), steps)) ==> Run(Init(), steps).held
  {
    IdleStartsNeverOrphan(Init(), steps);
  }

  /** A second Start leaves the proxy enabled and drops the instance. */
  lemma SecondStartOrphans(e: Endpoint)
    ensures Orphaned(Run(Init(), [Start(true), Enable(e, true), Start(true)]))
  {
    var steps := [Start(true), Enable(e, true), Start(true)];
    assert steps[1..] == [Enable(e, true), Start(true)] && steps[1..][1..] == [Start(true)];
    var s := Apply(Apply(Init(), Start(true)), Enable(e, true));
    assert IsEnabled(s) && s.held;
    assert Run(s, [Start(true)]) == Run(Apply(s, Start(true)), []);
  }
}

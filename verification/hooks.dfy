/** Hook setup: resolve the site's block, then instantiate every registered hook kind,
    in registry order, with the requirement the block gives it (default `[]`), and log
    the kinds whose requirement is non-empty. Module discovery is assumed complete: the
    registry is the ordered sequence of registered hook-kind names. */
module Hooks {
  import opened Results
  import opened Values
  import opened Exceptions
  import Configuration

  /** One call `spec.instantiate(req)`. */
  datatype Call = Call(spec: string, req: Value)

  /** The enable log entry for a hook kind, with the requirement it was enabled with. */
  datatype LogEvent = Enabled(spec: string, req: Value)

  /** What setup did, in order: the instantiations it made and the log entries it wrote. */
  datatype Trace = Trace(calls: seq<Call>, log: seq<LogEvent>)

  /** Setup either ran to the end or stopped at an exception, after the effects in `trace`. */
  datatype Outcome = Done(trace: Trace) | Aborted(error: Error, trace: Trace)

  /** `spec.instantiate`, outside the model: `None` when construction succeeds,
      otherwise the exception it raises. */
  type Constructor = (string, Value) -> Option<Error>

  const NoEffects: Trace := Trace([], [])

  /** `site_config.get(name, [])`. */
  function Requirement(block: map<string, Value>, name: string): Value {
    if name in block then block[name] else EmptyRequirement
  }

  /** The mapping a site block offers to `.get`; a non-mapping block offers none (and is
      only ever consulted when there is at least one hook kind). */
  function BlockOf(site: Value): map<string, Value> {
    if site.VMap? then site.entries else map[]
  }

  function Append(t: Trace, u: Trace): Trace {
    Trace(t.calls + u.calls, t.log + u.log)
  }

  /** The effects `t` followed by whatever `o` did next. */
  function Then(t: Trace, o: Outcome): Outcome {
    match o
    case Done(u) => Done(Append(t, u))
    case Aborted(e, u) => Aborted(e, Append(t, u))
  }

  /** One pass of the loop body for hook kind `name`: instantiate it, then, when its
      requirement is truthy, join the requirement for the log line and log it. */
  function Step(block: map<string, Value>, name: string, construct: Constructor): Outcome {
    var req := Requirement(block, name);
    var called := Trace([Call(name, req)], []);
    match construct(name, req)
    case Some(e) => Aborted(e, called)
    case None =>
      if !Truthy(req) then Done(called)
      else if Joinable(req) then Done(Trace(called.calls, [Enabled(name, req)]))
      else Aborted(TypeError, called)
  }

  /** The loop over the registered hook kinds `specs`, in order. */
  function Walk(site: Value, specs: seq<string>, construct: Constructor): Outcome
    decreases |specs|
  {
    if specs == [] then Done(NoEffects)
    else if !site.VMap? then Aborted(AttributeError, NoEffects)
    else
      match Step(site.entries, specs[0], construct)
      case Aborted(e, t) => Aborted(e, t)
      case Done(t) => Then(t, Walk(site, specs[1..], construct))
  }

  /** `setup_hooks(config, site)` over the registry `registry`. */
  function SetupHooks(config: Configuration.Config, site: string, registry: seq<string>,
                      construct: Constructor): Outcome
  {
    match Configuration.GetSiteConfig(config, site)
    case Failure(e) => Aborted(e, NoEffects)
    case Success(block) => Walk(block, registry, construct)
  }

  // ---------------------------------------------------------------------------------
  // Reference definitions of what setup is meant to do

  /** Hook kind `name` is instantiated and, if enabled, logged without an exception. */
  predicate StepSucceeds(block: map<string, Value>, name: string, construct: Constructor) {
    var req := Requirement(block, name);
    construct(name, req).None? && (Truthy(req) ==> Joinable(req))
  }

  /** The exception hook kind `name` stops setup with: its constructor's, or the
      `TypeError` of joining a requirement that does not hold strings only. */
  function StepFailure(block: map<string, Value>, name: string, construct: Constructor): Error
    requires !StepSucceeds(block, name, construct)
  {
    var req := Requirement(block, name);
    if construct(name, req).Some? then construct(name, req).value else TypeError
  }

  /** Every hook kind of `specs`, in order, instantiated with its requirement. */
  function ExpectedCalls(block: map<string, Value>, specs: seq<string>): seq<Call> {
    seq(|specs|, i requires 0 <= i < |specs| => Call(specs[i], Requirement(block, specs[i])))
  }

  /** The enable entries for the hook kinds of `specs` whose requirement is non-empty, in order. */
  function EnabledEvents(block: map<string, Value>, specs: seq<string>): seq<LogEvent>
    decreases |specs|
  {
    if specs == [] then []
    else
      var req := Requirement(block, specs[0]);
      (if Truthy(req) then [Enabled(specs[0], req)] else []) + EnabledEvents(block, specs[1..])
  }

  /** Setup of the kinds `specs` for the block `site` runs to the end. */
  ghost predicate Completes(site: Value, specs: seq<string>, construct: Constructor) {
    specs == [] || (site.VMap? && forall i :: 0 <= i < |specs| ==> StepSucceeds(site.entries, specs[i], construct))
  }

  // ---------------------------------------------------------------------------------
  // Properties

  /** The enable log names exactly the hook kinds whose requirement is non-empty, each
      with that requirement: no entry for a disabled kind, and one for every enabled kind. */
  lemma {:induction false} EnabledEventsExact(block: map<string, Value>, specs: seq<string>)
    ensures forall e :: e in EnabledEvents(block, specs) ==>
              e.spec in specs && e.req == Requirement(block, e.spec) && Truthy(e.req)
    ensures forall i :: 0 <= i < |specs| ==>
              (Enabled(specs[i], Requirement(block, specs[i])) in EnabledEvents(block, specs)
               <==> Truthy(Requirement(block, specs[i])))
    decreases |specs|
  {
    if specs != [] {
      EnabledEventsExact(block, specs[1..]);
      forall i | 0 <= i < |specs|
        ensures Enabled(specs[i], Requirement(block, specs[i])) in EnabledEvents(block, specs)
                <==> Truthy(Requirement(block, specs[i]))
      {
        if i > 0 {
          assert specs[i] == specs[1..][i - 1];
        }
      }
    }
  }

  /** The walk over a mapping block completes exactly when every kind's step succeeds,
      and then it has instantiated every kind once, in order, with its requirement, and
      logged exactly the enabled ones, in order. */
  lemma {:induction false} WalkCompletes(site: Value, specs: seq<string>, construct: Constructor)
    requires site.VMap?
    ensures Walk(site, specs, construct).Done? <==>
              forall i :: 0 <= i < |specs| ==> StepSucceeds(site.entries, specs[i], construct)
    ensures Walk(site, specs, construct).Done? ==>
              Walk(site, specs, construct).trace
              == Trace(ExpectedCalls(site.entries, specs), EnabledEvents(site.entries, specs))
    decreases |specs|
  {
    if specs != [] {
      var tail := specs[1..];
      WalkCompletes(site, tail, construct);
      forall i | 0 < i < |specs| ensures specs[i] == tail[i - 1] { }
      if StepSucceeds(site.entries, specs[0], construct) {
        ExpectedCallsCons(site.entries, specs);
      }
    }
  }

  /** When the walk over a mapping block stops at an exception, it stopped at the first
      kind whose step fails, with that kind's exception: every kind before it, and that
      kind itself, was instantiated in order, no later kind was, and the log holds the
      enabled kinds before it. */
  lemma {:induction false} WalkAborts(site: Value, specs: seq<string>, construct: Constructor)
    requires site.VMap?
    ensures var r := Walk(site, specs, construct);
            r.Aborted? ==>
              var k := |r.trace.calls| - 1;
              && 0 <= k < |specs|
              && (forall i :: 0 <= i < k ==> StepSucceeds(site.entries, specs[i], construct))
              && !StepSucceeds(site.entries, specs[k], construct)
              && r.error == StepFailure(site.entries, specs[k], construct)
              && r.trace == Trace(ExpectedCalls(site.entries, specs[..k + 1]),
                                  EnabledEvents(site.entries, specs[..k]))
    decreases |specs|
  {
    var r := Walk(site, specs, construct);
    if specs != [] && r.Aborted? {
      var block := site.entries;
      var step := Step(block, specs[0], construct);
      if step.Done? {
        var tail := specs[1..];
        WalkAborts(site, tail, construct);
        var rt := Walk(site, tail, construct);
        assert r == Then(step.trace, rt);
        var k := |rt.trace.calls|;
        assert tail[..k] == specs[..k + 1][1..];
        assert tail[..k - 1] == specs[..k][1..];
        ExpectedCallsCons(block, specs[..k + 1]);
        forall i | 0 <= i < k ensures StepSucceeds(block, specs[i], construct) {
          if i > 0 { assert specs[i] == tail[i - 1]; }
        }
      } else {
        assert specs[..1] == [specs[0]];
      }
    }
  }

  /** The expected instantiations of a non-empty list of kinds start with its first kind. */
  lemma ExpectedCallsCons(block: map<string, Value>, specs: seq<string>)
    requires specs != []
    ensures ExpectedCalls(block, specs)
            == [Call(specs[0], Requirement(block, specs[0]))] + ExpectedCalls(block, specs[1..])
  {
  }

  /** Keys of the site block that name no registered kind change nothing. */
  lemma {:induction false} UnlistedKeysIgnored(m: map<string, Value>, key: string, v: Value,
                                               specs: seq<string>, construct: Constructor)
    requires key !in specs
    ensures Walk(VMap(m[key := v]), specs, construct) == Walk(VMap(m), specs, construct)
    decreases |specs|
  {
    if specs != [] {
      assert specs[0] != key;
      assert Requirement(m[key := v], specs[0]) == Requirement(m, specs[0]);
      assert Step(m[key := v], specs[0], construct) == Step(m, specs[0], construct);
      assert forall x :: x in specs[1..] ==> x in specs;
      UnlistedKeysIgnored(m, key, v, specs[1..], construct);
    }
  }

  /** Setup completes exactly when the site is found and every kind's step succeeds (a
      block that is not a mapping only succeeds with no kinds to set up); then every
      registered kind is instantiated exactly once, in registry order, with the block's
      value for its name or `[]`, and the log names exactly the enabled kinds. */
  lemma SetupHooksCompletes(config: Configuration.Config, site: string, registry: seq<string>,
                            construct: Constructor)
    ensures var lookup := Configuration.GetSiteConfig(config, site);
            SetupHooks(config, site, registry, construct).Done? <==>
              lookup.Success? && Completes(lookup.value, registry, construct)
    ensures var r := SetupHooks(config, site, registry, construct);
            var lookup := Configuration.GetSiteConfig(config, site);
            var block := if lookup.Success? then BlockOf(lookup.value) else map[];
            r.Done? ==>
              && |r.trace.calls| == |registry|
              && (forall i :: 0 <= i < |registry| ==>
                    r.trace.calls[i] == Call(registry[i], Requirement(block, registry[i])))
              && r.trace.log == EnabledEvents(block, registry)
              && (forall i :: 0 <= i < |registry| ==>
                    (Enabled(registry[i], Requirement(block, registry[i])) in r.trace.log
                     <==> Truthy(Requirement(block, registry[i]))))
  {
    var lookup := Configuration.GetSiteConfig(config, site);
    if lookup.Success? {
      var block := BlockOf(lookup.value);
      EnabledEventsExact(block, registry);
      if lookup.value.VMap? {
        WalkCompletes(lookup.value, registry, construct);
      }
    }
  }

  /** A site block that is not a mapping has no `.get`: setup raises `AttributeError` on
      the first registered kind, before instantiating anything, and only if there is one. */
  lemma SetupHooksNonMappingBlock(config: Configuration.Config, site: string, registry: seq<string>,
                                  construct: Constructor)
    ensures var lookup := Configuration.GetSiteConfig(config, site);
            SetupHooks(config, site, registry, construct) == Aborted(AttributeError, NoEffects)
            <==> lookup.Success? && !lookup.value.VMap? && registry != []
  {
  }

  /** A failed site lookup is raised unchanged before anything else happens: no hook
      kind is instantiated and nothing is logged. */
  lemma SetupHooksLookupFirst(config: Configuration.Config, site: string, registry: seq<string>,
                              construct: Constructor)
    requires Configuration.GetSiteConfig(config, site).Failure?
    ensures SetupHooks(config, site, registry, construct)
            == Aborted(Configuration.GetSiteConfig(config, site).error, NoEffects)
  {
  }

  /** A site that enables `notify` with one address, beside a registered `audit` kind it
      does not name: both are instantiated in registry order, `audit` with `[]`, and only
      `notify` is logged. */
  lemma NotifyExample()
    ensures var req := VList([VStr("user@example.com")]);
            var config := Configuration.Config(map["sites" := VMap(map["alpha" := VMap(map["notify" := req])])]);
            SetupHooks(config, "alpha", ["notify", "audit"], (name: string, r: Value) => None)
            == Done(Trace([Call("notify", req), Call("audit", EmptyRequirement)], [Enabled("notify", req)]))
  {
  }

  /** Effects so far followed by the walk over the remaining kinds, when the next kind's
      step completes: the step's effects join the effects so far and the walk continues. */
  lemma ThenWalkContinues(acc: Trace, site: Value, specs: seq<string>, construct: Constructor)
    requires site.VMap? && specs != []
    requires Step(site.entries, specs[0], construct).Done?
    ensures Then(acc, Walk(site, specs, construct))
            == Then(Append(acc, Step(site.entries, specs[0], construct).trace),
                    Walk(site, specs[1..], construct))
  {
    var u := Step(site.entries, specs[0], construct).trace;
    var rest := Walk(site, specs[1..], construct);
    // Without this step the solver exhausts its resource budget unfolding `Walk`.
    ThenThen(acc, u, rest);
  }

  /** Running `u` after `t` and then `o` is running `t` then `u` then `o`. */
  lemma ThenThen(t: Trace, u: Trace, o: Outcome)
    ensures Then(t, Then(u, o)) == Then(Append(t, u), o)
  {
  }

  /** Effects so far followed by the walk over the remaining kinds, when the next kind's
      step raises: setup stops with that exception after the step's effects. */
  lemma ThenWalkStops(acc: Trace, site: Value, specs: seq<string>, construct: Constructor)
    requires site.VMap? && specs != []
    requires Step(site.entries, specs[0], construct).Aborted?
    ensures Then(acc, Walk(site, specs, construct))
            == Aborted(Step(site.entries, specs[0], construct).error,
                       Append(acc, Step(site.entries, specs[0], construct).trace))
  {
  }

  /** The imperative setup loop, as written: resolve the block, then walk the registry
      accumulating instantiations and log entries, stopping at the first exception. */
  method RunSetupHooks(config: Configuration.Config, site: string, registry: seq<string>,
                       construct: Constructor) returns (r: Outcome)
    ensures r == SetupHooks(config, site, registry, construct)
  {
    var lookup := Configuration.GetSiteConfig(config, site);
    if lookup.Failure? {
      return Aborted(lookup.error, NoEffects);
    }
    var siteConfig := lookup.value;
    var calls: seq<Call> := [];
    var log: seq<LogEvent> := [];
    var i := 0;
    while i < |registry|
      invariant 0 <= i <= |registry|
      invariant Then(Trace(calls, log), Walk(siteConfig, registry[i..], construct))
                == Walk(siteConfig, registry, construct)
    {
      ghost var acc := Trace(calls, log);
      assert registry[i..] != [];
      if !siteConfig.VMap? {
        assert Walk(siteConfig, registry[i..], construct) == Aborted(AttributeError, NoEffects);
        return Aborted(AttributeError, Trace(calls, log));
      }
      var name := registry[i];
      var req := Requirement(siteConfig.entries, name);
      ghost var step := Step(siteConfig.entries, name, construct);
      assert registry[i..][0] == name;
      assert registry[i..][1..] == registry[i + 1..];
      calls := calls + [Call(name, req)];
      var failure := construct(name, req);
      if failure.Some? {
        assert step == Aborted(failure.value, Trace([Call(name, req)], []));
        ThenWalkStops(acc, siteConfig, registry[i..], construct);
        return Aborted(failure.value, Trace(calls, log));
      }
      if Truthy(req) {
        if !Joinable(req) {
          assert step == Aborted(TypeError, Trace([Call(name, req)], []));
          ThenWalkStops(acc, siteConfig, registry[i..], construct);
          return Aborted(TypeError, Trace(calls, log));
        }
        log := log + [Enabled(name, req)];
        assert step == Done(Trace([Call(name, req)], [Enabled(name, req)]));
      } else {
        assert step == Done(Trace([Call(name, req)], []));
      }
      ThenWalkContinues(acc, siteConfig, registry[i..], construct);
      assert Trace(calls, log) == Append(acc, step.trace);
      i := i + 1;
    }
    return Done(Trace(calls, log));
  }
}

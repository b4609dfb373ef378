/** Starting managed containers: recreation, orphan handling, garbage collection, `ensure`, probing. */
module ContainerStartup {
  import opened Basics
  import opened ContainerPort

  datatype Runtime = Docker | MacOSContainer

  datatype OrphanPolicy = GarbageCollectExplicitly | FailClosed | SkipDuringSetup

  const GC_POLL_INTERVAL := 200
  const GC_POLL_TIMEOUT := 5_000
  const STARTUP_PROGRESS_LOG_INTERVAL := 5_000

  datatype ProbeSettings = ProbeSettings(timeout: nat, pollInterval: nat)

  const DEFAULT_PROBE := ProbeSettings(120_000, 200)

  datatype PortMapping = PortMapping(hostAddress: string, hostPort: nat, containerPort: nat)

  datatype Isolation = NotIsolated | PublishToLoopback | DiscoverContainerIp

  datatype ContainerConfig = ContainerConfig(name: string, image: string, network: string, isolation: Isolation,
                                             ports: seq<PortMapping>)

  /** `container_not_found_stderr`, used when a plugin container is recreated. */
  predicate NotFoundText(stderr: string) {
    Occurs("No such container", stderr) || Occurs("notFound", stderr) || Occurs("not found", stderr)
  }

  /** The answer to a stop or a remove says that there is no such container. */
  predicate Vanished(done: Answer<Unit>) {
    done.Err? && done.error.CommandFailed? && NotFoundText(done.error.stderr)
  }

  /** The narrower test of garbage collection. */
  predicate MissingInGc(done: Answer<Unit>) {
    done.Err? && done.error.CommandFailed? && Occurs("No such container", done.error.stderr)
  }

  /** Both tests on a message that holds one of the texts, and on one that holds none. */
  lemma MissingTexts(stderr: string)
    ensures MissingInGc(Err(CommandFailed(stderr))) <==> exists a, b :: Parts(stderr, a, "No such container", b)
    ensures Vanished(Err(CommandFailed(stderr))) <==>
      || (exists a, b :: Parts(stderr, a, "No such container", b))
      || (exists a, b :: Parts(stderr, a, "notFound", b))
      || (exists a, b :: Parts(stderr, a, "not found", b))
  {
    hide Occurs, Parts;
    OccursIff("No such container", stderr);
    OccursIff("notFound", stderr);
    OccursIff("not found", stderr);
  }

  // ----- Properties of traces -----

  predicate Destructive(e: Effect) {
    e.Stop? || e.Remove?
  }

  predicate NoneDestructive(t: seq<Effect>) {
    forall i :: 0 <= i < |t| ==> !Destructive(t[i])
  }

  predicate NoRun(t: seq<Effect>) {
    forall i :: 0 <= i < |t| ==> !t[i].RunContainer?
  }

  predicate Lists(e: Effect, scope: Scope, name: string) {
    && e.ListManaged? && e.scope == scope && e.listed.Ok?
    && exists c :: 0 <= c < |e.listed.value| && e.listed.value[c].name == name
  }

  /** Every stop and remove is of a container that an earlier listing for this scope returned. */
  predicate OnlyListedTouched(t: seq<Effect>, scope: Scope) {
    forall i :: 0 <= i < |t| && Destructive(t[i]) ==>
      exists k :: 0 <= k < i && Lists(t[k], scope, t[i].name)
  }

  /** All stops and removes are of this one name. */
  predicate OnlyTouches(t: seq<Effect>, name: string) {
    forall i :: 0 <= i < |t| && Destructive(t[i]) ==> t[i].name == name
  }

  /** A run happens at most once, for this name, after everything it needs was seen. */
  predicate RunGuarded(t: seq<Effect>, config: ContainerConfig) {
    && (forall i, j :: 0 <= i < j < |t| ==> !(t[i].RunContainer? && t[j].RunContainer?))
    && forall i :: 0 <= i < |t| && t[i].RunContainer? ==> t[i].name == config.name && Cleared(t, config, i)
  }

  /**
   * Before index `i`, in this order: the image was seen, the name was seen free, internal networks
   * were validated if the container is isolated, and its network was prepared.
   */
  predicate Cleared(t: seq<Effect>, config: ContainerConfig, i: nat)
    requires i <= |t|
  {
    exists x, a, b :: 0 <= x < a < b < i && t[x] == ImageExists(config.image, Ok(true)) && ClearedBetween(t, config, a, b)
  }

  predicate ClearedBetween(t: seq<Effect>, config: ContainerConfig, a: nat, b: nat)
    requires a < b < |t|
  {
    && t[a] == Exists(config.name, Ok(false))
    && t[b] == NetworkReady(config)
    && (config.isolation.NotIsolated? || t[b - 1] == ValidateNetwork(Ok(Unit)))
  }

  function NetworkReady(config: ContainerConfig): Effect {
    EnsureNetwork(config.network, !config.isolation.NotIsolated?, Ok(Unit))
  }

  lemma NoRunIsGuarded(t: seq<Effect>, config: ContainerConfig)
    requires NoRun(t)
    ensures RunGuarded(t, config)
  {
  }

  lemma OnlyListedTouchedAppend(a: seq<Effect>, b: seq<Effect>, scope: Scope)
    requires OnlyListedTouched(a, scope) && OnlyListedTouched(b, scope)
    ensures OnlyListedTouched(a + b, scope)
  {
    var t := a + b;
    forall i | 0 <= i < |t| && Destructive(t[i]) ensures exists k :: 0 <= k < i && Lists(t[k], scope, t[i].name) {
      if i < |a| {
        var k :| 0 <= k < i && Lists(a[k], scope, a[i].name);
        assert t[k] == a[k];
      } else {
        var k :| 0 <= k < i - |a| && Lists(b[k], scope, b[i - |a|].name);
        assert t[|a| + k] == b[k];
      }
    }
  }

  lemma RunGuardedAfter(a: seq<Effect>, b: seq<Effect>, config: ContainerConfig)
    requires NoRun(a) && RunGuarded(b, config)
    ensures RunGuarded(a + b, config)
  {
    var t := a + b;
    forall i | 0 <= i < |t| && t[i].RunContainer?
      ensures t[i].name == config.name && Cleared(t, config, i)
    {
      assert t[i] == b[i - |a|];
      var x, y, z :|
        0 <= x < y < z < i - |a| && b[x] == ImageExists(config.image, Ok(true)) && ClearedBetween(b, config, y, z);
      assert t[|a| + x] == b[x] && t[|a| + y] == b[y] && t[|a| + z] == b[z] && t[|a| + z - 1] == b[z - 1];
      assert ClearedBetween(t, config, |a| + y, |a| + z);
    }
  }

  // ----- Waiting for Docker to remove a container -----

  /** The number of whole intervals it takes to cover the timeout. */
  function MaxAttempts(timeout: nat, interval: nat): nat
    requires interval > 0
  {
    (timeout + interval - 1) / interval
  }

  /** That many looks, each finding the container and each followed by a sleep. */
  predicate KeptSeeing(t: seq<Effect>, name: string, pollInterval: nat, attempts: nat) {
    && |t| == 2 * attempts
    && forall i :: 0 <= i < attempts ==> t[2 * i] == Exists(name, Ok(true)) && t[2 * i + 1] == Sleep(pollInterval)
  }

  /** `wait_for_container_gone`. */
  method WaitForContainerGone(port: Port, name: string, pollInterval: nat, timeout: nat)
    returns (r: Answer<bool>, attempts: nat, ghost t: seq<Effect>)
    requires pollInterval > 0
    modifies port
    ensures port.trace == old(port.trace) + t && port.now >= old(port.now)
    ensures |t| > 0 && KeptSeeing(t[..|t| - 1], name, pollInterval, attempts)
    ensures forall i :: 0 <= i < |t| ==> (t[i].Exists? && t[i].name == name) || t[i].Sleep?
    ensures r == Ok(true) ==> t[|t| - 1] == Exists(name, Ok(false))
    ensures r == Ok(false) ==> t[|t| - 1] == Exists(name, Ok(true)) && port.now >= old(port.now) + timeout
    ensures r.Err? ==> t[|t| - 1] == Exists(name, Err(r.error))
    ensures attempts <= MaxAttempts(timeout, pollInterval)
  {
    hide MaxAttempts, KeptSeeing;
    ghost var before := port.trace;
    var start := port.now;
    var deadline := start + timeout;
    attempts := 0;
    t := [];
    NothingSeen(name, pollInterval);
    while true
      invariant port.trace == before + t
      invariant port.now >= start + attempts * pollInterval
      invariant attempts <= MaxAttempts(timeout, pollInterval)
      invariant KeptSeeing(t, name, pollInterval, attempts)
      invariant forall i :: 0 <= i < |t| ==> (t[i].Exists? && t[i].name == name) || t[i].Sleep?
      decreases deadline - port.now
    {
      ghost var seen := t;
      var found := port.Exists(name);
      t := t + [Exists(name, found)];
      assert t[..|t| - 1] == seen;
      if found.Err? {
        return Err(found.error), attempts, t;
      }
      if !found.value {
        return Ok(true), attempts, t;
      }
      if port.now >= deadline {
        return Ok(false), attempts, t;
      }
      AttemptsBound(attempts, pollInterval, timeout);
      attempts := attempts + 1;
      port.Sleep(pollInterval);
      t := t + [Sleep(pollInterval)];
      SeenAgain(seen, name, pollInterval, attempts - 1);
    }
  }

  lemma NothingSeen(name: string, pollInterval: nat)
    ensures KeptSeeing([], name, pollInterval, 0)
  {
  }

  lemma SeenAgain(t: seq<Effect>, name: string, pollInterval: nat, attempts: nat)
    requires KeptSeeing(t, name, pollInterval, attempts)
    ensures KeptSeeing(t + [Exists(name, Ok(true))] + [Sleep(pollInterval)], name, pollInterval, attempts + 1)
  {
  }

  /** Fewer than `timeout` milliseconds in whole intervals leave room for one more attempt. */
  lemma AttemptsBound(attempts: nat, interval: nat, timeout: nat)
    requires interval > 0 && attempts * interval < timeout
    ensures attempts + 1 <= MaxAttempts(timeout, interval)
    ensures (attempts + 1) * interval == attempts * interval + interval
  {
    var q := (timeout + interval - 1) / interval;
    assert (q + 1) * interval > timeout + interval - 1;
    assert (attempts + 1) * interval == attempts * interval + interval;
    CancelFactor(q + 1, attempts + 1, interval);
  }

  lemma CancelFactor(a: int, b: int, n: nat)
    requires a * n > b * n
    ensures a > b
  {
    FactorMonotone(a, b, n);
  }

  lemma {:induction false} FactorMonotone(a: int, b: int, n: nat)
    ensures a <= b ==> a * n <= b * n
  {
    if n > 0 {
      FactorMonotone(a, b, n - 1);
    }
  }

  // ----- Garbage collection -----

  /** The trace shows that the container is gone. */
  predicate Gone(t: seq<Effect>, runtime: Runtime, name: string) {
    exists i :: 0 <= i < |t| && ShowsGone(t[i], runtime, name)
  }

  predicate ShowsGone(e: Effect, runtime: Runtime, name: string) {
    || (e.Stop? && e.name == name && MissingInGc(e.done))
    || (runtime.Docker? && e == Exists(name, Ok(false)))
    || (runtime.MacOSContainer? && e.Remove? && e.name == name && (e.done.Ok? || MissingInGc(e.done)))
  }

  /** The trace only concerns the given containers; stops only running ones; Docker ones are never removed. */
  predicate GcEffects(t: seq<Effect>, runtime: Runtime, containers: seq<ContainerInfo>) {
    forall i :: 0 <= i < |t| ==>
      || t[i].Sleep?
      || (t[i].Exists? && runtime.Docker? && exists c :: 0 <= c < |containers| && containers[c].name == t[i].name)
      || (t[i].Stop? && exists c :: 0 <= c < |containers| && containers[c] == ContainerInfo(t[i].name, true))
      || (t[i].Remove? && runtime.MacOSContainer?
          && exists c :: 0 <= c < |containers| && containers[c].name == t[i].name)
  }

  predicate AskedToStop(t: seq<Effect>, name: string) {
    exists i :: 0 <= i < |t| && t[i].Stop? && t[i].name == name
  }

  /** The answer that stops the collection: a stop, a look or a remove of this container that was refused. */
  predicate GcRefused(e: Effect, runtime: Runtime, name: string) {
    || (e.Stop? && e.name == name && e.done.Err? && !MissingInGc(e.done))
    || (runtime.Docker? && e.Exists? && e.name == name && e.found != Ok(false))
    || (runtime.MacOSContainer? && e.Remove? && e.name == name && e.done.Err? && !MissingInGc(e.done))
  }

  /** The collection is given up with the error of a look that failed, and with its own error otherwise. */
  predicate GivenUpWith(e: Effect, error: ContainerError) {
    error == if e.Exists? && e.found.Err? then e.found.error else Other
  }

  lemma AskedAppend(a: seq<Effect>, b: seq<Effect>, name: string)
    ensures AskedToStop(a, name) || AskedToStop(b, name) ==> AskedToStop(a + b, name)
  {
    if i :| 0 <= i < |a| && a[i].Stop? && a[i].name == name {
      assert (a + b)[i] == a[i];
    }
    if i :| 0 <= i < |b| && b[i].Stop? && b[i].name == name {
      assert (a + b)[|a| + i] == b[i];
    }
  }

  lemma GoneAppend(a: seq<Effect>, b: seq<Effect>, runtime: Runtime, name: string)
    ensures Gone(a, runtime, name) || Gone(b, runtime, name) ==> Gone(a + b, runtime, name)
  {
    if i :| 0 <= i < |a| && ShowsGone(a[i], runtime, name) {
      assert (a + b)[i] == a[i];
    }
    if i :| 0 <= i < |b| && ShowsGone(b[i], runtime, name) {
      assert (a + b)[|a| + i] == b[i];
    }
  }

  lemma GcEffectsAppend(a: seq<Effect>, b: seq<Effect>, runtime: Runtime, containers: seq<ContainerInfo>, k: nat)
    requires k < |containers|
    requires GcEffects(a, runtime, containers[..k]) && GcEffects(b, runtime, [containers[k]])
    ensures GcEffects(a + b, runtime, containers[..k + 1])
  {
    assert forall c :: 0 <= c < k ==> containers[..k][c] == containers[..k + 1][c];
    assert containers[..k + 1][k] == containers[k];
  }

  lemma GcPolls()
    ensures MaxAttempts(GC_POLL_TIMEOUT, GC_POLL_INTERVAL) == 25
  {
  }

  /** The body of the collection loop, for one container. */
  method CollectOne(port: Port, runtime: Runtime, container: ContainerInfo)
    returns (r: Answer<Unit>, ghost polls: nat, ghost t: seq<Effect>)
    modifies port
    ensures port.trace == old(port.trace) + t && port.now >= old(port.now)
    ensures GcEffects(t, runtime, [container]) && |t| > 0
    ensures runtime.Docker? && !t[|t| - 1].Stop? ==>
      var stops := if container.running then 1 else 0;
      |t| > stops && KeptSeeing(t[stops..|t| - 1], container.name, 200, polls) && polls <= 25
    ensures container.running <==> t[0].Stop?
    ensures forall i :: 0 < i < |t| ==> !t[i].Stop?
    ensures runtime.MacOSContainer? ==> |t| <= if container.running then 2 else 1
    ensures r.Ok? ==> ShowsGone(t[|t| - 1], runtime, container.name)
    ensures r.Err? ==> GcRefused(t[|t| - 1], runtime, container.name) && GivenUpWith(t[|t| - 1], r.error)
    ensures r.Err? && t[|t| - 1].Exists? && t[|t| - 1].found == Ok(true) ==> port.now >= old(port.now) + 5_000
  {
    hide KeptSeeing, MissingInGc, MaxAttempts;
    GcPolls();
    var name := container.name;
    assert [container][0] == container;
    t, polls := [], 0;
    if container.running {
      var stopped := port.Stop(name);
      t := [Stop(name, stopped)];
      if stopped.Err? {
        if MissingInGc(stopped) {
          return Ok(Unit), 0, t;
        }
        return Err(Other), 0, t;
      }
    }
    match runtime {
      case Docker =>
        var gone, attempts;
        ghost var waited;
        gone, attempts, waited := WaitForContainerGone(port, name, GC_POLL_INTERVAL, GC_POLL_TIMEOUT);
        polls := attempts;
        t := t + waited;
        assert t[|t| - 1] == waited[|waited| - 1] && t[if container.running then 1 else 0..|t| - 1] == waited[..|waited| - 1];
        if gone.Err? {
          return Err(gone.error), polls, t;
        }
        if !gone.value {
          return Err(Other), polls, t;
        }
        return Ok(Unit), polls, t;
      case MacOSContainer =>
        var removed := port.Remove(name);
        t := t + [Remove(name, removed)];
        if removed.Err? && !MissingInGc(removed) {
          return Err(Other), polls, t;
        }
        return Ok(Unit), polls, t;
    }
  }

  lemma GoneAtEnd(a: seq<Effect>, b: seq<Effect>, runtime: Runtime, name: string)
    requires |b| > 0 && ShowsGone(b[|b| - 1], runtime, name)
    ensures Gone(a + b, runtime, name)
  {
    assert (a + b)[|a + b| - 1] == b[|b| - 1];
  }

  lemma AskedAtOnce(t: seq<Effect>, runtime: Runtime, container: ContainerInfo)
    requires GcEffects(t, runtime, [container])
    requires |t| > 0 && (container.running <==> t[0].Stop?)
    ensures container.running ==> AskedToStop(t, container.name)
  {
    assert [container][0] == container;
  }

  lemma NothingCollected(runtime: Runtime, containers: seq<ContainerInfo>)
    ensures GcEffects([], runtime, containers)
  {
  }

  lemma DockerRemovesNothing(t: seq<Effect>, runtime: Runtime, containers: seq<ContainerInfo>)
    requires GcEffects(t, runtime, containers)
    ensures runtime.Docker? ==> forall i :: 0 <= i < |t| ==> !t[i].Remove?
  {
  }

  /**
   * `garbage_collect_managed_containers`. On success every listed container is shown gone; on an
   * error that holds for those before the failing one, and nothing after it was touched.
   */
  method GarbageCollect(port: Port, runtime: Runtime, containers: seq<ContainerInfo>)
    returns (r: Answer<Unit>, ghost done: nat, ghost t: seq<Effect>)
    modifies port
    ensures port.trace == old(port.trace) + t && port.now >= old(port.now)
    ensures r.Ok? ==> done == |containers| && GcEffects(t, runtime, containers)
    ensures r.Err? ==> done < |containers| && GcEffects(t, runtime, containers[..done + 1])
    ensures forall c :: 0 <= c < done ==> Gone(t, runtime, containers[c].name)
    ensures forall c :: 0 <= c <= done && c < |containers| && containers[c].running ==>
      AskedToStop(t, containers[c].name)
    ensures runtime.Docker? ==> forall i :: 0 <= i < |t| ==> !t[i].Remove?
    ensures r.Ok? ==> (t == [] <==> containers == [])
    ensures r.Err? ==> |t| > 0 && GcRefused(t[|t| - 1], runtime, containers[done].name) && GivenUpWith(t[|t| - 1], r.error)
    ensures r.Err? && t[|t| - 1].Exists? && t[|t| - 1].found == Ok(true) ==> port.now >= old(port.now) + 5_000
  {
    hide GcEffects, Gone, AskedToStop, GcRefused, GivenUpWith, ShowsGone;
    ghost var before := port.trace;
    t := [];
    done := 0;
    NothingCollected(runtime, containers[..0]);
    for k := 0 to |containers|
      invariant done == k
      invariant port.trace == before + t && port.now >= old(port.now)
      invariant GcEffects(t, runtime, containers[..k])
      invariant forall c :: 0 <= c < k ==> Gone(t, runtime, containers[c].name)
      invariant t == [] <==> k == 0
      invariant forall c :: 0 <= c < k && containers[c].running ==> AskedToStop(t, containers[c].name)
    {
      ghost var step, polls;
      var one;
      one, polls, step := CollectOne(port, runtime, containers[k]);
      GcEffectsAppend(t, step, runtime, containers, k);
      forall c | 0 <= c < k ensures Gone(t + step, runtime, containers[c].name) {
        GoneAppend(t, step, runtime, containers[c].name);
      }
      if one.Ok? {
        GoneAtEnd(t, step, runtime, containers[k].name);
      }
      AskedAtOnce(step, runtime, containers[k]);
      forall c | 0 <= c <= k && containers[c].running ensures AskedToStop(t + step, containers[c].name) {
        AskedAppend(t, step, containers[c].name);
      }
      assert (t + step)[|t + step| - 1] == step[|step| - 1];
      t := t + step;
      if one.Err? {
        DockerRemovesNothing(t, runtime, containers[..k + 1]);
        return one, done, t;
      }
      done := done + 1;
    }
    assert containers[..|containers|] == containers;
    DockerRemovesNothing(t, runtime, containers);
    return Ok(Unit), done, t;
  }

  // ----- Orphans -----

  predicate AllGone(t: seq<Effect>, runtime: Runtime, containers: seq<ContainerInfo>) {
    forall c :: 0 <= c < |containers| ==> Gone(t, runtime, containers[c].name)
  }

  predicate AllAsked(t: seq<Effect>, containers: seq<ContainerInfo>) {
    forall c :: 0 <= c < |containers| && containers[c].running ==> AskedToStop(t, containers[c].name)
  }

  /** What success means: unless skipped, the orphans were listed, and dealt with as the policy asks. */
  predicate OrphansHandled(t: seq<Effect>, runtime: Runtime, scope: Scope, policy: OrphanPolicy) {
    if policy.SkipDuringSetup? then t == [] else
      && |t| > 0 && t[0].ListManaged? && t[0].scope == scope && t[0].listed.Ok?
      && (t[0].listed == Ok([]) <==> |t| == 1)
      && (policy.FailClosed? ==> t[0].listed == Ok([]))
      && AllGone(t, runtime, t[0].listed.value) && AllAsked(t, t[0].listed.value)
  }

  /**
   * What an error means: the listing failed; or there are orphans and the policy is to refuse; or it
   * is to collect them, and the stop, the wait or the remove of one of them was refused, after those
   * listed before it were gone.
   */
  predicate OrphansRefused(t: seq<Effect>, runtime: Runtime, scope: Scope, policy: OrphanPolicy,
                           error: ContainerError) {
    && !policy.SkipDuringSetup? && |t| > 0 && t[0].ListManaged? && t[0].scope == scope
    && match t[0].listed
       case Err(failure) => |t| == 1 && error == failure
       case Ok(containers) =>
         && containers != []
         && (policy.FailClosed? ==> |t| == 1 && error == OrphansFound(containers))
         && (policy.GarbageCollectExplicitly? ==>
               && (exists c :: 0 <= c < |containers| && CollectionFailed(t, runtime, containers, c))
               && GivenUpWith(t[|t| - 1], error))
  }

  /** The last effect is a refusal concerning container `c`; those before it are gone, and it was stopped if it ran. */
  predicate CollectionFailed(t: seq<Effect>, runtime: Runtime, containers: seq<ContainerInfo>, c: nat)
    requires c < |containers|
  {
    && |t| > 1 && GcRefused(t[|t| - 1], runtime, containers[c].name)
    && AllGone(t, runtime, containers[..c]) && AllAsked(t, containers[..c + 1])
  }

  /** `maybe_handle_managed_container_orphans`. */
  method HandleOrphans(port: Port, runtime: Runtime, scope: Scope, policy: OrphanPolicy)
    returns (r: Answer<Unit>, ghost t: seq<Effect>)
    modifies port
    ensures port.trace == old(port.trace) + t && port.now >= old(port.now)
    ensures OnlyListedTouched(t, scope) && NoRun(t)
    ensures !policy.GarbageCollectExplicitly? ==> NoneDestructive(t)
    ensures r.Ok? ==> OrphansHandled(t, runtime, scope, policy)
    ensures r.Err? ==> OrphansRefused(t, runtime, scope, policy, r.error)
    ensures r.Err? && t[|t| - 1].Exists? && t[|t| - 1].found == Ok(true) ==> port.now >= old(port.now) + 5_000
  {
    t := [];
    if policy.SkipDuringSetup? {
      return Ok(Unit), t;
    }
    var listed := port.ListManaged(scope);
    t := [ListManaged(scope, listed)];
    if listed.Err? {
      return Err(listed.error), t;
    }
    if listed.value == [] {
      return Ok(Unit), t;
    }
    if policy.FailClosed? {
      return Err(OrphansFound(listed.value)), t;
    }
    ghost var collected, done;
    r, done, collected := GarbageCollect(port, runtime, listed.value);
    assert listed.value[..|listed.value|] == listed.value;
    GcTouchesListed(t[0], collected, runtime, scope, if r.Ok? then done else done + 1);
    CollectedAfter(t, collected, runtime, listed.value[..done]);
    AskedAfter(t, collected, if r.Ok? then listed.value else listed.value[..done + 1]);
    t := t + collected;
    if r.Err? {
      assert CollectionFailed(t, runtime, listed.value, done);
    }
  }

  lemma CollectedAfter(a: seq<Effect>, b: seq<Effect>, runtime: Runtime, containers: seq<ContainerInfo>)
    requires AllGone(b, runtime, containers)
    ensures AllGone(a + b, runtime, containers)
  {
    forall c | 0 <= c < |containers| ensures Gone(a + b, runtime, containers[c].name) {
      GoneAppend(a, b, runtime, containers[c].name);
    }
  }

  lemma AskedAfter(a: seq<Effect>, b: seq<Effect>, containers: seq<ContainerInfo>)
    requires AllAsked(b, containers)
    ensures AllAsked(a + b, containers)
  {
    forall c | 0 <= c < |containers| && containers[c].running ensures AskedToStop(a + b, containers[c].name) {
      AskedAppend(a, b, containers[c].name);
    }
  }

  /**
   * Under the explicit policy the startup is never refused for having found orphans: every error is
   * the listing's, that of a look at one of the listed containers, or reports that one of them could
   * not be stopped or removed, or did not go away.
   */
  lemma ExplicitPolicyCollects(t: seq<Effect>, runtime: Runtime, scope: Scope, error: ContainerError)
    requires OrphansRefused(t, runtime, scope, GarbageCollectExplicitly, error)
    ensures t == [ListManaged(scope, Err(error))]
      || exists c :: 0 <= c < |t[0].listed.value| && RefusedFor(t[|t| - 1], t[0].listed.value[c].name, error)
    ensures t[0] == ListManaged(scope, t[0].listed)
  {
    if t[0].listed.Ok? {
      var containers := t[0].listed.value;
      var c :| 0 <= c < |containers| && CollectionFailed(t, runtime, containers, c);
      var e := t[|t| - 1];
      assert GcRefused(e, runtime, containers[c].name) && GivenUpWith(e, error);
      if e.Exists? {
        assert e.found.Ok? ==> e.found == Ok(e.found.value) && e.found.value;
      }
      assert RefusedFor(e, containers[c].name, error);
    }
  }

  predicate RefusedFor(e: Effect, name: string, error: ContainerError) {
    || e == Exists(name, Err(error))
    || (error == Other && e == Exists(name, Ok(true)))
    || (error == Other && (e.Stop? || e.Remove?) && e.name == name && e.done.Err?)
  }

  lemma GcTouchesListed(listing: Effect, t: seq<Effect>, runtime: Runtime, scope: Scope, done: nat)
    requires listing.ListManaged? && listing.scope == scope && listing.listed.Ok?
    requires done <= |listing.listed.value| && GcEffects(t, runtime, listing.listed.value[..done])
    ensures OnlyListedTouched([listing] + t, scope) && NoRun([listing] + t)
  {
    var containers := listing.listed.value;
    var whole := [listing] + t;
    forall i | 0 <= i < |whole| && Destructive(whole[i])
      ensures Lists(whole[0], scope, whole[i].name)
    {
      assert whole[i] == t[i - 1];
      var c :| 0 <= c < done && containers[..done][c].name == t[i - 1].name;
      assert containers[c].name == whole[i].name;
    }
    forall i | 0 <= i < |whole| ensures !whole[i].RunContainer? {
      if i > 0 { assert whole[i] == t[i - 1]; }
    }
  }

  // ----- Recreating the plugin's own container -----

  /** Seen not running, or seen running and then stopped. */
  predicate Halted(t: seq<Effect>, name: string) {
    || t == [IsRunning(name, Ok(false))]
    || t == [IsRunning(name, Ok(true)), Stop(name, Ok(Unit))]
  }

  /** Halted and removed, or gone before that. */
  predicate Removed(t: seq<Effect>, name: string) {
    && |t| > 1
    && match t[|t| - 1]
       case Remove(n, done) => n == name && (done.Ok? || Vanished(done)) && Halted(t[..|t| - 1], name)
       case Stop(n, done) => n == name && Vanished(done) && t[..|t| - 1] == [IsRunning(name, Ok(true))]
       case _ => false
  }

  /** The look failed, or the stop or the remove did, and not because the container is gone. */
  predicate RemovalRefused(t: seq<Effect>, name: string, error: ContainerError) {
    && |t| > 0
    && match t[|t| - 1]
       case IsRunning(n, found) => t == [IsRunning(name, Err(error))]
       case Stop(n, done) =>
         n == name && done.Err? && !Vanished(done) && t[..|t| - 1] == [IsRunning(name, Ok(true))] && error == Other
       case Remove(n, done) =>
         n == name && done.Err? && !Vanished(done) && Halted(t[..|t| - 1], name) && error == Other
       case _ => false
  }

  /** What success means: the name is free, or taken by a foreign container, or its managed container is gone. */
  predicate Recreated(t: seq<Effect>, name: string, scope: Scope) {
    || t == [Exists(name, Ok(false))]
    || (&& |t| > 1 && t[0] == Exists(name, Ok(true)) && t[1].ListManaged? && t[1].scope == scope && t[1].listed.Ok?
        && if Lists(t[1], scope, name) then Removed(t[2..], name) else |t| == 2)
  }

  predicate RecreationRefused(t: seq<Effect>, name: string, scope: Scope, error: ContainerError) {
    || t == [Exists(name, Err(error))]
    || t == [Exists(name, Ok(true)), ListManaged(scope, Err(error))]
    || (&& |t| > 2 && t[0] == Exists(name, Ok(true)) && Lists(t[1], scope, name)
        && RemovalRefused(t[2..], name, error))
  }

  /** `recreate_existing_managed_plugin_container_if_present`. */
  method RecreateIfManaged(port: Port, name: string, scope: Scope) returns (r: Answer<Unit>, ghost t: seq<Effect>)
    modifies port
    ensures port.trace == old(port.trace) + t && port.now >= old(port.now)
    ensures OnlyListedTouched(t, scope) && OnlyTouches(t, name) && NoRun(t)
    ensures !NoneDestructive(t) ==> |t| > 2 && t[0] == Exists(name, Ok(true)) && Lists(t[1], scope, name)
    ensures r.Ok? ==> Recreated(t, name, scope)
    ensures r.Err? ==> RecreationRefused(t, name, scope, r.error)
  {
    hide Removed, RemovalRefused;
    var found := port.Exists(name);
    t := [Exists(name, found)];
    if found.Err? {
      return Err(found.error), t;
    }
    if !found.value {
      return Ok(Unit), t;
    }
    var listed := port.ListManaged(scope);
    t := t + [ListManaged(scope, listed)];
    if listed.Err? {
      return Err(listed.error), t;
    }
    if !(exists c :: 0 <= c < |listed.value| && listed.value[c].name == name) {
      return Ok(Unit), t;
    }
    assert Lists(t[1], scope, name);
    ghost var rest;
    ghost var seen := t;
    r, rest := StopAndRemove(port, name);
    t := t + rest;
    forall i | 0 <= i < |t| && Destructive(t[i]) ensures i > 1 && t[i].name == name {
      assert t[i] == rest[i - |seen|];
    }
    assert t[1] == seen[1];
    assert t[2..] == rest;
  }

  /** Stop the container if it runs, then remove it; that it has vanished meanwhile is no error. */
  method StopAndRemove(port: Port, name: string) returns (r: Answer<Unit>, ghost t: seq<Effect>)
    modifies port
    ensures port.trace == old(port.trace) + t && port.now >= old(port.now)
    ensures NoRun(t) && OnlyTouches(t, name) && |t| > 0
    ensures r.Ok? ==> Removed(t, name)
    ensures r.Err? ==> RemovalRefused(t, name, r.error)
  {
    hide NotFoundText;
    var running := port.IsRunning(name);
    t := [IsRunning(name, running)];
    if running.Err? {
      return Err(running.error), t;
    }
    if running.value {
      var stopped := port.Stop(name);
      t := t + [Stop(name, stopped)];
      if stopped.Err? {
        if Vanished(stopped) {
          return Ok(Unit), t;
        }
        return Err(Other), t;
      }
      assert stopped.value.Unit?;
    }
    assert Halted(t, name);
    var removed := port.Remove(name);
    ghost var halted := t;
    t := t + [Remove(name, removed)];
    assert t[..|t| - 1] == halted;
    if removed.Ok? || Vanished(removed) {
      return Ok(Unit), t;
    }
    return Err(Other), t;
  }

  // ----- Verifying that a started container is reachable -----

  function Target(mapping: PortMapping, override: Option<string>): (string, nat) {
    if override.Some? then (override.value, mapping.containerPort) else (mapping.hostAddress, mapping.hostPort)
  }

  /** The probes of `mappings`, all answered `true`. */
  function OpenProbes(mappings: seq<PortMapping>, override: Option<string>): seq<Effect> {
    if |mappings| == 0 then []
    else
      var last := Target(mappings[|mappings| - 1], override);
      OpenProbes(mappings[..|mappings| - 1], override) + [Probe(last.0, last.1, true)]
  }

  /** With a discovered address the container's own ports are probed there, otherwise the published ones. */
  lemma {:induction false} OpenProbesAt(mappings: seq<PortMapping>, override: Option<string>, k: nat)
    requires k < |mappings|
    ensures |OpenProbes(mappings, override)| == |mappings|
    ensures OpenProbes(mappings, override)[k] ==
      match override
      case None => Probe(mappings[k].hostAddress, mappings[k].hostPort, true)
      case Some(address) => Probe(address, mappings[k].containerPort, true)
  {
    var rest := mappings[..|mappings| - 1];
    if k < |rest| {
      OpenProbesAt(rest, override, k);
    } else if |rest| > 0 {
      OpenProbesAt(rest, override, 0);
    }
  }

  /** The probes of the first mappings, all open, and then one that was closed. */
  predicate StoppedAtClosed(t: seq<Effect>, mappings: seq<PortMapping>, override: Option<string>) {
    exists k {:trigger mappings[..k]} ::
      0 <= k < |mappings| && t == OpenProbes(mappings[..k], override) + [ClosedProbe(mappings[k], override)]
  }

  function ClosedProbe(mapping: PortMapping, override: Option<string>): Effect {
    Probe(Target(mapping, override).0, Target(mapping, override).1, false)
  }

  /** The trace ends with the container seen running and then every port open. */
  predicate EndsReachable(t: seq<Effect>, name: string, mappings: seq<PortMapping>, override: Option<string>) {
    exists k {:trigger t[k..]} ::
      0 <= k <= |t| && t[k..] == [IsRunning(name, Ok(true))] + OpenProbes(mappings, override)
  }

  lemma ReachableAfter(a: seq<Effect>, b: seq<Effect>, name: string, mappings: seq<PortMapping>,
                       override: Option<string>)
    ensures EndsReachable(b, name, mappings, override) ==> EndsReachable(a + b, name, mappings, override)
  {
    if k :| 0 <= k <= |b| && b[k..] == [IsRunning(name, Ok(true))] + OpenProbes(mappings, override) {
      assert (a + b)[|a| + k..] == b[k..];
    }
  }

  /** `ports_ready`: probes in order, up to the first closed port. */
  method PortsReady(port: Port, mappings: seq<PortMapping>, override: Option<string>)
    returns (ready: bool, ghost t: seq<Effect>)
    modifies port
    ensures port.trace == old(port.trace) + t && port.now >= old(port.now)
    ensures ready ==> t == OpenProbes(mappings, override)
    ensures !ready ==> StoppedAtClosed(t, mappings, override)
  {
    ghost var before := port.trace;
    t := [];
    for k := 0 to |mappings|
      invariant port.trace == before + t && port.now >= old(port.now)
      invariant t == OpenProbes(mappings[..k], override)
    {
      var (host, number) := Target(mappings[k], override);
      var open := port.Probe(host, number);
      if !open {
        assert ClosedProbe(mappings[k], override) == Probe(host, number, false);
        t := t + [Probe(host, number, false)];
        return false, t;
      }
      assert mappings[..k + 1][..k] == mappings[..k];
      t := t + [Probe(host, number, true)];
    }
    assert mappings[..|mappings|] == mappings;
    return true, t;
  }

  /** Effects that only look. */
  predicate OnlyLooks(t: seq<Effect>) {
    forall i :: 0 <= i < |t| ==> t[i].IsRunning? || t[i].Probe? || t[i].Sleep? || t[i].LogsTail?
  }

  lemma {:induction false} ProbesOnlyLook(mappings: seq<PortMapping>, override: Option<string>)
    ensures OnlyLooks(OpenProbes(mappings, override))
  {
    if |mappings| > 0 {
      ProbesOnlyLook(mappings[..|mappings| - 1], override);
    }
  }

  /** `next` is the least start + k * interval, k >= 1, that lies beyond `checked`. */
  predicate NextMark(start: nat, checked: nat, next: nat) {
    && (next - start) % 5_000 == 0
    && start < next
    && checked < next
    && (next - 5_000 <= start || next - 5_000 <= checked)
  }

  /** A round that saw the container running and then a closed port. */
  predicate ClosedRound(t: seq<Effect>, name: string, mappings: seq<PortMapping>, override: Option<string>) {
    |t| > 0 && t[0] == IsRunning(name, Ok(true)) && StoppedAtClosed(t[1..], mappings, override)
  }

  /** A round that saw the container not running, or could not see it. */
  predicate DownRound(t: seq<Effect>, name: string, error: ContainerError) {
    || t == [IsRunning(name, Err(error))]
    || (t == [IsRunning(name, Ok(false)), LogsTail(name)] && error == StartupFailed)
  }

  /** That many rounds met a closed port, each followed by a sleep. */
  predicate KeptClosed(t: seq<Effect>, name: string, mappings: seq<PortMapping>, override: Option<string>,
                       pollInterval: nat, rounds: nat) {
    if rounds == 0 then t == [] else
      exists k {:trigger t[..k]} ::
        && 0 <= k < |t| && KeptClosed(t[..k], name, mappings, override, pollInterval, rounds - 1)
        && ClosedRound(t[k..|t| - 1], name, mappings, override) && t[|t| - 1] == Sleep(pollInterval)
  }

  lemma OneMoreRound(earlier: seq<Effect>, round: seq<Effect>, name: string, mappings: seq<PortMapping>,
                     override: Option<string>, pollInterval: nat, rounds: nat)
    requires KeptClosed(earlier, name, mappings, override, pollInterval, rounds)
    requires ClosedRound(round, name, mappings, override)
    ensures KeptClosed(earlier + round + [Sleep(pollInterval)], name, mappings, override, pollInterval, rounds + 1)
  {
    hide ClosedRound;
    var t := earlier + round + [Sleep(pollInterval)];
    assert t[..|earlier|] == earlier && t[|earlier|..|t| - 1] == round;
  }

  /** One round: Ok(true) if the container runs and every port is open, Ok(false) if a port is closed. */
  method ProbeRound(port: Port, name: string, mappings: seq<PortMapping>, override: Option<string>)
    returns (r: Answer<bool>, ghost t: seq<Effect>)
    modifies port
    ensures port.trace == old(port.trace) + t && port.now >= old(port.now)
    ensures OnlyLooks(t)
    ensures r == Ok(true) ==> t == [IsRunning(name, Ok(true))] + OpenProbes(mappings, override)
    ensures r == Ok(false) ==> ClosedRound(t, name, mappings, override)
    ensures r.Err? ==> DownRound(t, name, r.error)
  {
    hide OpenProbes, StoppedAtClosed;
    var running := port.IsRunning(name);
    t := [IsRunning(name, running)];
    if running.Err? {
      return Err(running.error), t;
    }
    if !running.value {
      port.LogsTail(name);
      t := t + [LogsTail(name)];
      return Err(StartupFailed), t;
    }
    var ready;
    ghost var probes;
    ready, probes := PortsReady(port, mappings, override);
    ProbesOnlyLook(mappings, override);
    if !ready {
      FailedProbesOnlyLook(mappings, override, probes);
    }
    t := t + probes;
    assert t[1..] == probes;
    return Ok(ready), t;
  }

  lemma FailedProbesOnlyLook(mappings: seq<PortMapping>, override: Option<string>, t: seq<Effect>)
    requires StoppedAtClosed(t, mappings, override)
    ensures OnlyLooks(t) && |t| > 0 && t[|t| - 1].Probe?
  {
    var k :|
      0 <= k < |mappings| && t == OpenProbes(mappings[..k], override) + [ClosedProbe(mappings[k], override)];
    ProbesOnlyLook(mappings[..k], override);
  }

  /** The inner loop over the progress marks. */
  method NextProgressLog(start: nat, next: nat, now: nat) returns (r: nat)
    requires start < next <= now && (next - start) % STARTUP_PROGRESS_LOG_INTERVAL == 0
    ensures NextMark(start, now, r)
  {
    r := next;
    while r <= now
      invariant start < r
      invariant (r - start) % STARTUP_PROGRESS_LOG_INTERVAL == 0
      invariant r - STARTUP_PROGRESS_LOG_INTERVAL <= now
    {
      r := r + STARTUP_PROGRESS_LOG_INTERVAL;
    }
  }

  /** The last round of a startup that failed: seen down, or a closed port and then the logs. */
  predicate LastRoundFailed(t: seq<Effect>, name: string, mappings: seq<PortMapping>, override: Option<string>,
                            error: ContainerError) {
    || DownRound(t, name, error)
    || (&& |t| > 0 && t[|t| - 1] == LogsTail(name) && ClosedRound(t[..|t| - 1], name, mappings, override)
        && error == StartupFailed)
  }

  /** The trace ends with the logs, asked for after a closed port. */
  predicate GaveUpWaiting(t: seq<Effect>) {
    |t| > 1 && t[|t| - 1].LogsTail? && t[|t| - 2].Probe?
  }

  /**
   * `verify_startup`. The effects are rounds that met a closed port, each followed by one poll
   * interval, and a last round: the container running and every port open; or the container down; or
   * a closed port once the timeout has passed. The progress mark is always the next one due.
   */
  method VerifyStartup(port: Port, name: string, mappings: seq<PortMapping>, override: Option<string>,
                       settings: ProbeSettings)
    returns (r: Answer<Unit>, rounds: nat, ghost earlier: seq<Effect>, ghost last: seq<Effect>)
    requires settings.pollInterval > 0
    modifies port
    ensures port.trace == old(port.trace) + (earlier + last) && port.now >= old(port.now)
    ensures OnlyLooks(earlier + last)
    ensures 1 <= rounds <= MaxAttempts(settings.timeout, settings.pollInterval) + 1
    ensures KeptClosed(earlier, name, mappings, override, settings.pollInterval, rounds - 1)
    ensures r.Ok? ==> last == [IsRunning(name, Ok(true))] + OpenProbes(mappings, override)
    ensures r.Err? ==> LastRoundFailed(last, name, mappings, override, r.error)
    ensures r.Err? && GaveUpWaiting(earlier + last) ==> port.now >= old(port.now) + settings.timeout
  {
    hide OpenProbes, StoppedAtClosed, OnlyLooks, MaxAttempts, KeptClosed, ClosedRound, DownRound, GaveUpWaiting;
    ghost var before := port.trace;
    var startedAt: nat := port.now;
    var deadline: nat := startedAt + settings.timeout;
    var nextProgressLog: nat := startedAt + STARTUP_PROGRESS_LOG_INTERVAL;
    ghost var checked: nat := startedAt;
    rounds := 0;
    earlier := [];
    NothingYet(name, mappings, override, settings.pollInterval);
    while true
      invariant port.trace == before + earlier
      invariant OnlyLooks(earlier)
      invariant KeptClosed(earlier, name, mappings, override, settings.pollInterval, rounds)
      invariant NextMark(startedAt, checked, nextProgressLog) && startedAt <= checked <= port.now
      invariant port.now >= startedAt + rounds * settings.pollInterval
      invariant rounds <= MaxAttempts(settings.timeout, settings.pollInterval)
      decreases deadline - port.now
    {
      var ready;
      ready, last := ProbeRound(port, name, mappings, override);
      LooksAfter(earlier, last);
      if ready.Err? {
        DownIsNotWaiting(earlier, last, name, ready.error);
        return Err(ready.error), rounds + 1, earlier, last;
      }
      if ready.value {
        return Ok(Unit), rounds + 1, earlier, last;
      }
      var now: nat := port.now;
      if now >= deadline {
        port.LogsTail(name);
        LooksOnce(last, LogsTail(name));
        LooksAfter(earlier, last + [LogsTail(name)]);
        assert (last + [LogsTail(name)])[..|last|] == last;
        assert earlier + last + [LogsTail(name)] == earlier + (last + [LogsTail(name)]);
        return Err(StartupFailed), rounds + 1, earlier, last + [LogsTail(name)];
      }
      if now >= nextProgressLog {
        nextProgressLog := NextProgressLog(startedAt, nextProgressLog, now);
      }
      checked := now;
      AttemptsBound(rounds, settings.pollInterval, settings.timeout);
      OneMoreRound(earlier, last, name, mappings, override, settings.pollInterval, rounds);
      rounds := rounds + 1;
      port.Sleep(settings.pollInterval);
      LooksOnce(earlier + last, Sleep(settings.pollInterval));
      earlier := earlier + last + [Sleep(settings.pollInterval)];
    }
  }

  lemma NothingYet(name: string, mappings: seq<PortMapping>, override: Option<string>, pollInterval: nat)
    ensures OnlyLooks([]) && KeptClosed([], name, mappings, override, pollInterval, 0)
  {
  }

  lemma LooksOnce(t: seq<Effect>, e: Effect)
    requires OnlyLooks(t) && (e.LogsTail? || e.Sleep?)
    ensures OnlyLooks(t + [e])
  {
  }

  lemma LooksAfter(a: seq<Effect>, b: seq<Effect>)
    requires OnlyLooks(a) && OnlyLooks(b)
    ensures OnlyLooks(a + b)
  {
  }

  lemma DownIsNotWaiting(earlier: seq<Effect>, last: seq<Effect>, name: string, error: ContainerError)
    requires DownRound(last, name, error)
    ensures !GaveUpWaiting(earlier + last)
  {
    var t := earlier + last;
    assert t[|t| - 1] == last[|last| - 1];
    assert |last| > 1 ==> t[|t| - 2] == last[|last| - 2];
  }

  // ----- The use case and the two startups -----

  /** The image was seen, at once or after it was pulled. */
  predicate ImageSeen(t: seq<Effect>, image: string) {
    || t == [ImageExists(image, Ok(true))]
    || t == [ImageExists(image, Ok(false)), PullImage(image, Ok(Unit)), ImageExists(image, Ok(true))]
  }

  /** A look or the pull failed, or the image was still absent after it was pulled. */
  predicate ImageRefused(t: seq<Effect>, image: string, error: ContainerError) {
    || t == [ImageExists(image, Err(error))]
    || t == [ImageExists(image, Ok(false)), PullImage(image, Err(error))]
    || t == [ImageExists(image, Ok(false)), PullImage(image, Ok(Unit)), ImageExists(image, Err(error))]
    || (error == ImageNotFound
        && t == [ImageExists(image, Ok(false)), PullImage(image, Ok(Unit)), ImageExists(image, Ok(false))])
  }

  /** The image is present, or is pulled and then present. */
  method EnsureImage(port: Port, image: string) returns (r: Answer<Unit>, ghost t: seq<Effect>)
    modifies port
    ensures port.trace == old(port.trace) + t && port.now >= old(port.now)
    ensures NoneDestructive(t) && NoRun(t)
    ensures r.Ok? ==> ImageSeen(t, image)
    ensures r.Err? ==> ImageRefused(t, image, r.error)
  {
    var found := port.ImageExists(image);
    t := [ImageExists(image, found)];
    if found.Err? {
      return Err(found.error), t;
    }
    if !found.value {
      var pulled := port.PullImage(image);
      t := t + [PullImage(image, pulled)];
      if pulled.Err? {
        return Err(pulled.error), t;
      }
      assert pulled.value.Unit?;
      found := port.ImageExists(image);
      t := t + [ImageExists(image, found)];
      if found.Err? {
        return Err(found.error), t;
      }
      if !found.value {
        return Err(ImageNotFound), t;
      }
    }
    return Ok(Unit), t;
  }

  /** The name was seen free, and internal networks were validated if the container is isolated. */
  predicate Vetted(t: seq<Effect>, config: ContainerConfig) {
    if config.isolation.NotIsolated? then t == [Exists(config.name, Ok(false))]
    else t == [Exists(config.name, Ok(false)), ValidateNetwork(Ok(Unit))]
  }

  predicate Prepared(t: seq<Effect>, config: ContainerConfig) {
    |t| > 0 && Vetted(t[..|t| - 1], config) && t[|t| - 1] == NetworkReady(config)
  }

  /** The name was taken, or one of the checks failed. */
  predicate PreparationRefused(t: seq<Effect>, config: ContainerConfig, error: ContainerError) {
    || t == [Exists(config.name, Err(error))]
    || (t == [Exists(config.name, Ok(true))] && error == Conflict)
    || (!config.isolation.NotIsolated? && t == [Exists(config.name, Ok(false)), ValidateNetwork(Err(error))])
    || (&& |t| > 0 && Vetted(t[..|t| - 1], config)
        && t[|t| - 1] == EnsureNetwork(config.network, !config.isolation.NotIsolated?, Err(error)))
  }

  /** The checks between the image and the run. */
  method PrepareRun(port: Port, config: ContainerConfig) returns (r: Answer<Unit>, ghost t: seq<Effect>)
    modifies port
    ensures port.trace == old(port.trace) + t && port.now >= old(port.now)
    ensures NoneDestructive(t) && NoRun(t) && |t| > 0
    ensures r.Ok? ==> Prepared(t, config)
    ensures r.Err? ==> PreparationRefused(t, config, r.error)
  {
    var exists_ := port.Exists(config.name);
    t := [Exists(config.name, exists_)];
    if exists_.Err? {
      return Err(exists_.error), t;
    }
    if exists_.value {
      return Err(Conflict), t;
    }
    if !config.isolation.NotIsolated? {
      var valid := port.ValidateNetwork();
      t := t + [ValidateNetwork(valid)];
      if valid.Err? {
        return Err(valid.error), t;
      }
      assert valid.value.Unit?;
    }
    ghost var vetted := t;
    var network := port.EnsureNetwork(config.network, !config.isolation.NotIsolated?);
    t := t + [EnsureNetwork(config.network, !config.isolation.NotIsolated?, network)];
    assert t[..|t| - 1] == vetted;
    if network.Err? {
      return Err(network.error), t;
    }
    assert network.value.Unit?;
    return Ok(Unit), t;
  }

  lemma PreparedIsCleared(t: seq<Effect>, config: ContainerConfig)
    requires Prepared(t, config)
    ensures |t| >= 2 && ClearedBetween(t, config, 0, |t| - 1)
  {
  }

  /** The address that was asked for and reported, if the strategy is to discover it. */
  function AddressSeen(t: seq<Effect>, config: ContainerConfig): Option<string> {
    if config.isolation.DiscoverContainerIp? && |t| > 0 && t[0].GetIp? && t[0].ip.Ok? then t[0].ip.value else None
  }

  /** An address was seen if and only if one was to be discovered, and then the container and its ports. */
  predicate Verified(t: seq<Effect>, config: ContainerConfig, id: string, ip: Option<string>) {
    && ip == AddressSeen(t, config)
    && (if config.isolation.DiscoverContainerIp? then |t| > 0 && ip.Some? && t[0] == GetIp(id, Ok(ip)) else ip.None?)
    && EndsReachable(t, id, config.ports, ip)
  }

  /** No address was reported, or the last probing round failed. */
  predicate VerificationRefused(t: seq<Effect>, config: ContainerConfig, id: string, error: ContainerError) {
    || (&& config.isolation.DiscoverContainerIp? && |t| == 2 && t[0].GetIp? && t[0].name == id
        && (t[0].ip.Err? || t[0].ip == Ok(None)) && t[1] == LogsTail(id) && error == StartupFailed)
    || (&& (config.isolation.DiscoverContainerIp? ==> |t| > 0 && t[0].GetIp? && AddressSeen(t, config).Some?)
        && EndsFailing(t, id, config.ports, AddressSeen(t, config), error))
  }

  predicate EndsFailing(t: seq<Effect>, name: string, mappings: seq<PortMapping>, override: Option<string>,
                        error: ContainerError) {
    exists k {:trigger t[k..]} :: 0 <= k <= |t| && LastRoundFailed(t[k..], name, mappings, override, error)
  }

  lemma FailingAfter(a: seq<Effect>, b: seq<Effect>, name: string, mappings: seq<PortMapping>,
                     override: Option<string>, error: ContainerError)
    requires LastRoundFailed(b, name, mappings, override, error)
    ensures EndsFailing(a + b, name, mappings, override, error)
  {
    hide LastRoundFailed;
    assert (a + b)[|a|..] == b;
  }

  lemma LooksAreHarmless(t: seq<Effect>)
    requires OnlyLooks(t)
    ensures NoneDestructive(t) && NoRun(t)
  {
  }

  /** IP discovery and the reachability probe. */
  method AfterRun(port: Port, config: ContainerConfig, id: string, settings: ProbeSettings)
    returns (r: Answer<Option<string>>, ghost t: seq<Effect>)
    requires settings.pollInterval > 0
    modifies port
    ensures port.trace == old(port.trace) + t && port.now >= old(port.now)
    ensures NoneDestructive(t) && NoRun(t) && |t| > 0
    ensures r.Ok? ==> Verified(t, config, id, r.value)
    ensures r.Err? ==> VerificationRefused(t, config, id, r.error)
    ensures r.Err? && GaveUpWaiting(t) ==> port.now >= old(port.now) + settings.timeout
  {
    hide OpenProbes, OnlyLooks, EndsReachable, MaxAttempts, KeptClosed, LastRoundFailed, EndsFailing;
    t := [];
    var ip := None;
    if config.isolation.DiscoverContainerIp? {
      var answer := port.GetIp(id);
      t := t + [GetIp(id, answer)];
      if answer.Err? || answer.value.None? {
        port.LogsTail(id);
        t := t + [LogsTail(id)];
        return Err(StartupFailed), t;
      }
      ip := answer.value;
    }
    ghost var asked, earlier, last := t, [], [];
    var rounds, verified;
    verified, rounds, earlier, last := VerifyStartup(port, id, config.ports, ip, settings);
    LooksAreHarmless(earlier + last);
    t := t + (earlier + last);
    assert t == (asked + earlier) + last;
    if verified.Err? {
      FailingAfter(asked + earlier, last, id, config.ports, ip, verified.error);
      WaitingAtEnd(asked, earlier, last, id, config.ports, ip, verified.error);
      return Err(verified.error), t;
    }
    ReachableNow(asked + earlier, last, id, config.ports, ip);
    return Ok(ip), t;
  }

  lemma ReachableNow(a: seq<Effect>, b: seq<Effect>, name: string, mappings: seq<PortMapping>, override: Option<string>)
    requires b == [IsRunning(name, Ok(true))] + OpenProbes(mappings, override)
    ensures EndsReachable(a + b, name, mappings, override) && |b| > 0
  {
    assert (a + b)[|a|..] == b;
  }

  /** Whether the trace ends in giving up is decided by the verification's own effects. */
  lemma WaitingAtEnd(asked: seq<Effect>, earlier: seq<Effect>, last: seq<Effect>, name: string,
                     mappings: seq<PortMapping>, override: Option<string>, error: ContainerError)
    requires LastRoundFailed(last, name, mappings, override, error)
    ensures GaveUpWaiting(asked + (earlier + last)) ==> GaveUpWaiting(earlier + last)
    ensures |last| > 0
  {
    hide StoppedAtClosed;
    var t := asked + (earlier + last);
    assert t[|t| - 1] == last[|last| - 1];
    if |last| > 1 {
      assert t[|t| - 2] == last[|last| - 2] == (earlier + last)[|earlier + last| - 2];
    }
  }

  /** The effects of `ensure` by phase: the image, the checks, the run itself, and what follows it. */
  datatype Phases = Phases(image: seq<Effect>, checks: seq<Effect>, run: seq<Effect>, after: seq<Effect>) {
    function Trace(): seq<Effect> {
      image + checks + run + after
    }
  }

  /** What success means, phase by phase. */
  predicate Started(s: Phases, config: ContainerConfig, ip: Option<string>) {
    && ImageSeen(s.image, config.image) && Prepared(s.checks, config)
    && |s.run| == 1 && s.run[0].RunContainer? && s.run[0].name == config.name && s.run[0].id.Ok?
    && Verified(s.after, config, s.run[0].id.value, ip)
  }

  /** What an error means: every phase before some one succeeded, that one was refused, and none follows. */
  predicate StartRefused(s: Phases, config: ContainerConfig, error: ContainerError) {
    if s.checks == [] then
      ImageRefused(s.image, config.image, error) && s.run == s.after == []
    else if s.run == [] then
      ImageSeen(s.image, config.image) && PreparationRefused(s.checks, config, error) && s.after == []
    else
      && ImageSeen(s.image, config.image) && Prepared(s.checks, config)
      && |s.run| == 1 && s.run[0].RunContainer? && s.run[0].name == config.name
      && match s.run[0].id
         case Err(failure) => failure == error && s.after == []
         case Ok(id) => VerificationRefused(s.after, config, id, error)
  }

  /** `EnsureContainerUseCase::ensure`. */
  method Ensure(port: Port, config: ContainerConfig, settings: ProbeSettings)
    returns (r: Answer<Option<string>>, ghost s: Phases)
    requires settings.pollInterval > 0
    modifies port
    ensures port.trace == old(port.trace) + s.Trace() && port.now >= old(port.now)
    ensures NoneDestructive(s.Trace()) && RunGuarded(s.Trace(), config)
    ensures r.Ok? ==> Started(s, config, r.value)
    ensures r.Err? ==> StartRefused(s, config, r.error)
    ensures r.Err? && GaveUpWaiting(s.after) ==> port.now >= old(port.now) + settings.timeout
  {
    hide RunGuarded, ImageSeen, ImageRefused, Prepared, PreparationRefused, Verified, VerificationRefused;
    s := Phases([], [], [], []);
    var imageReady;
    ghost var images, checks, rest := [], [], [];
    imageReady, images := EnsureImage(port, config.image);
    s := s.(image := images);
    assert s.Trace() == images;
    if imageReady.Err? {
      NoRunIsGuarded(images, config);
      return Err(imageReady.error), s;
    }
    var ready;
    ready, checks := PrepareRun(port, config);
    s := s.(checks := checks);
    assert s.Trace() == images + checks;
    if ready.Err? {
      NoRunIsGuarded(images + checks, config);
      return Err(ready.error), s;
    }
    var id := port.RunContainer(config.name);
    s := s.(run := [RunContainer(config.name, id)]);
    ghost var started := images + checks + [RunContainer(config.name, id)];
    assert s.Trace() == started;
    RunAfterChecks(images, checks, config, id);
    if id.Err? {
      return Err(id.error), s;
    }
    r, rest := AfterRun(port, config, id.value, settings);
    s := s.(after := rest);
    assert s.Trace() == started + rest;
    RunGuardedBefore(started, rest, config);
  }

  lemma RunAfterChecks(images: seq<Effect>, checks: seq<Effect>, config: ContainerConfig, id: Answer<string>)
    requires NoRun(images) && NoRun(checks)
    requires ImageSeen(images, config.image) && Prepared(checks, config)
    ensures RunGuarded(images + checks + [RunContainer(config.name, id)], config)
  {
    PreparedIsCleared(checks, config);
    var t := images + checks + [RunContainer(config.name, id)];
    assert t[|images| - 1] == images[|images| - 1];
    assert t[|images|] == checks[0] && t[|images| + |checks| - 1] == checks[|checks| - 1];
    assert t[|images| + |checks| - 2] == checks[|checks| - 2];
    assert ClearedBetween(t, config, |images|, |images| + |checks| - 1);
    forall i | 0 <= i < |t| - 1 ensures !t[i].RunContainer? {
      if i < |images| { assert t[i] == images[i]; } else { assert t[i] == checks[i - |images|]; }
    }
  }

  lemma RunGuardedBefore(a: seq<Effect>, b: seq<Effect>, config: ContainerConfig)
    requires RunGuarded(a, config) && NoRun(b)
    ensures RunGuarded(a + b, config)
  {
    var t := a + b;
    forall i | 0 <= i < |t| && t[i].RunContainer?
      ensures t[i].name == config.name && Cleared(t, config, i)
    {
      assert i < |a|;
      var x, y, z :|
        0 <= x < y < z < i && a[x] == ImageExists(config.image, Ok(true)) && ClearedBetween(a, config, y, z);
      assert t[x] == a[x] && ClearedBetween(t, config, y, z);
    }
    forall i, j | 0 <= i < j < |t| ensures !(t[i].RunContainer? && t[j].RunContainer?) {
      if j < |a| { assert t[i] == a[i] && t[j] == a[j]; } else { assert t[j] == b[j - |a|]; }
    }
  }

  /** The effects of a startup that may not have begun. */
  function Effects(start: Option<Phases>): seq<Effect> {
    if start.Some? then start.value.Trace() else []
  }

  /**
   * `ensure_mcp_container`: first the orphans, and only after they were handled as the policy asks the
   * startup proper. Only containers listed for this installation and role are stopped or removed,
   * none without the explicit policy, and the run is guarded.
   */
  method EnsureVaultContainer(port: Port, runtime: Runtime, config: ContainerConfig, scope: Scope,
                              policy: OrphanPolicy)
    returns (r: Answer<Option<string>>, ghost orphans: seq<Effect>, ghost start: Option<Phases>)
    modifies port
    ensures port.trace == old(port.trace) + (orphans + Effects(start)) && port.now >= old(port.now)
    ensures OnlyListedTouched(orphans + Effects(start), scope) && RunGuarded(orphans + Effects(start), config)
    ensures NoRun(orphans) && NoneDestructive(Effects(start))
    ensures !policy.GarbageCollectExplicitly? ==> NoneDestructive(orphans)
    ensures start.Some? ==> OrphansHandled(orphans, runtime, scope, policy)
    ensures start.None? ==> r.Err? && OrphansRefused(orphans, runtime, scope, policy, r.error)
    ensures r.Ok? ==> Started(start.value, config, r.value)
    ensures r.Err? && start.Some? ==> StartRefused(start.value, config, r.error)
    ensures r.Err? && start.Some? && GaveUpWaiting(start.value.after) ==> port.now >= old(port.now) + 120_000
    ensures start.None? && orphans[|orphans| - 1].Exists? && orphans[|orphans| - 1].found == Ok(true) ==>
      port.now >= old(port.now) + 5_000
  {
    hide RunGuarded, OnlyListedTouched, NoRun, NoneDestructive, OrphansHandled, Started, StartRefused,
      GaveUpWaiting, GcRefused, AllGone, AllAsked;
    start := None;
    var handled;
    handled, orphans := HandleOrphans(port, runtime, scope, policy);
    NothingDone(config, scope);
    if handled.Err? {
      RunGuardedAfter(orphans, [], config);
      assert orphans + [] == orphans;
      r := Err(handled.error);
      return;
    }
    ghost var phases := Phases([], [], [], []);
    r, phases := Ensure(port, config, DEFAULT_PROBE);
    start := Some(phases);
    HarmlessIsListed(phases.Trace(), scope);
    OnlyListedTouchedAppend(orphans, phases.Trace(), scope);
    RunGuardedAfter(orphans, phases.Trace(), config);
  }

  lemma NothingDone(config: ContainerConfig, scope: Scope)
    ensures OnlyListedTouched([], scope) && RunGuarded([], config) && NoRun([]) && NoneDestructive([])
  {
  }

  lemma HarmlessIsListed(t: seq<Effect>, scope: Scope)
    requires NoneDestructive(t)
    ensures OnlyListedTouched(t, scope)
  {
  }

  /**
   * `ensure_plugin_mcp_container`, from the host port on (`hostPort` is None when none could be
   * picked, which ends the startup before any effect). First the container of the plugin's own name
   * is recreated if this installation manages it; only after that succeeded come the orphans, and
   * after them the startup proper. Without the explicit policy no other container is touched.
   */
  method EnsurePluginContainer(port: Port, runtime: Runtime, config: ContainerConfig, hostPort: Option<nat>,
                               scope: Scope, policy: OrphanPolicy)
    returns (r: Answer<Option<string>>, ghost recreation: seq<Effect>, ghost orphans: Option<seq<Effect>>,
             ghost start: Option<Phases>)
    modifies port
    ensures port.trace == old(port.trace) + (recreation + (Listed(orphans) + Effects(start)))
    ensures OnlyListedTouched(recreation + (Listed(orphans) + Effects(start)), scope)
    ensures RunGuarded(recreation + (Listed(orphans) + Effects(start)), config)
    ensures OnlyTouches(recreation, config.name) && NoRun(recreation) && NoRun(Listed(orphans))
    ensures !policy.GarbageCollectExplicitly? ==> NoneDestructive(Listed(orphans))
    ensures NoneDestructive(Effects(start))
    ensures hostPort.None? <==> recreation == []
    ensures hostPort.None? ==> r == Err(Other) && orphans.None? && start.None?
    ensures hostPort.Some? && orphans.None? ==>
      start.None? && r.Err? && RecreationRefused(recreation, config.name, scope, r.error)
    ensures orphans.Some? ==> Recreated(recreation, config.name, scope)
    ensures orphans.Some? && start.None? ==> r.Err? && OrphansRefused(orphans.value, runtime, scope, policy, r.error)
    ensures start.Some? ==> orphans.Some? && OrphansHandled(orphans.value, runtime, scope, policy)
    ensures r.Ok? ==> start.Some? && Started(start.value, config, r.value)
    ensures r.Err? && start.Some? ==> StartRefused(start.value, config, r.error)
    ensures r.Err? && start.Some? && GaveUpWaiting(start.value.after) ==> port.now >= old(port.now) + 120_000
  {
    hide Recreated, RecreationRefused, OrphansHandled, OrphansRefused, Started, StartRefused, RunGuarded,
      OnlyListedTouched, NoRun, NoneDestructive, OnlyTouches, GaveUpWaiting;
    recreation, orphans, start := [], None, None;
    NothingDone(config, scope);
    if hostPort.None? {
      NothingTouched(config.name);
      assert recreation + (Listed(orphans) + Effects(start)) == [];
      r := Err(Other);
      return;
    }
    var recreated;
    recreated, recreation := RecreateIfManaged(port, config.name, scope);
    RecreationLooks(recreation, config.name, scope, recreated);
    if recreated.Err? {
      NoRunIsGuarded(recreation, config);
      assert recreation + (Listed(orphans) + Effects(start)) == recreation;
      r := Err(recreated.error);
      return;
    }
    ghost var handled: seq<Effect> := [];
    r, handled, start := EnsureVaultContainer(port, runtime, config, scope, policy);
    orphans := Some(handled);
    OnlyListedTouchedAppend(recreation, handled + Effects(start), scope);
    RunGuardedAfter(recreation, handled + Effects(start), config);
  }

  function Listed(orphans: Option<seq<Effect>>): seq<Effect> {
    if orphans.Some? then orphans.value else []
  }

  lemma NothingTouched(name: string)
    ensures OnlyTouches([], name)
  {
  }

  /** Recreation always looks the name up. */
  lemma RecreationLooks(t: seq<Effect>, name: string, scope: Scope, r: Answer<Unit>)
    requires if r.Ok? then Recreated(t, name, scope) else RecreationRefused(t, name, scope, r.error)
    ensures t != []
  {
  }
}

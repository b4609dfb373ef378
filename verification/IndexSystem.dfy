/**
 * The index among its threads: file changes, the watchdog's event queue, debounce timers, flush
 * bodies that read outside the lock, and stop. Each lock region and each file access is one step.
 */
module IndexSystem {
  import opened Basics
  import opened FrontmatterIndex

  /** A timer can be cancelled while armed; once fired, its callback will take the lock. */
  datatype TimerState = Armed | Fired | Dead

  /** Where a flush body stands with the path it is working on. */
  datatype Work =
    | Idle
    | Checked(path: Path, exists_: bool)       // `abs_path.exists()` answered
    | Holding(path: Path, fm: Option<Meta>)    // parsed, lock not yet taken

  datatype Flush = Flush(todo: set<Path>, work: Work)

  /** `late` holds timers that a stop has captured and not yet cancelled. */
  datatype System = System(core: Core, vault: VaultFiles, queue: seq<Path>, timers: map<nat, TimerState>,
                           late: set<nat>, flushes: map<nat, Flush>)

  datatype Action =
    | WriteFile(path: Path, content: string)   // a file is created or modified
    | RemoveFile(path: Path)
    | Deliver                                  // the watchdog hands one event to the handler
    | Fire(timer: nat)
    | Take(timer: nat)                         // the callback's first lock region
    | Pick(flush: nat, path: Path)
    | ReadPath(flush: nat)
    | StorePath(flush: nat)
    | Finish(flush: nat)
    | BeginStop
    | CancelLate(timer: nat)

  /** The paths a flush body has taken and not yet stored. */
  function Busy(f: Flush): set<Path> {
    f.todo + if f.work.Idle? then {} else {f.work.path}
  }

  predicate Enabled(s: System, a: Action) {
    match a
    case WriteFile(p, c) => true
    case RemoveFile(p) => p in s.vault
    case Deliver => s.queue != []
    case Fire(t) => t in s.timers && s.timers[t] == Armed
    case Take(t) => t in s.timers && s.timers[t] == Fired
    case Pick(f, p) => f in s.flushes && s.flushes[f].work.Idle? && p in s.flushes[f].todo
    case ReadPath(f) => f in s.flushes && s.flushes[f].work.Checked?
    case StorePath(f) => f in s.flushes && s.flushes[f].work.Holding?
    case Finish(f) => f in s.flushes && s.flushes[f] == Flush({}, Idle)
    case BeginStop => true
    case CancelLate(t) => t in s.late
  }

  /** `Timer.cancel`: only an armed timer is stopped by it. */
  function Cancel(timers: map<nat, TimerState>, t: nat): map<nat, TimerState> {
    if t in timers && timers[t] == Armed then timers[t := Dead] else timers
  }

  function Next(cfg: Config, s: System, a: Action): System
    requires Enabled(s, a)
  {
    match a
    case WriteFile(p, c) => s.(vault := s.vault[p := c], queue := s.queue + [p])
    case RemoveFile(p) => s.(vault := s.vault - {p}, queue := s.queue + [p])
    case Deliver =>
      var p, rest := s.queue[0], s.queue[1..];
      if !cfg.eligible(p) then s.(queue := rest)
      else
        var timers := if s.core.timer.Some? then Cancel(s.timers, s.core.timer.value) else s.timers;
        s.(queue := rest, core := Schedule(s.core, p), timers := timers[s.core.nextTimer := Armed])
    case Fire(t) => s.(timers := s.timers[t := Fired])
    case Take(t) =>
      s.(timers := s.timers[t := Dead], core := TakeAll(s.core),
         flushes := s.flushes[t := Flush(s.core.pending, Idle)])
    case Pick(f, p) =>
      var flush := Flush(s.flushes[f].todo - {p}, Checked(p, p in s.vault));
      s.(flushes := s.flushes[f := flush])
    case ReadPath(f) =>
      var work := s.flushes[f].work;
      var fm := if work.exists_ then ReadEntry(cfg, s.vault, work.path) else None;
      s.(flushes := s.flushes[f := s.flushes[f].(work := Holding(work.path, fm))])
    case StorePath(f) =>
      var work := s.flushes[f].work;
      s.(core := StoreEntry(s.core, work.path, work.fm),
         flushes := s.flushes[f := s.flushes[f].(work := Idle)])
    case Finish(f) => s.(flushes := s.flushes - {f})
    case BeginStop =>
      var captured := if s.core.started && s.core.timer.Some? then {s.core.timer.value} else {};
      s.(core := StopCore(s.core), late := s.late + captured)
    case CancelLate(t) => s.(timers := Cancel(s.timers, t), late := s.late - {t})
  }

  /** Just after `start`: the index is a full scan, nothing is under way. */
  function Started(cfg: Config, vault: VaultFiles): System {
    System(Core(FreshScan(cfg, vault), {}, None, true, 0), vault, [], map[], {}, map[])
  }

  predicate CanRun(cfg: Config, s: System, actions: seq<Action>)
    decreases |actions|
  {
    |actions| == 0 || (Enabled(s, actions[0]) && CanRun(cfg, Next(cfg, s, actions[0]), actions[1..]))
  }

  function Run(cfg: Config, s: System, actions: seq<Action>): System
    requires CanRun(cfg, s, actions)
    decreases |actions|
  {
    if |actions| == 0 then s else Run(cfg, Next(cfg, s, actions[0]), actions[1..])
  }

  // ----- No lost wake-up -----

  predicate Live(s: System, t: nat) {
    t in s.timers && s.timers[t] != Dead
  }

  /** The newest timer is live, and no stop is about to cancel it, whenever something is pending. */
  predicate WakeInv(s: System) {
    && (s.core.pending != {} ==>
         s.core.nextTimer > 0 && Live(s, s.core.nextTimer - 1) && s.core.nextTimer - 1 !in s.late)
    && (s.core.timer.Some? ==> s.core.timer.value == s.core.nextTimer - 1)
    && (forall t :: t in s.late ==> t < s.core.nextTimer)
  }

  lemma WakeStep(cfg: Config, s: System, a: Action)
    requires WakeInv(s) && Enabled(s, a)
    ensures WakeInv(Next(cfg, s, a))
  {
  }

  /**
   * In every interleaving of events, firings, flushes, stops and late cancels, a non-empty pending
   * set has a timer that is armed, or has fired and will still take the lock.
   */
  lemma {:induction false} NoLostWakeUp(cfg: Config, s: System, actions: seq<Action>)
    requires WakeInv(s) && CanRun(cfg, s, actions)
    ensures WakeInv(Run(cfg, s, actions))
    ensures Run(cfg, s, actions).core.pending != {} ==> exists t :: Live(Run(cfg, s, actions), t)
    decreases |actions|
  {
    hide Next, Enabled;
    if |actions| > 0 {
      WakeStep(cfg, s, actions[0]);
      NoLostWakeUp(cfg, Next(cfg, s, actions[0]), actions[1..]);
    }
  }

  // ----- Agreement with a fresh scan, path by path -----

  /** Not a stop, and not a flush taking path `p` while another flush body is still working on it. */
  predicate Allowed(s: System, a: Action, p: Path) {
    && !a.BeginStop?
    && (a.Take? && p in s.core.pending ==> forall f :: f in s.flushes ==> p !in Busy(s.flushes[f]))
  }

  predicate AllAllowed(cfg: Config, s: System, actions: seq<Action>, p: Path)
    requires CanRun(cfg, s, actions)
    decreases |actions|
  {
    |actions| == 0 || (Allowed(s, actions[0], p) && AllAllowed(cfg, Next(cfg, s, actions[0]), actions[1..], p))
  }

  /** What every step keeps, stops and overlaps included. */
  ghost predicate Shape(cfg: Config, s: System) {
    && (forall p :: p in s.core.pending ==> cfg.eligible(p))
    && (forall f, p :: f in s.flushes && p in Busy(s.flushes[f]) ==> cfg.eligible(p))
    && (forall p :: p in s.core.index ==> cfg.eligible(p))
    && (forall f :: f in s.flushes && !s.flushes[f].work.Idle? ==> s.flushes[f].work.path !in s.flushes[f].todo)
    && (forall t :: t in s.flushes ==> t in s.timers && s.timers[t] == Dead)
    && (forall t :: t in s.timers ==> t < s.core.nextTimer)
  }

  lemma ShapeStep(cfg: Config, s: System, a: Action)
    requires Shape(cfg, s) && Enabled(s, a)
    ensures Shape(cfg, Next(cfg, s, a))
  {
    var s' := Next(cfg, s, a);
    forall f, p | f in s'.flushes && p in Busy(s'.flushes[f]) ensures cfg.eligible(p) {
      if a.Take? && f == a.timer {
        assert p in s.core.pending;
      } else {
        assert p in Busy(s.flushes[f]);
      }
    }
    forall p | p in s'.core.index ensures cfg.eligible(p) {
      if p !in s.core.index {
        assert a.StorePath? && p in Busy(s.flushes[a.flush]);
      }
    }
  }

  /** A change to `p` is still on its way to a flush. */
  predicate Announced(s: System, p: Path) {
    p in s.queue || p in s.core.pending
  }

  /** A change to `p` is on its way to the index. */
  predicate InFlight(s: System, p: Path) {
    Announced(s, p) || exists f :: f in s.flushes && p in Busy(s.flushes[f])
  }

  /** What a flush body has seen of `p` is still true, or a newer change is announced. */
  predicate WorkSound(cfg: Config, s: System, f: nat, p: Path)
    requires f in s.flushes
  {
    match s.flushes[f].work
    case Idle => true
    case Checked(q, there) => q == p ==> Announced(s, p) || (p in s.vault ==> there)
    case Holding(q, fm) => q == p ==> Announced(s, p) || fm == ReadEntry(cfg, s.vault, p)
  }

  predicate Agrees(cfg: Config, s: System, p: Path) {
    Entry(s.core.index, p) == FreshEntry(cfg, s.vault, p)
  }

  ghost predicate AgreementInv(cfg: Config, s: System, p: Path) {
    && Shape(cfg, s)
    && (forall f, g :: f in s.flushes && g in s.flushes && p in Busy(s.flushes[f]) && p in Busy(s.flushes[g]) ==> f == g)
    && (forall f :: f in s.flushes ==> WorkSound(cfg, s, f, p))
    && (Agrees(cfg, s, p) || (cfg.eligible(p) && InFlight(s, p)))
  }

  /** File changes: the changed path is announced, every other path is as before. */
  lemma ChangeKeepsAgreement(cfg: Config, s: System, a: Action, p: Path)
    requires AgreementInv(cfg, s, p) && Enabled(s, a) && (a.WriteFile? || a.RemoveFile?)
    ensures AgreementInv(cfg, Next(cfg, s, a), p)
  {
    var s' := Next(cfg, s, a);
    ShapeStep(cfg, s, a);
    assert a.path in s'.queue;
    assert p != a.path ==> FreshEntry(cfg, s'.vault, p) == FreshEntry(cfg, s.vault, p);
    assert InFlight(s, p) ==> InFlight(s', p);
    forall f | f in s'.flushes ensures WorkSound(cfg, s', f, p) {
      assert WorkSound(cfg, s, f, p);
    }
  }

  /** A delivered event moves from the queue to the pending set. */
  lemma DeliverKeepsAgreement(cfg: Config, s: System, p: Path)
    requires AgreementInv(cfg, s, p) && Enabled(s, Deliver)
    ensures AgreementInv(cfg, Next(cfg, s, Deliver), p)
  {
    var s' := Next(cfg, s, Deliver);
    ShapeStep(cfg, s, Deliver);
    assert p in s.queue ==> p == s.queue[0] || p in s.queue[1..];
    assert cfg.eligible(p) && Announced(s, p) ==> Announced(s', p);
    forall f | f in s'.flushes ensures WorkSound(cfg, s', f, p) {
      assert WorkSound(cfg, s, f, p);
      assert s.flushes[f].work.Idle? || s.flushes[f].work.path in Busy(s.flushes[f]);
    }
  }

  /** Taking the pending set hands its paths to a new flush body. */
  lemma TakeKeepsAgreement(cfg: Config, s: System, t: nat, p: Path)
    requires AgreementInv(cfg, s, p) && Enabled(s, Take(t)) && Allowed(s, Take(t), p)
    ensures AgreementInv(cfg, Next(cfg, s, Take(t)), p)
  {
    var s' := Next(cfg, s, Take(t));
    ShapeStep(cfg, s, Take(t));
    assert t !in s.flushes;
    assert Busy(s'.flushes[t]) == s.core.pending;
    if p in s.core.pending {
      assert p in Busy(s'.flushes[t]);
    } else if f :| f in s.flushes && p in Busy(s.flushes[f]) {
      assert s'.flushes[f] == s.flushes[f];
    }
    forall f | f in s'.flushes ensures WorkSound(cfg, s', f, p) {
      if f != t {
        assert WorkSound(cfg, s, f, p);
        assert s.flushes[f].work.Idle? || s.flushes[f].work.path in Busy(s.flushes[f]);
      }
    }
  }

  /** Steps of one flush body that keep hold of its path. */
  lemma FlushWorkKeepsAgreement(cfg: Config, s: System, a: Action, p: Path)
    requires AgreementInv(cfg, s, p) && Enabled(s, a) && (a.Pick? || a.ReadPath?)
    ensures AgreementInv(cfg, Next(cfg, s, a), p)
  {
    var s' := Next(cfg, s, a);
    ShapeStep(cfg, s, a);
    assert Busy(s'.flushes[a.flush]) == Busy(s.flushes[a.flush]);
    assert WorkSound(cfg, s, a.flush, p);
    if g :| g in s.flushes && p in Busy(s.flushes[g]) {
      assert g in s'.flushes && p in Busy(s'.flushes[g]);
    }
    forall g | g in s'.flushes ensures WorkSound(cfg, s', g, p) {
      assert g != a.flush ==> WorkSound(cfg, s, g, p);
    }
  }

  /** Storing what was read: it is still true, or a newer change is announced. */
  lemma StoreKeepsAgreement(cfg: Config, s: System, f: nat, p: Path)
    requires AgreementInv(cfg, s, p) && Enabled(s, StorePath(f))
    ensures AgreementInv(cfg, Next(cfg, s, StorePath(f)), p)
  {
    var s' := Next(cfg, s, StorePath(f));
    var work := s.flushes[f].work;
    ShapeStep(cfg, s, StorePath(f));
    assert WorkSound(cfg, s, f, p) && work.path in Busy(s.flushes[f]);
    assert Busy(s'.flushes[f]) == Busy(s.flushes[f]) - {work.path};
    if p != work.path {
      assert Entry(s'.core.index, p) == Entry(s.core.index, p);
      if g :| g in s.flushes && p in Busy(s.flushes[g]) {
        assert g in s'.flushes && p in Busy(s'.flushes[g]);
      }
    }
    forall g | g in s'.flushes ensures WorkSound(cfg, s', g, p) {
      assert g != f ==> WorkSound(cfg, s, g, p);
    }
  }

  /** The remaining steps neither change a file nor take, keep or release a path. */
  lemma OtherKeepsAgreement(cfg: Config, s: System, a: Action, p: Path)
    requires AgreementInv(cfg, s, p) && Enabled(s, a) && (a.Fire? || a.CancelLate? || a.Finish?)
    ensures AgreementInv(cfg, Next(cfg, s, a), p)
  {
    var s' := Next(cfg, s, a);
    ShapeStep(cfg, s, a);
    assert a.Finish? ==> Busy(s.flushes[a.flush]) == {};
    if g :| g in s.flushes && p in Busy(s.flushes[g]) {
      assert g in s'.flushes && p in Busy(s'.flushes[g]);
    }
    forall g | g in s'.flushes ensures WorkSound(cfg, s', g, p) {
      assert WorkSound(cfg, s, g, p);
    }
  }

  lemma AgreementStep(cfg: Config, s: System, a: Action, p: Path)
    requires AgreementInv(cfg, s, p) && Enabled(s, a) && Allowed(s, a, p)
    ensures AgreementInv(cfg, Next(cfg, s, a), p)
  {
    hide AgreementInv, Next;
    match a
    case WriteFile(_, _) => ChangeKeepsAgreement(cfg, s, a, p);
    case RemoveFile(_) => ChangeKeepsAgreement(cfg, s, a, p);
    case Deliver => DeliverKeepsAgreement(cfg, s, p);
    case Take(t) => TakeKeepsAgreement(cfg, s, t, p);
    case Pick(_, _) => FlushWorkKeepsAgreement(cfg, s, a, p);
    case ReadPath(_) => FlushWorkKeepsAgreement(cfg, s, a, p);
    case StorePath(f) => StoreKeepsAgreement(cfg, s, f, p);
    case Finish(_) => OtherKeepsAgreement(cfg, s, a, p);
    case Fire(_) => OtherKeepsAgreement(cfg, s, a, p);
    case CancelLate(_) => OtherKeepsAgreement(cfg, s, a, p);
    case BeginStop =>
  }

  lemma {:induction false} AgreementOverRuns(cfg: Config, s: System, actions: seq<Action>, p: Path)
    requires AgreementInv(cfg, s, p) && CanRun(cfg, s, actions) && AllAllowed(cfg, s, actions, p)
    ensures AgreementInv(cfg, Run(cfg, s, actions), p)
    decreases |actions|
  {
    hide AgreementInv, Next, Enabled, Allowed;
    if |actions| > 0 {
      AgreementStep(cfg, s, actions[0], p);
      AgreementOverRuns(cfg, Next(cfg, s, actions[0]), actions[1..], p);
    }
  }

  lemma {:induction false} ShapeOverRuns(cfg: Config, s: System, actions: seq<Action>)
    requires Shape(cfg, s) && CanRun(cfg, s, actions)
    ensures Shape(cfg, Run(cfg, s, actions))
    decreases |actions|
  {
    hide Shape, Next, Enabled;
    if |actions| > 0 {
      ShapeStep(cfg, s, actions[0]);
      ShapeOverRuns(cfg, Next(cfg, s, actions[0]), actions[1..]);
    }
  }

  lemma StartAgrees(cfg: Config, vault: VaultFiles, p: Path)
    ensures AgreementInv(cfg, Started(cfg, vault), p) && WakeInv(Started(cfg, vault))
  {
    assert Agrees(cfg, Started(cfg, vault), p);
  }

  /**
   * Cache agreement, for each path by itself: in every state the started index can reach, if only no
   * flush took THIS path while another flush body was working on it, the path either has the entry a
   * fresh scan would give it, or a change to it is queued, pending, or in a flush body.
   */
  lemma CacheAgreement(cfg: Config, vault: VaultFiles, actions: seq<Action>, p: Path)
    requires CanRun(cfg, Started(cfg, vault), actions) && AllAllowed(cfg, Started(cfg, vault), actions, p)
    ensures var s := Run(cfg, Started(cfg, vault), actions);
      Agrees(cfg, s, p) || (cfg.eligible(p) && InFlight(s, p))
  {
    hide Next, Enabled, Allowed;
    StartAgrees(cfg, vault, p);
    AgreementOverRuns(cfg, Started(cfg, vault), actions, p);
  }

  /** No event undelivered, no timer live, no flush body running. */
  predicate Quiescent(s: System) {
    && s.queue == [] && s.flushes == map[]
    && forall t :: t in s.timers ==> !Live(s, t)
  }

  lemma FreshAtRest(cfg: Config, s: System)
    requires WakeInv(s) && Quiescent(s) && forall p :: AgreementInv(cfg, s, p)
    ensures s.core.index == FreshScan(cfg, s.vault)
  {
    assert s.core.pending == {};
    forall p ensures Entry(s.core.index, p) == Entry(FreshScan(cfg, s.vault), p) {
      assert AgreementInv(cfg, s, p);
    }
    SameEntries(s.core.index, FreshScan(cfg, s.vault));
  }

  /** At rest the index, and every search answer, is that of a fresh scan. */
  lemma QuiescentIndexIsFresh(cfg: Config, vault: VaultFiles, actions: seq<Action>, q: Query)
    requires CanRun(cfg, Started(cfg, vault), actions)
    requires forall p :: AllAllowed(cfg, Started(cfg, vault), actions, p)
    requires Quiescent(Run(cfg, Started(cfg, vault), actions))
    ensures var s := Run(cfg, Started(cfg, vault), actions);
      && s.core.index == FreshScan(cfg, s.vault)
      && Search(cfg, s.core.index, q) == Search(cfg, FreshScan(cfg, s.vault), q)
  {
    hide Next, Enabled, Allowed, Search, AgreementInv;
    var start := Started(cfg, vault);
    forall p ensures AgreementInv(cfg, Run(cfg, start, actions), p) {
      StartAgrees(cfg, vault, p);
      AgreementOverRuns(cfg, start, actions, p);
    }
    StartAgrees(cfg, vault, "");
    NoLostWakeUp(cfg, start, actions);
    FreshAtRest(cfg, Run(cfg, start, actions));
  }

  lemma SameEntries(a: map<Path, Meta>, b: map<Path, Meta>)
    requires forall p :: Entry(a, p) == Entry(b, p)
    ensures a == b
  {
    forall p ensures p in a <==> p in b {
      assert Entry(a, p) == Entry(b, p);
    }
    forall p | p in a ensures a[p] == b[p] {
      assert Entry(a, p) == Entry(b, p);
    }
  }

  /** Even in motion, a search answers rightly about every path with no change under way. */
  lemma SettledPathsAreAnsweredRightly(cfg: Config, vault: VaultFiles, actions: seq<Action>, q: Query, p: Path)
    requires CanRun(cfg, Started(cfg, vault), actions) && AllAllowed(cfg, Started(cfg, vault), actions, p)
    requires !InFlight(Run(cfg, Started(cfg, vault), actions), p)
    ensures var s := Run(cfg, Started(cfg, vault), actions);
      Entry(Search(cfg, s.core.index, q), p) == Entry(Search(cfg, FreshScan(cfg, s.vault), q), p)
  {
    hide Next, Enabled, Allowed, InFlight, Hit;
    var s := Run(cfg, Started(cfg, vault), actions);
    CacheAgreement(cfg, vault, actions, p);
    assert Entry(s.core.index, p) == Entry(FreshScan(cfg, s.vault), p);
  }

  // ----- Settling -----

  /** Everything but new file changes and a stop. */
  predicate Internal(a: Action) {
    !a.WriteFile? && !a.RemoveFile? && !a.BeginStop?
  }

  predicate AllInternal(actions: seq<Action>) {
    forall i :: 0 <= i < |actions| ==> Internal(actions[i])
  }

  function TimersIn(s: System, state: TimerState): set<nat> {
    set t | t in s.timers && s.timers[t] == state
  }

  function Todo(s: System): set<(nat, Path)> {
    set f, p | f in s.flushes && p in s.flushes[f].todo :: (f, p)
  }

  function CheckedIn(s: System): set<nat> {
    set f | f in s.flushes && s.flushes[f].work.Checked?
  }

  function HoldingIn(s: System): set<nat> {
    set f | f in s.flushes && s.flushes[f].work.Holding?
  }

  /** Once the files stop changing, every step makes progress. */
  lemma InternalStepsEnd(cfg: Config, s: System, a: Action)
    requires Shape(cfg, s) && Enabled(s, a) && Internal(a)
    ensures var s' := Next(cfg, s, a);
      (|s.queue|, TimersIn(s, Armed), TimersIn(s, Fired), Todo(s), CheckedIn(s), HoldingIn(s), s.flushes.Keys, s.late
       decreases to
       |s'.queue|, TimersIn(s', Armed), TimersIn(s', Fired), Todo(s'), CheckedIn(s'), HoldingIn(s'), s'.flushes.Keys,
       s'.late)
  {
    var s' := Next(cfg, s, a);
    match a
    case Fire(t) => assert t in TimersIn(s, Armed) && t !in TimersIn(s', Armed);
    case Take(t) =>
      assert TimersIn(s', Armed) == TimersIn(s, Armed);
      assert t in TimersIn(s, Fired) && t !in TimersIn(s', Fired);
    case Pick(f, p) => assert (f, p) in Todo(s) && (f, p) !in Todo(s');
    case ReadPath(f) =>
      assert Todo(s') == Todo(s);
      assert f in CheckedIn(s) && f !in CheckedIn(s');
    case StorePath(f) =>
      assert Todo(s') == Todo(s) && CheckedIn(s') == CheckedIn(s);
      assert f in HoldingIn(s) && f !in HoldingIn(s');
    case Finish(f) =>
      assert Todo(s') == Todo(s) && CheckedIn(s') == CheckedIn(s) && HoldingIn(s') == HoldingIn(s);
      assert f in s.flushes.Keys && f !in s'.flushes.Keys;
    case CancelLate(t) =>
      assert t in s.late && t !in s'.late;
      assert TimersIn(s', Armed) <= TimersIn(s, Armed);
      assert TimersIn(s', Fired) == TimersIn(s, Fired);
    case _ =>
  }

  /** The next step of a flush body. */
  function FlushStep(s: System, f: nat, p: Path): Action
    requires f in s.flushes
  {
    match s.flushes[f].work
    case Idle => if s.flushes[f].todo == {} then Finish(f) else Pick(f, p)
    case Checked(_, _) => ReadPath(f)
    case Holding(_, _) => StorePath(f)
  }

  /** And it does not get stuck: unless the system is at rest, a step is possible that is allowed for all paths. */
  lemma NotStuck(cfg: Config, s: System) returns (a: Action)
    requires Shape(cfg, s) && !Quiescent(s)
    ensures Internal(a) && Enabled(s, a) && forall p :: Allowed(s, a, p)
  {
    if s.queue != [] {
      a := Deliver;
    } else if f :| f in s.flushes {
      var p :| s.flushes[f].todo == {} || p in s.flushes[f].todo;
      a := FlushStep(s, f, p);
    } else {
      assert s.flushes == map[];
      var t :| t in s.timers && Live(s, t);
      a := if s.timers[t] == Armed then Fire(t) else Take(t);
    }
  }

  /** From every state some run without file changes, allowed for every path, comes to rest. */
  lemma {:induction false} Settle(cfg: Config, s: System) returns (more: seq<Action>)
    requires Shape(cfg, s)
    ensures CanRun(cfg, s, more) && AllInternal(more) && Quiescent(Run(cfg, s, more))
    ensures forall p :: AllAllowed(cfg, s, more, p)
    decreases |s.queue|, TimersIn(s, Armed), TimersIn(s, Fired), Todo(s), CheckedIn(s), HoldingIn(s), s.flushes.Keys,
              s.late
  {
    hide Shape, Next, Enabled, Allowed, Quiescent, TimersIn, Todo, CheckedIn, HoldingIn;
    more := [];
    if !Quiescent(s) {
      var a := NotStuck(cfg, s);
      ShapeStep(cfg, s, a);
      InternalStepsEnd(cfg, s, a);
      var rest := Settle(cfg, Next(cfg, s, a));
      RunCons(cfg, s, a, rest);
      more := [a] + rest;
      assert more[1..] == rest;
    }
  }

  /**
   * Convergence: every reachable state, whatever is under way in it, can be run on without a file
   * change to a state at rest whose index is a fresh scan, if no flush has overlapped another so far.
   */
  lemma ReachableStatesSettleFresh(cfg: Config, vault: VaultFiles, actions: seq<Action>) returns (more: seq<Action>)
    requires CanRun(cfg, Started(cfg, vault), actions)
    requires forall p :: AllAllowed(cfg, Started(cfg, vault), actions, p)
    ensures var s := Run(cfg, Started(cfg, vault), actions);
      && CanRun(cfg, s, more) && AllInternal(more) && (forall p :: AllAllowed(cfg, s, more, p))
      && Quiescent(Run(cfg, s, more))
      && Run(cfg, s, more).vault == s.vault
      && Run(cfg, s, more).core.index == FreshScan(cfg, s.vault)
  {
    hide Shape, Next, Enabled, Allowed, Quiescent, AgreementInv, WakeInv;
    var start := Started(cfg, vault);
    var s := Run(cfg, start, actions);
    StartAgrees(cfg, vault, "");
    AgreementHasShape(cfg, start, "");
    ShapeOverRuns(cfg, start, actions);
    NoLostWakeUp(cfg, start, actions);
    more := Settle(cfg, s);
    NoLostWakeUp(cfg, s, more);
    InternalKeepsVault(cfg, s, more);
    forall p ensures AgreementInv(cfg, Run(cfg, s, more), p) {
      StartAgrees(cfg, vault, p);
      AgreementOverRuns(cfg, start, actions, p);
      AgreementOverRuns(cfg, s, more, p);
    }
    FreshAtRest(cfg, Run(cfg, s, more));
  }

  lemma AgreementHasShape(cfg: Config, s: System, p: Path)
    requires AgreementInv(cfg, s, p)
    ensures Shape(cfg, s)
  {
  }

  lemma {:induction false} InternalKeepsVault(cfg: Config, s: System, actions: seq<Action>)
    requires CanRun(cfg, s, actions) && AllInternal(actions)
    ensures Run(cfg, s, actions).vault == s.vault
    decreases |actions|
  {
    if |actions| > 0 {
      assert Internal(actions[0]);
      assert forall i :: 0 <= i < |actions[1..]| ==> actions[1..][i] == actions[i + 1];
      InternalKeepsVault(cfg, Next(cfg, s, actions[0]), actions[1..]);
    }
  }

  // ----- Why overlap is excluded: wherever it can happen, it can do harm -----

  /** Steps left until flush `f` holds what it read of `p`. */
  function StepsToHold(s: System, f: nat, p: Path): nat
    requires f in s.flushes
  {
    match s.flushes[f].work
    case Checked(q, _) => if q == p then 1 else 4
    case Holding(q, _) => if q == p then 0 else 3
    case Idle => 2
  }

  /** A flush body that is busy on `p` comes to hold something it read of `p`. */
  lemma {:induction false} HoldPath(cfg: Config, s: System, f: nat, p: Path) returns (more: seq<Action>)
    requires Shape(cfg, s) && WakeInv(s) && f in s.flushes && p in Busy(s.flushes[f])
    ensures CanRun(cfg, s, more)
    ensures var s' := Run(cfg, s, more);
      && Shape(cfg, s') && WakeInv(s') && f in s'.flushes
      && s'.flushes[f].work.Holding? && s'.flushes[f].work.path == p
    decreases StepsToHold(s, f, p)
  {
    more := [];
    if StepsToHold(s, f, p) > 0 {
      var a := FlushStep(s, f, p);
      HoldStep(cfg, s, f, p);
      var rest := HoldPath(cfg, Next(cfg, s, a), f, p);
      RunCons(cfg, s, a, rest);
      more := [a] + rest;
    }
  }

  lemma HoldStep(cfg: Config, s: System, f: nat, p: Path)
    requires Shape(cfg, s) && WakeInv(s) && f in s.flushes && p in Busy(s.flushes[f]) && StepsToHold(s, f, p) > 0
    ensures var a := FlushStep(s, f, p);
      && Enabled(s, a)
      && var s' := Next(cfg, s, a);
         && Shape(cfg, s') && WakeInv(s') && f in s'.flushes && p in Busy(s'.flushes[f])
         && StepsToHold(s', f, p) < StepsToHold(s, f, p)
  {
    var a := FlushStep(s, f, p);
    assert Enabled(s, a);
    ShapeStep(cfg, s, a);
    WakeStep(cfg, s, a);
  }

  /** Everything but flush `f` has come to rest. */
  predicate OnlyLeft(s: System, f: nat) {
    s.queue == [] && s.flushes.Keys == {f} && forall t :: t in s.timers ==> !Live(s, t)
  }

  lemma NotStuckElsewhere(cfg: Config, s: System, f: nat) returns (a: Action)
    requires Shape(cfg, s) && f in s.flushes && !OnlyLeft(s, f)
    ensures Internal(a) && Enabled(s, a)
    ensures var s' := Next(cfg, s, a); f in s'.flushes && s'.flushes[f] == s.flushes[f] && s'.vault == s.vault
  {
    if s.queue != [] {
      a := Deliver;
    } else if g :| g in s.flushes && g != f {
      var p :| s.flushes[g].todo == {} || p in s.flushes[g].todo;
      a := FlushStep(s, g, p);
    } else {
      assert s.flushes.Keys == {f};
      var t :| t in s.timers && Live(s, t);
      a := if s.timers[t] == Armed then Fire(t) else Take(t);
    }
  }

  /** Everything else can come to rest while `f` waits for the lock. */
  lemma {:induction false} SettleAround(cfg: Config, s: System, f: nat) returns (more: seq<Action>)
    requires Shape(cfg, s) && WakeInv(s) && f in s.flushes
    ensures CanRun(cfg, s, more)
    ensures var s' := Run(cfg, s, more);
      && Shape(cfg, s') && WakeInv(s') && OnlyLeft(s', f) && s'.flushes[f] == s.flushes[f] && s'.vault == s.vault
    decreases |s.queue|, TimersIn(s, Armed), TimersIn(s, Fired), Todo(s), CheckedIn(s), HoldingIn(s), s.flushes.Keys,
              s.late
  {
    hide Shape, Next, Enabled, WakeInv, TimersIn, Todo, CheckedIn, HoldingIn;
    more := [];
    if !OnlyLeft(s, f) {
      var a := NotStuckElsewhere(cfg, s, f);
      ShapeStep(cfg, s, a);
      WakeStep(cfg, s, a);
      InternalStepsEnd(cfg, s, a);
      var rest := SettleAround(cfg, Next(cfg, s, a), f);
      RunCons(cfg, s, a, rest);
      more := [a] + rest;
    }
  }

  /** The index has `fm` for `p`, and nothing is under way that would look at `p` again. */
  predicate Stuck(s: System, p: Path, fm: Option<Meta>) {
    && Entry(s.core.index, p) == fm && s.queue == [] && s.core.pending == {}
    && forall f :: f in s.flushes ==> p !in Busy(s.flushes[f])
  }

  lemma StuckStep(cfg: Config, s: System, a: Action, p: Path, fm: Option<Meta>)
    requires Stuck(s, p, fm) && Enabled(s, a) && Internal(a)
    ensures Stuck(Next(cfg, s, a), p, fm)
  {
    var s' := Next(cfg, s, a);
    if a.StorePath? {
      assert s.flushes[a.flush].work.path in Busy(s.flushes[a.flush]);
    }
    forall f | f in s'.flushes ensures p !in Busy(s'.flushes[f]) {
      assert f in s.flushes ==> p !in Busy(s.flushes[f]);
    }
  }

  lemma {:induction false} StuckOverRuns(cfg: Config, s: System, actions: seq<Action>, p: Path, fm: Option<Meta>)
    requires Stuck(s, p, fm) && CanRun(cfg, s, actions) && AllInternal(actions)
    ensures Stuck(Run(cfg, s, actions), p, fm)
    decreases |actions|
  {
    hide Stuck, Next, Enabled;
    if |actions| > 0 {
      assert Internal(actions[0]);
      StuckStep(cfg, s, actions[0], p, fm);
      assert forall i :: 0 <= i < |actions[1..]| ==> actions[1..][i] == actions[i + 1];
      StuckOverRuns(cfg, Next(cfg, s, actions[0]), actions[1..], p, fm);
    }
  }

  /** The last store of the flush body that waited: from then on nothing looks at `p` again. */
  lemma LateStore(cfg: Config, s: System, f: nat, p: Path, fm: Option<Meta>) returns (more: seq<Action>)
    requires Shape(cfg, s) && WakeInv(s) && OnlyLeft(s, f) && s.flushes[f].work == Holding(p, fm)
    ensures CanRun(cfg, s, more)
    ensures var s' := Run(cfg, s, more);
      Quiescent(s') && s'.vault == s.vault && Entry(s'.core.index, p) == fm
  {
    var s1 := Next(cfg, s, StorePath(f));
    ShapeStep(cfg, s, StorePath(f));
    assert f in s.flushes;
    assert Stuck(s1, p, fm);
    var rest := Settle(cfg, s1);
    StuckOverRuns(cfg, s1, rest, p, fm);
    InternalKeepsVault(cfg, s1, rest);
    RunCons(cfg, s, StorePath(f), rest);
    more := [StorePath(f)] + rest;
  }

  /**
   * The exclusion is needed everywhere: from every reachable state in which a flush body is busy on
   * a path, and for any two contents with different entries, some continuation comes to rest with a
   * stale entry for that path.
   */
  lemma OverlapCanAlwaysHarm(cfg: Config, vault: VaultFiles, actions: seq<Action>, f: nat, p: Path,
                             one: string, two: string) returns (more: seq<Action>)
    requires CanRun(cfg, Started(cfg, vault), actions)
    requires var s := Run(cfg, Started(cfg, vault), actions); f in s.flushes && p in Busy(s.flushes[f])
    requires cfg.parse(one) != cfg.parse(two)
    ensures var s := Run(cfg, Started(cfg, vault), actions);
      && CanRun(cfg, s, more)
      && Quiescent(Run(cfg, s, more)) && !Agrees(cfg, Run(cfg, s, more), p)
  {
    hide Shape, Next, Enabled, WakeInv, Quiescent, OnlyLeft, AgreementInv;
    var start := Started(cfg, vault);
    var s := Run(cfg, start, actions);
    StartAgrees(cfg, vault, p);
    AgreementHasShape(cfg, start, p);
    ShapeOverRuns(cfg, start, actions);
    NoLostWakeUp(cfg, start, actions);
    var first := HoldPath(cfg, s, f, p);
    var s1 := Run(cfg, s, first);
    var fm := s1.flushes[f].work.fm;
    var content := if cfg.parse(one) != fm then one else two;
    var s2 := ChangeWhileHeld(cfg, s1, f, p, content);
    var around := SettleAround(cfg, s2, f);
    var s3 := Run(cfg, s2, around);
    LeftIsThere(s3, f);
    var last := LateStore(cfg, s3, f, p, fm);
    RunJoin(cfg, s2, around, last);
    RunCons(cfg, s1, WriteFile(p, content), around + last);
    RunJoin(cfg, s, first, [WriteFile(p, content)] + (around + last));
    more := first + ([WriteFile(p, content)] + (around + last));
    HeldIsEligible(cfg, s1, f, p);
  }

  lemma ChangeWhileHeld(cfg: Config, s: System, f: nat, p: Path, content: string) returns (s': System)
    requires Shape(cfg, s) && WakeInv(s) && f in s.flushes
    ensures Enabled(s, WriteFile(p, content)) && s' == Next(cfg, s, WriteFile(p, content))
    ensures Shape(cfg, s') && WakeInv(s') && f in s'.flushes && s'.flushes[f] == s.flushes[f]
    ensures s'.vault == s.vault[p := content]
  {
    s' := Next(cfg, s, WriteFile(p, content));
    ShapeStep(cfg, s, WriteFile(p, content));
    WakeStep(cfg, s, WriteFile(p, content));
  }

  lemma LeftIsThere(s: System, f: nat)
    requires OnlyLeft(s, f)
    ensures f in s.flushes
  {
    assert f in s.flushes.Keys;
  }

  lemma HeldIsEligible(cfg: Config, s: System, f: nat, p: Path)
    requires Shape(cfg, s) && f in s.flushes && s.flushes[f].work.Holding? && s.flushes[f].work.path == p
    ensures cfg.eligible(p)
  {
    assert p in Busy(s.flushes[f]);
  }

  // ----- The shortest such run -----

  const NOTE := "note.md"

  function Plain(): Config {
    Config((p: Path) => true, (text: string) => Some([("body", text)]), (s: string) => s)
  }

  /** Runs compose action by action. */
  lemma RunCons(cfg: Config, s: System, a: Action, rest: seq<Action>)
    requires Enabled(s, a) && CanRun(cfg, Next(cfg, s, a), rest)
    ensures CanRun(cfg, s, [a] + rest) && Run(cfg, s, [a] + rest) == Run(cfg, Next(cfg, s, a), rest)
  {
    assert ([a] + rest)[1..] == rest;
  }

  lemma RunFirst(cfg: Config, s: System, actions: seq<Action>)
    requires |actions| > 0 && CanRun(cfg, s, actions)
    ensures Enabled(s, actions[0]) && CanRun(cfg, Next(cfg, s, actions[0]), actions[1..])
    ensures Run(cfg, s, actions) == Run(cfg, Next(cfg, s, actions[0]), actions[1..])
  {
  }

  lemma RunNone(cfg: Config, s: System, actions: seq<Action>)
    requires |actions| == 0
    ensures CanRun(cfg, s, actions) && Run(cfg, s, actions) == s
  {
  }

  lemma RunJoin(cfg: Config, s: System, first: seq<Action>, second: seq<Action>)
    requires CanRun(cfg, s, first) && CanRun(cfg, Run(cfg, s, first), second)
    ensures CanRun(cfg, s, first + second) && Run(cfg, s, first + second) == Run(cfg, Run(cfg, s, first), second)
    decreases |first|
  {
    hide Next, Enabled, CanRun, Run;
    if |first| == 0 {
      RunNone(cfg, s, first);
      assert first + second == second;
    } else {
      RunFirst(cfg, s, first);
      RunJoin(cfg, Next(cfg, s, first[0]), first[1..], second);
      assert first + second == [first[0]] + (first[1..] + second);
      RunCons(cfg, s, first[0], first[1..] + second);
    }
  }

  /** A change to the note, its event, its timer, and a flush body that has read it. */
  function ReadChange(text: string, t: nat): seq<Action> {
    [WriteFile(NOTE, text), Deliver, Fire(t), Take(t), Pick(t, NOTE), ReadPath(t)]
  }

  function FlushEnd(t: nat): seq<Action> {
    [StorePath(t), Finish(t)]
  }

  lemma ReadChangeRuns(s: System, text: string)
    requires s.queue == [] && s.core.pending == {} && s.core.timer == None
    requires s.core.nextTimer !in s.timers && s.core.nextTimer !in s.flushes
    ensures var t := s.core.nextTimer;
      && CanRun(Plain(), s, ReadChange(text, t))
      && Run(Plain(), s, ReadChange(text, t)) ==
         System(s.core.(nextTimer := t + 1), s.vault[NOTE := text], [], s.timers[t := Dead], s.late,
                s.flushes[t := Flush({}, Holding(NOTE, Some([("body", text)])))])
  {
    hide Next, Enabled;
    var cfg, t := Plain(), s.core.nextTimer;
    var s1, s2, s3, s4, s5, s6 := ReadChangeStates(s, text);
    RunCons(cfg, s5, ReadPath(t), []);
    RunCons(cfg, s4, Pick(t, NOTE), [ReadPath(t)]);
    RunCons(cfg, s3, Take(t), [Pick(t, NOTE), ReadPath(t)]);
    RunCons(cfg, s2, Fire(t), [Take(t), Pick(t, NOTE), ReadPath(t)]);
    RunCons(cfg, s1, Deliver, [Fire(t), Take(t), Pick(t, NOTE), ReadPath(t)]);
    RunCons(cfg, s, WriteFile(NOTE, text), [Deliver, Fire(t), Take(t), Pick(t, NOTE), ReadPath(t)]);
  }

  lemma ReadChangeStates(s: System, text: string)
    returns (s1: System, s2: System, s3: System, s4: System, s5: System, s6: System)
    requires s.queue == [] && s.core.pending == {} && s.core.timer == None
    requires s.core.nextTimer !in s.timers && s.core.nextTimer !in s.flushes
    ensures var cfg, t := Plain(), s.core.nextTimer;
      && Enabled(s, WriteFile(NOTE, text)) && s1 == Next(cfg, s, WriteFile(NOTE, text))
      && Enabled(s1, Deliver) && s2 == Next(cfg, s1, Deliver)
      && Enabled(s2, Fire(t)) && s3 == Next(cfg, s2, Fire(t))
      && Enabled(s3, Take(t)) && s4 == Next(cfg, s3, Take(t))
      && Enabled(s4, Pick(t, NOTE)) && s5 == Next(cfg, s4, Pick(t, NOTE))
      && Enabled(s5, ReadPath(t)) && s6 == Next(cfg, s5, ReadPath(t))
      && s6 == System(s.core.(nextTimer := t + 1), s.vault[NOTE := text], [], s.timers[t := Dead], s.late,
                      s.flushes[t := Flush({}, Holding(NOTE, Some([("body", text)])))])
  {
    var cfg, t := Plain(), s.core.nextTimer;
    s1 := Next(cfg, s, WriteFile(NOTE, text));
    assert s1.queue == [NOTE];
    s2 := Next(cfg, s1, Deliver);
    assert s2.core.pending == {NOTE} && s2.queue == [];
    s3 := Next(cfg, s2, Fire(t));
    s4 := Next(cfg, s3, Take(t));
    s5 := Next(cfg, s4, Pick(t, NOTE));
    s6 := Next(cfg, s5, ReadPath(t));
    assert s6.timers == s.timers[t := Dead];
    assert s6.flushes == s.flushes[t := Flush({}, Holding(NOTE, Some([("body", text)])))];
  }

  lemma FlushEndRuns(s: System, t: nat, fm: Meta)
    requires t in s.flushes && s.flushes[t] == Flush({}, Holding(NOTE, Some(fm)))
    ensures CanRun(Plain(), s, FlushEnd(t))
    ensures Run(Plain(), s, FlushEnd(t))
         == s.(core := s.core.(index := s.core.index[NOTE := fm]), flushes := s.flushes - {t})
  {
    var cfg := Plain();
    var s1 := Next(cfg, s, StorePath(t));
    var s2 := Next(cfg, s1, Finish(t));
    RunCons(cfg, s1, Finish(t), []);
    RunCons(cfg, s, StorePath(t), [Finish(t)]);
  }

  /** The second flush starts while the first still holds what it read of the same path. */
  function Overlap(): seq<Action> {
    (ReadChange("one", 0) + ReadChange("two", 1)) + (FlushEnd(1) + FlushEnd(0))
  }

  /** Both flush bodies have read the note: the first its old text, the second its new one. */
  function BothHold(): System {
    var cfg := Plain();
    System(Started(cfg, map[]).core.(nextTimer := 2), map[NOTE := "two"], [], map[0 := Dead, 1 := Dead],
           Started(cfg, map[]).late,
           map[0 := Flush({}, Holding(NOTE, Some([("body", "one")]))),
               1 := Flush({}, Holding(NOTE, Some([("body", "two")])))])
  }

  lemma BothReadChanges()
    ensures var start, both := Started(Plain(), map[]), ReadChange("one", 0) + ReadChange("two", 1);
      CanRun(Plain(), start, both) && Run(Plain(), start, both) == BothHold()
  {
    hide Next, Enabled, ReadChange, Run, CanRun;
    var cfg, start := Plain(), Started(Plain(), map[]);
    ReadChangeRuns(start, "one");
    var s1 := Run(cfg, start, ReadChange("one", 0));
    ReadChangeRuns(s1, "two");
    RunJoin(cfg, start, ReadChange("one", 0), ReadChange("two", 1));
    assert s1.vault[NOTE := "two"] == map[NOTE := "two"];
  }

  lemma BothStore()
    ensures CanRun(Plain(), BothHold(), FlushEnd(1) + FlushEnd(0))
    ensures var stale := Run(Plain(), BothHold(), FlushEnd(1) + FlushEnd(0));
      && stale.core == BothHold().core.(index := map[NOTE := [("body", "one")]])
      && stale.vault == BothHold().vault && stale.queue == [] && stale.timers == BothHold().timers
      && stale.late == BothHold().late && stale.flushes == map[]
  {
    hide Next, Enabled, FlushEnd, Run, CanRun;
    var cfg, s := Plain(), BothHold();
    FlushEndRuns(s, 1, [("body", "two")]);
    var s1 := Run(cfg, s, FlushEnd(1));
    FlushEndRuns(s1, 0, [("body", "one")]);
    RunJoin(cfg, s, FlushEnd(1), FlushEnd(0));
    assert Run(cfg, s1, FlushEnd(0)).flushes == map[];
    assert map[NOTE := [("body", "two")]][NOTE := [("body", "one")]] == map[NOTE := [("body", "one")]];
  }

  /** Two overlapping flush bodies on one path can leave the index stale for good. */
  lemma OverlappingFlushesGoStale()
    ensures var start := Started(Plain(), map[]);
      && CanRun(Plain(), start, Overlap())
      && var s := Run(Plain(), start, Overlap());
         && Quiescent(s)
         && s.core.index == map[NOTE := [("body", "one")]]
         && FreshScan(Plain(), s.vault) == map[NOTE := [("body", "two")]]
  {
    hide Next, Enabled, ReadChange, FlushEnd, Run, CanRun;
    var cfg, start := Plain(), Started(Plain(), map[]);
    BothReadChanges();
    BothStore();
    RunJoin(cfg, start, ReadChange("one", 0) + ReadChange("two", 1), FlushEnd(1) + FlushEnd(0));
  }
}

/** The in-memory frontmatter index: one method per lock region, and the answers it gives. */
module FrontmatterIndex {
  import opened Basics

  type Path = string

  /** Frontmatter as (key, value) pairs, both already rendered with `str`. */
  type Meta = seq<(string, string)>

  /** File contents by path; directories and vanished files are absent. */
  type VaultFiles = map<Path, string>

  /** Which paths are indexed, the YAML parser (None on failure), and `str.lower`. */
  datatype Config = Config(eligible: Path -> bool, parse: string -> Option<Meta>, lower: string -> string)

  /** What reading and parsing the file gives now. */
  function ReadEntry(cfg: Config, vault: VaultFiles, p: Path): Option<Meta> {
    if p in vault then cfg.parse(vault[p]) else None
  }

  /** The entry a full scan would store. */
  function FreshEntry(cfg: Config, vault: VaultFiles, p: Path): Option<Meta> {
    if cfg.eligible(p) then ReadEntry(cfg, vault, p) else None
  }

  function FreshScan(cfg: Config, vault: VaultFiles): map<Path, Meta> {
    map p | p in vault && FreshEntry(cfg, vault, p).Some? :: FreshEntry(cfg, vault, p).value
  }

  /** A full scan stores the parsed frontmatter of every eligible file that exists and parses, and nothing else. */
  lemma FreshScanHolds(cfg: Config, vault: VaultFiles, p: Path, fm: Meta)
    ensures p in FreshScan(cfg, vault) && FreshScan(cfg, vault)[p] == fm <==>
      p in vault && cfg.eligible(p) && cfg.parse(vault[p]) == Some(fm)
  {
    assert p in FreshScan(cfg, vault) ==> Some(FreshScan(cfg, vault)[p]) == FreshEntry(cfg, vault, p);
  }

  function Entry(index: map<Path, Meta>, p: Path): Option<Meta> {
    if p in index then Some(index[p]) else None
  }

  // ----- The lock regions, on the object's state -----

  /** The fields the lock protects; timers are numbered in order of creation. */
  datatype Core = Core(index: map<Path, Meta>, pending: set<Path>, timer: Option<nat>, started: bool, nextTimer: nat)

  function Schedule(core: Core, p: Path): Core {
    core.(pending := core.pending + {p}, timer := Some(core.nextTimer), nextTimer := core.nextTimer + 1)
  }

  function TakeAll(core: Core): Core {
    core.(pending := {}, timer := None)
  }

  function StoreEntry(core: Core, p: Path, fm: Option<Meta>): Core {
    core.(index := if fm.Some? then core.index[p := fm.value] else core.index - {p})
  }

  function StopCore(core: Core): Core {
    if !core.started then core else core.(started := false, timer := None, pending := {})
  }

  class Index {
    const cfg: Config
    var index: map<Path, Meta>
    var pending: set<Path>
    var timer: Option<nat>
    var started: bool
    var nextTimer: nat

    ghost function View(): Core
      reads this
    {
      Core(index, pending, timer, started, nextTimer)
    }

    constructor (cfg: Config)
      ensures this.cfg == cfg && View() == Core(map[], {}, None, false, 0)
    {
      this.cfg := cfg;
      index, pending, timer, started, nextTimer := map[], {}, None, false, 0;
    }

    /** `_schedule_debounce`; the previous timer, if any, is to be cancelled and `armed` started. */
    method ScheduleDebounce(p: Path) returns (cancelled: Option<nat>, armed: nat)
      modifies this
      ensures View() == Schedule(old(View()), p)
      ensures cancelled == old(timer) && armed == old(nextTimer)
    {
      pending := pending + {p};
      cancelled := timer;
      armed := nextTimer;
      nextTimer := nextTimer + 1;
      timer := Some(armed);
    }

    /** `_VaultEventHandler._handle` for a file event. */
    method Handle(p: Path, isDirectory: bool) returns (cancelled: Option<nat>)
      modifies this
      ensures isDirectory || !cfg.eligible(p) ==> View() == old(View()) && cancelled == None
      ensures !isDirectory && cfg.eligible(p) ==> View() == Schedule(old(View()), p) && cancelled == old(timer)
    {
      if isDirectory || !cfg.eligible(p) {
        return None;
      }
      var armed;
      cancelled, armed := ScheduleDebounce(p);
    }

    /** The first lock region of `_flush_pending`. */
    method TakePending() returns (paths: set<Path>)
      modifies this
      ensures View() == TakeAll(old(View())) && paths == old(pending)
    {
      paths := pending;
      pending := {};
      timer := None;
    }

    /** The lock region that records what was read for one path. */
    method Store(p: Path, fm: Option<Meta>)
      modifies this
      ensures View() == StoreEntry(old(View()), p, fm)
    {
      if fm.Some? {
        index := index[p := fm.value];
      } else {
        index := index - {p};
      }
    }

    /** `_flush_pending` with the vault at rest: exactly the pending paths are brought up to date. */
    method Flush(vault: VaultFiles)
      modifies this
      ensures pending == {} && timer == None && started == old(started) && nextTimer == old(nextTimer)
      ensures forall p ::
        Entry(index, p) == (if p in old(pending) then ReadEntry(cfg, vault, p) else Entry(old(index), p))
    {
      var todo := TakePending();
      ghost var all := todo;
      while todo != {}
        invariant todo <= all
        invariant pending == {} && timer == None && started == old(started) && nextTimer == old(nextTimer)
        invariant forall p ::
          Entry(index, p) == (if p in all - todo then ReadEntry(cfg, vault, p) else Entry(old(index), p))
        decreases todo
      {
        var p :| p in todo;
        var fm := if p in vault then cfg.parse(vault[p]) else None;
        Store(p, fm);
        todo := todo - {p};
      }
    }

    /** The lock region of `stop`; the captured timer is cancelled after the lock is released. */
    method BeginStop() returns (captured: Option<nat>)
      modifies this
      ensures View() == StopCore(old(View()))
      ensures captured == if old(started) then old(timer) else None
    {
      captured := None;
      if started {
        started := false;
        captured := timer;
        timer := None;
        pending := {};
      }
    }

    /** `rebuild`: a scan of the vault, then one swap under the lock. */
    method Rebuild(vault: VaultFiles) returns (count: nat)
      modifies this
      ensures View() == old(View()).(index := FreshScan(cfg, vault))
      ensures count == |FreshScan(cfg, vault)|
    {
      var newIndex: map<Path, Meta> := map[];
      var todo := vault.Keys;
      count := 0;
      while todo != {}
        invariant todo <= vault.Keys
        invariant newIndex == map p | p in vault && p !in todo && FreshEntry(cfg, vault, p).Some?
                                :: FreshEntry(cfg, vault, p).value
        invariant count == |newIndex|
        decreases todo
      {
        var p :| p in todo;
        todo := todo - {p};
        if cfg.eligible(p) {
          var fm := cfg.parse(vault[p]);
          if fm.Some? {
            assert p !in newIndex;
            newIndex := newIndex[p := fm.value];
            count := count + 1;
          }
        }
      }
      assert newIndex == FreshScan(cfg, vault);
      index := newIndex;
    }

    /** `search_by_field`. */
    method SearchByField(q: Query) returns (results: map<Path, Meta>)
      ensures results == Search(cfg, index, q)
    {
      results := map[];
      var todo := index.Keys;
      while todo != {}
        invariant todo <= index.Keys
        invariant results == map p | p in index && p !in todo && Hit(cfg, q, p, index[p]) :: index[p]
        decreases todo
      {
        var p :| p in todo;
        todo := todo - {p};
        var hit := MatchEntry(q, p, index[p]);
        if hit {
          results := results[p := index[p]];
        }
      }
      assert results == Search(cfg, index, q);
    }

    /** The body of the search loop, for one file. */
    method MatchEntry(q: Query, p: Path, fm: Meta) returns (hit: bool)
      ensures hit == Hit(cfg, q, p, fm)
    {
      if q.pathPrefix.Some? && q.pathPrefix.value != "" {
        if cfg.lower(q.pathPrefix.value) != "" && !StartsWith(cfg.lower(p), cfg.lower(q.pathPrefix.value)) {
          return false;
        }
      }
      hit := false;
      for i := 0 to |fm|
        invariant hit <==> exists k :: 0 <= k < i && FieldHit(cfg, q, fm[k])
      {
        if cfg.lower(fm[i].0) == cfg.lower(q.field) {
          match q.matchType {
            case Exists => hit := true;
            case Exact => hit := hit || cfg.lower(fm[i].1) == cfg.lower(q.value);
            case Contains => hit := hit || Occurs(cfg.lower(q.value), cfg.lower(fm[i].1));
            case Other =>
          }
        }
      }
    }
  }

  // ----- What a search answers -----

  datatype MatchType = Exact | Contains | Exists | Other

  datatype Query = Query(field: string, value: string, matchType: MatchType, pathPrefix: Option<string>)

  /** The pair has the queried key, and the value agrees in the asked way. */
  predicate FieldHit(cfg: Config, q: Query, pair: (string, string)) {
    && cfg.lower(pair.0) == cfg.lower(q.field)
    && match q.matchType
       case Exists => true
       case Exact => cfg.lower(pair.1) == cfg.lower(q.value)
       case Contains => Occurs(cfg.lower(q.value), cfg.lower(pair.1))
       case Other => false
  }

  predicate Hit(cfg: Config, q: Query, p: Path, fm: Meta) {
    && (q.pathPrefix.Some? && q.pathPrefix.value != "" && cfg.lower(q.pathPrefix.value) != "" ==>
         StartsWith(cfg.lower(p), cfg.lower(q.pathPrefix.value)))
    && exists k :: 0 <= k < |fm| && FieldHit(cfg, q, fm[k])
  }

  function Search(cfg: Config, index: map<Path, Meta>, q: Query): map<Path, Meta> {
    map p | p in index && Hit(cfg, q, p, index[p]) :: index[p]
  }

  /** No prefix was asked for, or the path starts with it; case does not matter. */
  ghost predicate UnderPrefix(cfg: Config, q: Query, p: Path) {
    || q.pathPrefix == None || q.pathPrefix == Some("") || cfg.lower(q.pathPrefix.value) == ""
    || exists rest :: Parts(cfg.lower(p), "", cfg.lower(q.pathPrefix.value), rest)
  }

  lemma UnderPrefixIff(cfg: Config, q: Query, p: Path)
    ensures UnderPrefix(cfg, q, p) <==>
      (q.pathPrefix.Some? && q.pathPrefix.value != "" && cfg.lower(q.pathPrefix.value) != "" ==>
         StartsWith(cfg.lower(p), cfg.lower(q.pathPrefix.value)))
  {
    if q.pathPrefix.Some? {
      var path, prefix := cfg.lower(p), cfg.lower(q.pathPrefix.value);
      if StartsWith(path, prefix) {
        assert Parts(path, "", prefix, path[|prefix|..]);
      }
      forall rest | Parts(path, "", prefix, rest) ensures StartsWith(path, prefix) {
        assert path == prefix + rest && (prefix + rest)[..|prefix|] == prefix;
      }
    }
  }

  /**
   * What a search finds, written out: an indexed file under the prefix, with some field whose key is
   * the queried one up to case and, for "exact", whose value is the queried one up to case; for
   * "contains", whose value has the queried one inside up to case; for "exists", any value; for
   * another match type nothing.
   */
  lemma SearchAnswers(cfg: Config, index: map<Path, Meta>, q: Query, p: Path)
    ensures p in Search(cfg, index, q) ==> p in index && Search(cfg, index, q)[p] == index[p]
    ensures q.matchType.Exact? ==> (p in Search(cfg, index, q) <==>
      && p in index && UnderPrefix(cfg, q, p)
      && exists k :: 0 <= k < |index[p]| && cfg.lower(index[p][k].0) == cfg.lower(q.field)
                     && cfg.lower(index[p][k].1) == cfg.lower(q.value))
    ensures q.matchType.Contains? ==> (p in Search(cfg, index, q) <==>
      && p in index && UnderPrefix(cfg, q, p)
      && exists k, a, b :: 0 <= k < |index[p]| && cfg.lower(index[p][k].0) == cfg.lower(q.field)
                           && Parts(cfg.lower(index[p][k].1), a, cfg.lower(q.value), b))
    ensures q.matchType.Exists? ==> (p in Search(cfg, index, q) <==>
      && p in index && UnderPrefix(cfg, q, p)
      && exists k :: 0 <= k < |index[p]| && cfg.lower(index[p][k].0) == cfg.lower(q.field))
    ensures q.matchType.Other? ==> p !in Search(cfg, index, q)
  {
    hide Occurs, UnderPrefix;
    UnderPrefixIff(cfg, q, p);
    if p in index {
      var fm := index[p];
      forall k | 0 <= k < |fm|
        ensures Occurs(cfg.lower(q.value), cfg.lower(fm[k].1)) <==>
          exists a, b :: Parts(cfg.lower(fm[k].1), a, cfg.lower(q.value), b)
      {
        OccursIff(cfg.lower(q.value), cfg.lower(fm[k].1));
      }
    }
  }
}

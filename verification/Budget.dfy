/** The state of a `Backoffer` as a value, what one back-off call does to it, and the sums it keeps. */
module Budget {
  import opened Machine
  import opened BackoffFn

  datatype FnCfg = FnCfg(base: U64, cap: U64, jitter: Jitter)

  datatype ErrorKind =
    | TiKVServerTimeout
    | ResolveLockTimeout
    | RegionUnavailable
    | RegionNotInitialized
    | RegionRecoveryInProgress
    | TiKVServerBusy
    | IsWitness

  datatype BackofferError =
    | Canceled(message: string)
    | MaxSleepExceeded(kind: ErrorKind)
    | Other(message: string)

  datatype Outcome = Slept | Refused(error: BackofferError)

  datatype BackoffConfig = BackoffConfig(name: string, fnCfg: FnCfg, errKind: ErrorKind)

  const BUSY: string := "tikvServerBusy"
  const TXN_LOCK_FAST: string := "txnLockFast"

  const BO_TIKV_RPC := BackoffConfig("tikvRPC", FnCfg(100, 2000, Equal), TiKVServerTimeout)
  const BO_REGION_MISS := BackoffConfig("regionMiss", FnCfg(2, 500, No), RegionUnavailable)
  const BO_TIKV_SERVER_BUSY := BackoffConfig(BUSY, FnCfg(2000, 10_000, Equal), TiKVServerBusy)
  const BO_REGION_RECOVERY_IN_PROGRESS :=
    BackoffConfig("regionRecoveryInProgress", FnCfg(100, 10_000, Equal), RegionRecoveryInProgress)
  const BO_TXN_NOT_FOUND := BackoffConfig("txnNotFound", FnCfg(2, 500, No), ResolveLockTimeout)
  const BO_MAX_REGION_NOT_INITIALIZED :=
    BackoffConfig("regionNotInitialized", FnCfg(2, 1000, No), RegionNotInitialized)
  const BO_IS_WITNESS := BackoffConfig("isWitness", FnCfg(1000, 10_000, Equal), IsWitness)
  const BO_TXN_LOCK_FAST := BackoffConfig(TXN_LOCK_FAST, FnCfg(2, 3000, Equal), ResolveLockTimeout)

  const TABLE: set<BackoffConfig> := {
    BO_TIKV_RPC, BO_REGION_MISS, BO_TIKV_SERVER_BUSY, BO_REGION_RECOVERY_IN_PROGRESS, BO_TXN_NOT_FOUND,
    BO_MAX_REGION_NOT_INITIALIZED, BO_IS_WITNESS, BO_TXN_LOCK_FAST
  }

  datatype Vars = Vars(lockFastMs: U64, weight: U64)

  const DEFAULT_VARS: Vars := Vars(10, 2)

  /** The fields of `Backoffer`; `ctx` names its context. The counters are unbounded here: see
      `BudgetRuns.NoOverflow` for when they fit in 64 bits. */
  datatype Budget = Budget(
    ctx: nat,
    maxSleep: U64,
    total: nat,
    excluded: nat,
    vars: Vars,
    noop: bool,
    errors: seq<string>,
    configs: seq<BackoffConfig>,
    sleepMs: map<string, nat>,
    times: map<string, nat>,
    fns: map<string, FnState>)

  function NewBudget(ctx: nat, maxSleep: U64, vars: Vars): Budget
  {
    Budget(ctx, SatMulU64(maxSleep, vars.weight), 0, 0, vars, false, [], [], map[], map[], map[])
  }

  function NewNoop(ctx: nat): Budget
  {
    Budget(ctx, 0, 0, 0, DEFAULT_VARS, true, [], [], map[], map[], map[])
  }

  function CloneOf(b: Budget): Budget
  {
    b.(fns := map[])
  }

  function ForkOf(b: Budget, ctx: nat): Budget
  {
    b.(ctx := ctx, fns := map[])
  }

  /** `update_using_forked` once the ancestry test has passed. */
  function Merge(b: Budget, forked: Budget): Budget
  {
    b.(total := forked.total, excluded := forked.excluded, errors := forked.errors,
       sleepMs := forked.sleepMs, times := forked.times)
  }

  /** A call of `backoff_with_cfg_and_max_sleep`. */
  datatype Call = Call(cfg: BackoffConfig, limit: Option<U64>, message: string, draw: nat)

  function Get(m: map<string, nat>, name: string): nat
  {
    if name in m then m[name] else 0
  }

  function FreshFn(b: Budget, cfg: BackoffConfig): FnState
  {
    NewFnState(if cfg.name == TXN_LOCK_FAST then b.vars.lockFastMs else cfg.fnCfg.base, cfg.fnCfg.cap, cfg.fnCfg.jitter)
  }

  function FnFor(b: Budget, cfg: BackoffConfig): FnState
  {
    if cfg.name in b.fns then b.fns[cfg.name] else FreshFn(b, cfg)
  }

  ghost predicate FnsReady(b: Budget)
  {
    forall name :: name in b.fns ==> Ready(b.fns[name])
  }

  /** Sleep that counts against `maxSleep`. */
  function Counted(b: Budget): int
  {
    b.total - b.excluded
  }

  predicate Exhausted(b: Budget, name: string, busyLimit: U64)
  {
    && b.maxSleep > 0
    && (|| Counted(b) >= b.maxSleep
        || (name == BUSY && b.excluded >= busyLimit && b.excluded >= b.maxSleep))
  }

  function SleptFor(b: Budget, call: Call): U64
    requires FnsReady(b)
  {
    BackoffMs(FnFor(b, call.cfg), call.limit, call.draw).0
  }

  /** The call's message, configuration and back-off function on record. */
  function BookCall(b: Budget, call: Call, fn: FnState): Budget
  {
    b.(errors := b.errors + [call.message], configs := b.configs + [call.cfg], fns := b.fns[call.cfg.name := fn])
  }

  /** A sleep entered in the totals. */
  function BookTotal(b: Budget, name: string, slept: U64): Budget
  {
    b.(total := b.total + slept, excluded := if name == BUSY then b.excluded + slept else b.excluded)
  }

  /** A sleep entered under its configuration. */
  function BookEntry(b: Budget, name: string, slept: U64): Budget
  {
    b.(sleepMs := b.sleepMs[name := Get(b.sleepMs, name) + slept], times := b.times[name := Get(b.times, name) + 1])
  }

  function BookSleep(b: Budget, name: string, slept: U64): Budget
  {
    BookEntry(BookTotal(b, name, slept), name, slept)
  }

  function Book(b: Budget, call: Call, slept: U64, fn: FnState): Budget
  {
    BookSleep(BookCall(b, call, fn), call.cfg.name, slept)
  }

  /** The state after an accepted call. */
  function Accept(b: Budget, call: Call): Budget
    requires FnsReady(b)
  {
    var (slept, fn) := BackoffMs(FnFor(b, call.cfg), call.limit, call.draw);
    Book(b, call, slept, fn)
  }

  /** A name that may be reported as having slept longest. */
  ghost predicate Dominant(b: Budget, name: string)
  {
    && name in b.sleepMs && name != BUSY
    && forall other :: other in b.sleepMs && other != BUSY ==> b.sleepMs[other] <= b.sleepMs[name]
  }

  ghost predicate HasCandidate(b: Budget)
  {
    exists name :: name in b.sleepMs && name != BUSY
  }

  ghost predicate Recorded(b: Budget, name: string)
  {
    exists i :: 0 <= i < |b.configs| && b.configs[i].name == name
  }

  ghost predicate FirstRecorded(b: Budget, cfg: BackoffConfig)
  {
    exists i :: 0 <= i < |b.configs| && b.configs[i] == cfg && forall j :: 0 <= j < i ==> b.configs[j].name != cfg.name
  }

  /** An iteration order of the map of sleeps: each of its names once. */
  ghost predicate IsOrder(b: Budget, order: seq<string>)
  {
    && (forall i, j :: 0 <= i < j < |order| ==> order[i] != order[j])
    && (forall name :: name in order <==> name in b.sleepMs)
  }

  /** One turn of the first loop of `longest_sleep_cfg`. */
  function Prefer(b: Budget, candidate: Option<(string, nat)>, name: string): Option<(string, nat)>
    requires name in b.sleepMs
  {
    if name != BUSY && (candidate.None? || b.sleepMs[name] > candidate.value.1) then Some((name, b.sleepMs[name]))
    else candidate
  }

  /** The candidate after the names of `order`, in that order. */
  function Candidate(b: Budget, order: seq<string>): Option<(string, nat)>
    requires forall name :: name in order ==> name in b.sleepMs
  {
    if order == [] then None else Prefer(b, Candidate(b, order[..|order| - 1]), order[|order| - 1])
  }

  /** The first configuration on record under the name. */
  function Find(configs: seq<BackoffConfig>, name: string): Option<BackoffConfig>
  {
    if configs == [] then None
    else if configs[0].name == name then Some(configs[0])
    else Find(configs[1..], name)
  }

  /** `longest_sleep_cfg` for one iteration order. */
  function LongestIn(b: Budget, order: seq<string>): Option<(BackoffConfig, nat)>
    requires forall name :: name in order ==> name in b.sleepMs
  {
    match Candidate(b, order)
    case None => None
    case Some((name, slept)) =>
      match Find(b.configs, name)
      case None => None
      case Some(cfg) => Some((cfg, slept))
  }

  /** What `longest_sleep_cfg` may return, over all iteration orders of the map. */
  ghost predicate Longest(b: Budget, r: Option<(BackoffConfig, nat)>)
  {
    exists order :: IsOrder(b, order) && LongestIn(b, order) == r
  }

  /** What one call may do: the new state and the outcome. */
  ghost predicate Backs(canceled: bool, busyLimit: U64, b: Budget, call: Call, b': Budget, out: Outcome)
    requires FnsReady(b)
  {
    if canceled then b' == b && out == Refused(Canceled(call.message))
    else if b.noop then b' == b && out == Refused(Other(call.message))
    else if Exhausted(b, call.cfg.name, busyLimit) then
      && b' == b
      && exists r :: Longest(b, r) &&
           out == Refused(if r.Some? then MaxSleepExceeded(r.value.0.errKind) else Other(call.message))
    else b' == Accept(b, call) && out == Slept
  }

  // Sums over a map.

  ghost function Sum(m: map<string, nat>): nat
    decreases |m|
  {
    if m == map[] then 0
    else
      var k :| k in m;
      m[k] + Sum(m - {k})
  }

  lemma {:induction false} SumRemove(m: map<string, nat>, k: string)
    requires k in m
    ensures Sum(m) == m[k] + Sum(m - {k})
    decreases |m|
  {
    var j :| j in m && Sum(m) == m[j] + Sum(m - {j});
    if j != k {
      SumRemove(m - {j}, k);
      SumRemove(m - {k}, j);
      assert m - {j} - {k} == m - {k} - {j};
    }
  }

  lemma SumAdd(m: map<string, nat>, k: string, d: nat)
    ensures Sum(m[k := Get(m, k) + d]) == Sum(m) + d
  {
    var m' := m[k := Get(m, k) + d];
    SumRemove(m', k);
    assert m' - {k} == m - {k};
    if k in m {
      SumRemove(m, k);
    } else {
      assert m - {k} == m;
    }
  }

  /** One entry is at most the sum. */
  lemma EntryWithinSum(m: map<string, nat>, k: string)
    ensures Get(m, k) <= Sum(m)
  {
    if k in m {
      SumRemove(m, k);
    }
  }

  /** The books balance: the total is the sum of the per-config sleeps, the excluded part is the
      busy entry, and every recorded error has been counted once. */
  ghost predicate Balanced(b: Budget)
  {
    && FnsReady(b)
    && b.total == Sum(b.sleepMs)
    && b.excluded == Get(b.sleepMs, BUSY)
    && |b.errors| == Sum(b.times)
    && b.sleepMs.Keys == b.times.Keys
  }

  /** The subtraction of the excluded sleep never goes below zero. */
  lemma ExcludedWithinTotal(b: Budget)
    requires Balanced(b)
    ensures b.excluded <= b.total
  {
    EntryWithinSum(b.sleepMs, BUSY);
  }

  lemma KeysAdd(m: map<string, nat>, k: string, v: nat)
    ensures m[k := v].Keys == m.Keys + {k}
  {
  }

  lemma TotalsBooked(b: Budget, name: string, slept: U64)
    requires b.total == Sum(b.sleepMs) && b.excluded == Get(b.sleepMs, BUSY)
    ensures var b' := BookSleep(b, name, slept); b'.total == Sum(b'.sleepMs) && b'.excluded == Get(b'.sleepMs, BUSY)
  {
    SumAdd(b.sleepMs, name, slept);
  }

  lemma EntriesBooked(b: Budget, name: string, slept: U64)
    requires b.sleepMs.Keys == b.times.Keys
    ensures var b' := BookSleep(b, name, slept);
            b'.sleepMs.Keys == b'.times.Keys && Sum(b'.times) == Sum(b.times) + 1
  {
    SumAdd(b.times, name, 1);
    KeysAdd(b.sleepMs, name, Get(b.sleepMs, name) + slept);
    KeysAdd(b.times, name, Get(b.times, name) + 1);
  }

  lemma BookBalanced(b: Budget, call: Call, slept: U64, fn: FnState)
    requires Balanced(b) && Ready(fn)
    ensures Balanced(Book(b, call, slept, fn))
  {
    TotalsBooked(BookCall(b, call, fn), call.cfg.name, slept);
    EntriesBooked(BookCall(b, call, fn), call.cfg.name, slept);
  }

  lemma AcceptBalanced(b: Budget, call: Call)
    requires Balanced(b)
    ensures Balanced(Accept(b, call))
  {
    var (slept, fn) := BackoffMs(FnFor(b, call.cfg), call.limit, call.draw);
    BookBalanced(b, call, slept, fn);
  }

  /** Every configuration that slept is recorded, and nothing else is. */
  ghost predicate Keyed(b: Budget)
  {
    forall name :: name in b.sleepMs <==> Recorded(b, name)
  }

  lemma AcceptKeyed(b: Budget, call: Call)
    requires FnsReady(b) && Keyed(b)
    ensures Keyed(Accept(b, call))
  {
    var b' := Accept(b, call);
    assert b'.configs[|b.configs|] == call.cfg;
    forall name
      ensures name in b'.sleepMs <==> Recorded(b', name)
    {
      if Recorded(b, name) {
        var i :| 0 <= i < |b.configs| && b.configs[i].name == name;
        assert b'.configs[i].name == name;
      }
      if Recorded(b', name) && name != call.cfg.name {
        var i :| 0 <= i < |b'.configs| && b'.configs[i].name == name;
        assert b.configs[i].name == name;
      }
    }
  }

  lemma {:induction false} DominantExists(b: Budget, names: set<string>) returns (top: string)
    requires names <= b.sleepMs.Keys && BUSY !in names && names != {}
    ensures top in names && forall other :: other in names ==> b.sleepMs[other] <= b.sleepMs[top]
    decreases |names|
  {
    var name :| name in names;
    top := name;
    var rest := names - {name};
    assert names == rest + {name};
    if rest != {} {
      var best := DominantExists(b, rest);
      if b.sleepMs[best] > b.sleepMs[name] {
        top := best;
      }
    }
  }

  // What the loops of `longest_sleep_cfg` find.

  /** The candidate slept longest among the names seen, the excluded one aside. */
  ghost predicate Leads(b: Budget, candidate: Option<(string, nat)>, order: seq<string>)
  {
    match candidate
    case None => forall name :: name in order ==> name == BUSY
    case Some((top, slept)) =>
      && top in order && top != BUSY && top in b.sleepMs && slept == b.sleepMs[top]
      && forall name :: name in order && name in b.sleepMs && name != BUSY ==> b.sleepMs[name] <= slept
  }

  lemma PreferLeads(b: Budget, candidate: Option<(string, nat)>, order: seq<string>, name: string)
    requires Leads(b, candidate, order) && name in b.sleepMs
    ensures Leads(b, Prefer(b, candidate, name), order + [name])
  {
    assert forall other :: other in order + [name] <==> other in order || other == name;
  }

  lemma {:induction false} CandidateLeads(b: Budget, order: seq<string>)
    requires forall name :: name in order ==> name in b.sleepMs
    ensures Leads(b, Candidate(b, order), order)
    decreases |order|
  {
    if order != [] {
      var n := |order| - 1;
      CandidateLeads(b, order[..n]);
      PreferLeads(b, Candidate(b, order[..n]), order[..n], order[n]);
      assert order == order[..n] + [order[n]];
    }
  }

  /** A name that slept longest, visited first, is never given up. */
  lemma {:induction false} FirstStays(b: Budget, top: string, order: seq<string>)
    requires Dominant(b, top) && order != [] && order[0] == top
    requires forall name :: name in order ==> name in b.sleepMs
    ensures Candidate(b, order) == Some((top, b.sleepMs[top]))
    decreases |order|
  {
    if |order| == 1 {
      assert order[..0] == [];
    } else {
      FirstStays(b, top, order[..|order| - 1]);
    }
  }

  lemma {:induction false} FindFirst(configs: seq<BackoffConfig>, name: string)
    ensures match Find(configs, name)
            case None => forall i :: 0 <= i < |configs| ==> configs[i].name != name
            case Some(cfg) =>
              cfg.name == name && exists i :: 0 <= i < |configs| && configs[i] == cfg
                                              && forall j :: 0 <= j < i ==> configs[j].name != name
    decreases |configs|
  {
    if configs != [] && configs[0].name != name {
      FindFirst(configs[1..], name);
      match Find(configs, name)
      case None => assert forall i :: 0 < i < |configs| ==> configs[i] == configs[1..][i - 1];
      case Some(cfg) =>
        var i :| 0 <= i < |configs[1..]| && configs[1..][i] == cfg
                 && forall j :: 0 <= j < i ==> configs[1..][j].name != name;
        assert configs[i + 1] == cfg && forall j :: 0 < j < i + 1 ==> configs[j] == configs[1..][j - 1];
    }
  }

  lemma FindIsFirstRecorded(b: Budget, cfg: BackoffConfig)
    ensures FirstRecorded(b, cfg) <==> Find(b.configs, cfg.name) == Some(cfg)
    ensures Recorded(b, cfg.name) <==> Find(b.configs, cfg.name).Some?
  {
    FindFirst(b.configs, cfg.name);
  }

  lemma {:induction false} OrderFor(names: set<string>) returns (order: seq<string>)
    ensures forall i, j :: 0 <= i < j < |order| ==> order[i] != order[j]
    ensures forall name :: name in order <==> name in names
    decreases |names|
  {
    order := [];
    if names != {} {
      var name :| name in names;
      var rest := OrderFor(names - {name});
      order := [name] + rest;
    }
  }

  /** Any name of the map can come first. */
  lemma OrderFrom(b: Budget, first: string) returns (order: seq<string>)
    requires first in b.sleepMs
    ensures IsOrder(b, order) && order != [] && order[0] == first
  {
    var rest := OrderFor(b.sleepMs.Keys - {first});
    order := [first] + rest;
  }

  /** The answer, without the loops: a configuration that slept longest among the non-excluded ones,
      in its first record; none where no such configuration slept, or where one that slept longest
      is not on record. */
  ghost predicate SleptLongest(b: Budget, r: Option<(BackoffConfig, nat)>)
  {
    match r
    case Some((cfg, slept)) => Dominant(b, cfg.name) && slept == b.sleepMs[cfg.name] && FirstRecorded(b, cfg)
    case None => !HasCandidate(b) || exists name :: Dominant(b, name) && !Recorded(b, name)
  }

  /** Whatever the order, the loops find such an answer. */
  lemma OrderFindsLongest(b: Budget, order: seq<string>)
    requires IsOrder(b, order)
    ensures SleptLongest(b, LongestIn(b, order))
  {
    CandidateLeads(b, order);
    match Candidate(b, order)
    case None =>
    case Some((name, _)) =>
      assert Dominant(b, name);
      FindFirst(b.configs, name);
  }

  /** And whatever such an answer, some order makes the loops find it. */
  lemma LongestHasOrder(b: Budget, r: Option<(BackoffConfig, nat)>) returns (order: seq<string>)
    requires SleptLongest(b, r)
    ensures IsOrder(b, order) && LongestIn(b, order) == r
  {
    if r.None? && !HasCandidate(b) {
      order := OrderFor(b.sleepMs.Keys);
      CandidateLeads(b, order);
    } else {
      var top: string;
      if r.Some? {
        top := r.value.0.name;
        FindIsFirstRecorded(b, r.value.0);
      } else {
        top :| Dominant(b, top) && !Recorded(b, top);
        FindFirst(b.configs, top);
      }
      order := OrderFrom(b, top);
      FirstStays(b, top, order);
    }
  }

  /** The loops, over all orders, return exactly the answers that slept longest. */
  lemma LongestIff(b: Budget, r: Option<(BackoffConfig, nat)>)
    ensures Longest(b, r) <==> SleptLongest(b, r)
  {
    if Longest(b, r) {
      var order :| IsOrder(b, order) && LongestIn(b, order) == r;
      OrderFindsLongest(b, order);
    }
    if SleptLongest(b, r) {
      var order := LongestHasOrder(b, r);
    }
  }

  /** `longest_sleep_cfg` answers in every iteration order if and only if some non-excluded
      configuration slept and every one that slept longest is on record. */
  lemma LongestAnswersIff(b: Budget)
    ensures (forall order :: IsOrder(b, order) ==> LongestIn(b, order).Some?) <==>
            HasCandidate(b) && forall name :: Dominant(b, name) ==> Recorded(b, name)
  {
    if HasCandidate(b) && forall name :: Dominant(b, name) ==> Recorded(b, name) {
      forall order | IsOrder(b, order)
        ensures LongestIn(b, order).Some?
      {
        OrderFindsLongest(b, order);
      }
    } else {
      var order := LongestHasOrder(b, None);
    }
  }

  /** Without merges the two sides meet: it answers exactly when a non-excluded configuration has
      been accepted, and the answer slept longest. */
  lemma LongestOfKeyed(b: Budget, r: Option<(BackoffConfig, nat)>)
    requires Keyed(b) && Longest(b, r)
    ensures r.Some? <==> exists i :: 0 <= i < |b.configs| && b.configs[i].name != BUSY
    ensures r.Some? ==>
              && r.value.0 in b.configs && Dominant(b, r.value.0.name)
              && forall other :: other in b.sleepMs && other != BUSY ==> b.sleepMs[other] <= r.value.1
  {
    LongestIff(b, r);
    if i :| 0 <= i < |b.configs| && b.configs[i].name != BUSY {
      assert Recorded(b, b.configs[i].name);
      assert b.configs[i].name in b.sleepMs;
    }
    if r.Some? {
      var i :| 0 <= i < |b.configs| && b.configs[i] == r.value.0;
      assert b.configs[i].name != BUSY;
    }
  }

  // Merges.

  lemma SameConfigsRecorded(b: Budget, c: Budget, name: string)
    requires b.configs == c.configs
    ensures Recorded(b, name) <==> Recorded(c, name)
  {
  }

  /** A merge of two states whose books name what is on record keeps it so if and only if both have
      the same names on record: the configurations themselves are not copied. */
  lemma MergeKeyedIff(b: Budget, forked: Budget)
    requires Keyed(b) && Keyed(forked)
    ensures Keyed(Merge(b, forked)) <==> forall name :: Recorded(b, name) <==> Recorded(forked, name)
  {
    forall name
      ensures Recorded(Merge(b, forked), name) <==> Recorded(b, name)
    {
      SameConfigsRecorded(Merge(b, forked), b, name);
    }
  }
}

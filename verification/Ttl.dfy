/** The idle TTL of a cached region: its saturating arithmetic, and the compare-and-swap loop that
    refreshes it while other readers do the same. */
module Ttl {
  import opened Machine

  /** `RegionCacheTtl`. */
  datatype TtlConfig = TtlConfig(baseSec: I64, jitterSec: I64) {

    predicate IsEnabled() {
      baseSec > 0
    }

    function NextTtl(now: I64, draw: nat): (ttl: I64)
      ensures baseSec <= 0 ==> ttl == I64_MAX
      ensures baseSec > 0 ==>
                SatAddI64(now, baseSec) <= ttl && ttl - SatAddI64(now, baseSec) < Max(jitterSec, 1)
    {
      if !IsEnabled() then I64_MAX
      else
        var jitter := if jitterSec > 0 then GenRange(draw, jitterSec) else 0;
        SatAddI64(SatAddI64(now, baseSec), jitter)
    }

    /** The end of the window in which a hit moves the TTL. */
    function Horizon(now: I64): I64 {
      SatAddI64(now, baseSec)
    }

    /** `check_and_refresh` run without interference: the answer, and the TTL left behind. */
    function CheckAndRefresh(ttl: I64, now: I64, draw: nat): (r: (bool, I64))
      ensures r.0 <==> baseSec <= 0 || now <= ttl
      ensures ttl <= r.1
      ensures r.1 == if baseSec > 0 && now <= ttl <= SatAddI64(now, baseSec) then NextTtl(now, draw) else ttl
    {
      if !IsEnabled() then (true, ttl)
      else if now > ttl then (false, ttl)
      else if ttl > Horizon(now) then (true, ttl)
      else (true, NextTtl(now, draw))
    }
  }

  /** Every TTL from the base to the base plus the jitter, saturated, is set for some draw. */
  lemma NextTtlReaches(cfg: TtlConfig, now: I64, jitter: nat) returns (draw: nat)
    requires cfg.baseSec > 0 && jitter < Max(cfg.jitterSec, 1)
    ensures cfg.NextTtl(now, draw) == Min(Min(now + cfg.baseSec, I64_MAX) + jitter, I64_MAX)
  {
    draw := jitter;
  }
}

/** The refresh loop as a machine: one shared TTL, any number of readers, each with its own clock
    reading, interleaved at every load and every compare-and-swap. */
module TtlRefresh {
  import opened Machine
  import opened Ttl

  /** Where one reader stands in the loop. `newTtl` is the loop's local, 0 while unset. */
  datatype Pc =
    | AtLoad(now: I64, newTtl: I64)
    | AtCas(now: I64, newTtl: I64, seen: I64)
    | Returned(answer: bool)

  datatype State = State(ttl: I64, readers: map<nat, Pc>)

  datatype Action =
    | Enter(reader: nat, now: I64)
    | Load(reader: nat, draw: nat)
    | Cas(reader: nat)

  predicate Enabled(s: State, a: Action) {
    match a
    case Enter(t, _) => t !in s.readers
    case Load(t, _) => t in s.readers && s.readers[t].AtLoad?
    case Cas(t) => t in s.readers && s.readers[t].AtCas?
  }

  function AfterLoad(cfg: TtlConfig, ttl: I64, now: I64, newTtl: I64, draw: nat): Pc {
    if now > ttl then Returned(false)
    else if ttl > cfg.Horizon(now) then Returned(true)
    else AtCas(now, if newTtl == 0 then cfg.NextTtl(now, draw) else newTtl, ttl)
  }

  function Next(cfg: TtlConfig, s: State, a: Action): State
    requires Enabled(s, a)
  {
    match a
    case Enter(t, now) => s.(readers := s.readers[t := AtLoad(now, 0)])
    case Load(t, draw) =>
      var pc := s.readers[t];
      s.(readers := s.readers[t := AfterLoad(cfg, s.ttl, pc.now, pc.newTtl, draw)])
    case Cas(t) =>
      var pc := s.readers[t];
      if s.ttl == pc.seen then State(pc.newTtl, s.readers[t := Returned(true)])
      else s.(readers := s.readers[t := AtLoad(pc.now, pc.newTtl)])
  }

  ghost predicate IsRun(cfg: TtlConfig, s: State, actions: seq<Action>)
    decreases actions
  {
    actions != [] ==> Enabled(s, actions[0]) && IsRun(cfg, Next(cfg, s, actions[0]), actions[1..])
  }

  ghost function End(cfg: TtlConfig, s: State, actions: seq<Action>): State
    requires IsRun(cfg, s, actions)
    decreases actions
  {
    if actions == [] then s else End(cfg, Next(cfg, s, actions[0]), actions[1..])
  }

  /** The local `new_ttl` is unset or a value `next_ttl` can return for this reader's clock. */
  ghost predicate Drawn(cfg: TtlConfig, now: I64, newTtl: I64)
  {
    exists draw: nat :: newTtl == cfg.NextTtl(now, draw)
  }

  ghost predicate PcOk(cfg: TtlConfig, ttl: I64, pc: Pc)
  {
    match pc
    case AtLoad(now, newTtl) => newTtl == 0 || Drawn(cfg, now, newTtl)
    case AtCas(now, newTtl, seen) => Drawn(cfg, now, newTtl) && now <= seen <= cfg.Horizon(now) && seen <= ttl
    case Returned(_) => true
  }

  ghost predicate Inv(cfg: TtlConfig, s: State)
  {
    forall t :: t in s.readers ==> PcOk(cfg, s.ttl, s.readers[t])
  }

  /** Every step keeps the invariant and never lowers the TTL. */
  lemma StepKeeps(cfg: TtlConfig, s: State, a: Action)
    requires cfg.IsEnabled() && Inv(cfg, s) && Enabled(s, a)
    ensures Inv(cfg, Next(cfg, s, a))
    ensures s.ttl <= Next(cfg, s, a).ttl
  {
    var s' := Next(cfg, s, a);
    assert a.reader in s.readers ==> PcOk(cfg, s.ttl, s.readers[a.reader]);
    if a.Load? {
      assert Drawn(cfg, s.readers[a.reader].now, cfg.NextTtl(s.readers[a.reader].now, a.draw));
    }
    assert s.ttl <= s'.ttl;
    forall t | t in s'.readers
      ensures PcOk(cfg, s'.ttl, s'.readers[t])
    {
      if t != a.reader {
        assert PcOk(cfg, s.ttl, s.readers[t]);
      }
    }
  }

  /** Linearization: a step that makes a reader return does, at that instant, exactly what the
      loop-free `CheckAndRefresh` does for that reader's clock and some draw; every other step
      leaves the TTL alone. */
  lemma ReturnsAtomically(cfg: TtlConfig, s: State, a: Action)
    requires cfg.IsEnabled() && Inv(cfg, s) && Enabled(s, a)
    ensures var s' := Next(cfg, s, a);
            if s'.readers[a.reader].Returned? then
              exists draw: nat ::
                (s'.readers[a.reader].answer, s'.ttl) == cfg.CheckAndRefresh(s.ttl, s.readers[a.reader].now, draw)
            else s'.ttl == s.ttl
  {
    var s' := Next(cfg, s, a);
    if s'.readers[a.reader].Returned? {
      var pc := s.readers[a.reader];
      assert PcOk(cfg, s.ttl, pc);
      if a.Load? {
        assert (s'.readers[a.reader].answer, s'.ttl) == cfg.CheckAndRefresh(s.ttl, pc.now, a.draw);
      } else {
        var draw: nat :| pc.newTtl == cfg.NextTtl(pc.now, draw);
        assert (s'.readers[a.reader].answer, s'.ttl) == cfg.CheckAndRefresh(s.ttl, pc.now, draw);
      }
    }
  }

  /** The TTL a reader has drawn. */
  function DrawnTtl(s: State, t: nat): I64
  {
    if t !in s.readers || s.readers[t].Returned? then 0 else s.readers[t].newTtl
  }

  /** A reader draws once: the TTL it has drawn is the one it tries to write until it returns. */
  lemma {:induction false} DrawsOnce(cfg: TtlConfig, s: State, actions: seq<Action>, t: nat)
    requires IsRun(cfg, s, actions) && DrawnTtl(s, t) != 0
    ensures var e := End(cfg, s, actions);
            t in e.readers && (e.readers[t].Returned? || DrawnTtl(e, t) == DrawnTtl(s, t))
    decreases actions
  {
    if actions != [] {
      var s' := Next(cfg, s, actions[0]);
      if s'.readers[t].Returned? {
        ReturnedStays(cfg, s', actions[1..], t);
      } else {
        DrawsOnce(cfg, s', actions[1..], t);
      }
    }
  }

  lemma {:induction false} ReturnedStays(cfg: TtlConfig, s: State, actions: seq<Action>, t: nat)
    requires IsRun(cfg, s, actions) && t in s.readers && s.readers[t].Returned?
    ensures t in End(cfg, s, actions).readers && End(cfg, s, actions).readers[t] == s.readers[t]
    decreases actions
  {
    if actions != [] {
      ReturnedStays(cfg, Next(cfg, s, actions[0]), actions[1..], t);
    }
  }

  /** And that is what its compare-and-swap leaves behind. */
  lemma CasWrites(cfg: TtlConfig, s: State, t: nat)
    requires Enabled(s, Cas(t))
    ensures var s' := Next(cfg, s, Cas(t));
            if s.ttl == s.readers[t].seen then s'.readers[t] == Returned(true) && s'.ttl == DrawnTtl(s, t)
            else DrawnTtl(s', t) == DrawnTtl(s, t) && s'.ttl == s.ttl && s'.readers[t].AtLoad?
  {
  }

  /** How many compare-and-swaps a reader can still lose: one for each TTL value up to its horizon. */
  ghost function LossesLeft(cfg: TtlConfig, s: State, t: nat): nat
  {
    if t !in s.readers then 0
    else match s.readers[t]
      case AtLoad(now, _) => Max(0, cfg.Horizon(now) - s.ttl + 1)
      case AtCas(now, _, seen) => Max(0, cfg.Horizon(now) - seen + 1)
      case Returned(_) => 0
  }

  ghost function StepsLeft(cfg: TtlConfig, s: State, t: nat): nat
  {
    if t !in s.readers || s.readers[t].Returned? then 0
    else 2 * LossesLeft(cfg, s, t) + if s.readers[t].AtLoad? then 1 else 0
  }

  ghost function StepsBy(actions: seq<Action>, t: nat): nat
  {
    if actions == [] then 0
    else (if actions[0].reader == t then 1 else 0) + StepsBy(actions[1..], t)
  }

  lemma StepUsesBudget(cfg: TtlConfig, s: State, a: Action, t: nat)
    requires cfg.IsEnabled() && Inv(cfg, s) && Enabled(s, a) && t in s.readers
    ensures var s' := Next(cfg, s, a);
            StepsLeft(cfg, s', t) + (if a.reader == t then 1 else 0) <= StepsLeft(cfg, s, t)
  {
    StepKeeps(cfg, s, a);
    assert PcOk(cfg, s.ttl, s.readers[t]);
  }

  /** Over every run, whatever the other readers do: the TTL only grows, and a reader that is in
      the loop takes at most `StepsLeft` further steps before it has returned. */
  lemma {:induction false} RefreshRuns(cfg: TtlConfig, s: State, actions: seq<Action>, t: nat)
    requires cfg.IsEnabled() && Inv(cfg, s) && IsRun(cfg, s, actions)
    ensures Inv(cfg, End(cfg, s, actions)) && s.ttl <= End(cfg, s, actions).ttl
    ensures t in s.readers ==> StepsBy(actions, t) <= StepsLeft(cfg, s, t)
    ensures t in s.readers && StepsBy(actions, t) == StepsLeft(cfg, s, t)
            ==> t in End(cfg, s, actions).readers && End(cfg, s, actions).readers[t].Returned?
    decreases |actions|
  {
    if actions == [] {
      if t in s.readers && StepsLeft(cfg, s, t) == 0 {
        assert PcOk(cfg, s.ttl, s.readers[t]);
      }
    } else {
      StepKeeps(cfg, s, actions[0]);
      RefreshRuns(cfg, Next(cfg, s, actions[0]), actions[1..], t);
      if t in s.readers {
        StepUsesBudget(cfg, s, actions[0], t);
      }
    }
  }

  /** What the bound is for a reader that has just entered and finds its region unexpired: at most
      one lost race per second of the base TTL. */
  lemma EntryBudget(cfg: TtlConfig, s: State, t: nat, now: I64)
    requires cfg.IsEnabled() && t !in s.readers && now <= s.ttl
    ensures StepsLeft(cfg, Next(cfg, s, Enter(t, now)), t) <= 2 * (cfg.baseSec + 1) + 1
  {
    assert cfg.Horizon(now) - s.ttl <= cfg.baseSec;
  }
}

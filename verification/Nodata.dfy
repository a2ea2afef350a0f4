/** The no-data judge: when a series stops reporting, it generates mock points in its place. */
module Nodata {
  import opened Options
  import opened TimeGrid

  /** The newest collected item of a key. */
  datatype DataItem = DataItem(ts: int, value: real, fetchOk: bool, fetchTs: int)

  datatype Config = Config(step: int, mock: real)

  datatype Status = Status(ok: bool, cnt: int, ts: int)

  const MINUTE := 60

  // ----- arithmetic

  /** The step a mock is placed by. */
  function PlacingStep(step: int): (s: int)
    ensures s >= 1
  {
    if step < 1 then MINUTE else step
  }

  /** Moved back two periods so that a mock never covers a normal value. */
  function GenTs(now: int, step: int): int
  {
    var s := PlacingStep(step);
    AlignDown(now, s) - 2 * s
  }

  function GetTimeout(step: int): int
  {
    if step < 60 then 180 else step * 3
  }

  predicate SameFloat(a: real, b: real)
  {
    -0.000001 < a - b < 0.000001
  }

  // ----- one key

  function LastTs(st: Option<Status>): int
  {
    if st.Some? then st.value.ts else 0
  }

  function TurnedOk(now: int): Status { Status(true, 0, now) }

  function TurnedNodata(st: Option<Status>, now: int): Status
  {
    Status(false, if st.Some? then st.value.cnt + 1 else 1, now)
  }

  /** A series counts as silent when its newest value is a mock or is too old. */
  predicate Silent(cfg: Config, item: DataItem, now: int)
  {
    SameFloat(cfg.mock, item.value) || item.ts < now - GetTimeout(cfg.step)
  }

  predicate Collected(cfg: Config, item: DataItem, now: int)
  {
    item.fetchOk && item.fetchTs >= now - GetTimeout(cfg.step)
  }

  predicate Mocks(st: Option<Status>, cfg: Config, item: DataItem, now: int)
  {
    Collected(cfg, item, now) && Silent(cfg, item, now) && LastTs(st) + cfg.step <= now
  }

  function NextStatus(st: Option<Status>, cfg: Config, item: DataItem, now: int): Option<Status>
  {
    if Mocks(st, cfg, item, now) then Some(TurnedNodata(st, now))
    else if Collected(cfg, item, now) && !Silent(cfg, item, now) then Some(TurnedOk(now))
    else st
  }

  // ----- the pass over all keys

  /** The key is configured and has collected data. */
  predicate Judged(key: string, keys: seq<string>, cfgs: map<string, Config>, items: map<string, DataItem>)
  {
    key in keys && key in cfgs && key in items
  }

  class NodataJudge {
    var status: map<string, Status>
    var mocks: map<string, int>

    function StatusOf(key: string): Option<Status>
      reads this
    {
      if key in status then Some(status[key]) else None
    }

    function MockOf(key: string): Option<int>
      reads this
    {
      if key in mocks then Some(mocks[key]) else None
    }

    method TurnOk(key: string, ts: int)
      modifies this`status
      ensures status == old(status)[key := TurnedOk(ts)]
    {
      status := status[key := Status(true, 0, ts)];
    }

    method TurnNodata(key: string, ts: int)
      modifies this`status
      ensures status == old(status)[key := TurnedNodata(old(StatusOf(key)), ts)]
    {
      if key !in status {
        status := status[key := Status(false, 1, ts)];
      } else {
        status := status[key := Status(false, status[key].cnt + 1, ts)];
      }
    }

    method JudgeKey(key: string, cfg: Config, item: DataItem, now: int)
      modifies this
      ensures StatusOf(key) == NextStatus(old(StatusOf(key)), cfg, item, now)
      ensures mocks == if Mocks(old(StatusOf(key)), cfg, item, now)
                       then old(mocks)[key := GenTs(now, cfg.step)] else old(mocks)
      ensures forall k :: k != key ==> StatusOf(k) == old(StatusOf(k))
    {
      var lastTs := now - GetTimeout(cfg.step);
      if !item.fetchOk || item.fetchTs < lastTs {
        return;
      }
      if SameFloat(cfg.mock, item.value) {
        if LastTs(StatusOf(key)) + cfg.step <= now {
          TurnNodata(key, now);
          mocks := mocks[key := GenTs(now, cfg.step)];
        }
        return;
      }
      if item.ts < lastTs {
        if LastTs(StatusOf(key)) + cfg.step <= now {
          TurnNodata(key, now);
          mocks := mocks[key := GenTs(now, cfg.step)];
        }
        return;
      }
      TurnOk(key, now);
    }

    /** Judges every configured key that has collected data, each from its own previous status. */
    method Judge(keys: seq<string>, cfgs: map<string, Config>, items: map<string, DataItem>, now: int)
      requires forall i, j :: 0 <= i < j < |keys| ==> keys[i] != keys[j]
      modifies this
      ensures forall k :: Judged(k, keys, cfgs, items) ==>
        StatusOf(k) == NextStatus(old(StatusOf(k)), cfgs[k], items[k], now) &&
        MockOf(k) == if Mocks(old(StatusOf(k)), cfgs[k], items[k], now) then Some(GenTs(now, cfgs[k].step)) else old(MockOf(k))
      ensures forall k :: !Judged(k, keys, cfgs, items) ==> StatusOf(k) == old(StatusOf(k)) && MockOf(k) == old(MockOf(k))
    {
      for i := 0 to |keys|
        invariant forall k :: Judged(k, keys[..i], cfgs, items) ==>
          StatusOf(k) == NextStatus(old(StatusOf(k)), cfgs[k], items[k], now) &&
          MockOf(k) == if Mocks(old(StatusOf(k)), cfgs[k], items[k], now) then Some(GenTs(now, cfgs[k].step)) else old(MockOf(k))
        invariant forall k :: !Judged(k, keys[..i], cfgs, items) ==> StatusOf(k) == old(StatusOf(k)) && MockOf(k) == old(MockOf(k))
      {
        var key := keys[i];
        assert keys[..i+1] == keys[..i] + [key] && key !in keys[..i];
        if key in cfgs && key in items {
          JudgeKey(key, cfgs[key], items[key], now);
        }
      }
      assert keys[..|keys|] == keys;
    }
  }

  // ----- runs of one key

  /** One pass over the key: the newest collected item and the clock. */
  datatype Pass = Pass(item: DataItem, now: int)

  datatype Mock = Mock(ts: int, now: int, item: DataItem)

  datatype KeyState = KeyState(status: Option<Status>, mocks: seq<Mock>)

  function After(st: KeyState, cfg: Config, p: Pass): KeyState
  {
    KeyState(NextStatus(st.status, cfg, p.item, p.now),
             if Mocks(st.status, cfg, p.item, p.now) then st.mocks + [Mock(GenTs(p.now, cfg.step), p.now, p.item)] else st.mocks)
  }

  function Run(cfg: Config, passes: seq<Pass>): KeyState
  {
    if passes == [] then KeyState(None, []) else After(Run(cfg, passes[..|passes|-1]), cfg, passes[|passes|-1])
  }

  /** The clock starts at or after zero and never goes back. */
  ghost predicate ClockOk(passes: seq<Pass>)
  {
    && (forall i :: 0 <= i < |passes| ==> passes[i].now >= 0)
    && (forall i, j :: 0 <= i < j < |passes| ==> passes[i].now <= passes[j].now)
  }

  ghost predicate StepApart(mocks: seq<Mock>, step: int)
  {
    forall i, j :: 0 <= i < j < |mocks| ==> mocks[i].ts + step <= mocks[j].ts
  }

  /** Mocks so far lie behind the status time, which lies behind the clock. */
  ghost predicate RunInv(st: KeyState, step: int, now: int)
    requires step >= 1
  {
    && (forall i :: 0 <= i < |st.mocks| ==>
          st.status.Some? && 0 <= st.mocks[i].now <= st.status.value.ts && st.mocks[i].ts == GenTs(st.mocks[i].now, step))
    && (st.status.Some? ==> st.status.value.ts <= now)
    && StepApart(st.mocks, step)
  }

  lemma {:induction false} RunKeepsInv(cfg: Config, passes: seq<Pass>, now: int)
    requires cfg.step >= 1 && ClockOk(passes) && (passes != [] ==> passes[|passes|-1].now <= now)
    ensures RunInv(Run(cfg, passes), cfg.step, now)
  {
    if passes != [] {
      var init, p := passes[..|passes|-1], passes[|passes|-1];
      RunKeepsInv(cfg, init, p.now);
      AfterKeepsInv(Run(cfg, init), cfg, p);
    }
  }

  lemma AfterKeepsInv(st: KeyState, cfg: Config, p: Pass)
    requires cfg.step >= 1 && p.now >= 0 && RunInv(st, cfg.step, p.now)
    ensures RunInv(After(st, cfg, p), cfg.step, p.now)
  {
    if Mocks(st.status, cfg, p.item, p.now) {
      forall i | 0 <= i < |st.mocks|
        ensures st.mocks[i].ts + cfg.step <= GenTs(p.now, cfg.step)
      {
        AlignDownSpreads(st.mocks[i].now, p.now, cfg.step);
      }
    }
  }

  /** With a clock that never goes back, the mocks of a key are at least one step apart. */
  lemma MocksStepApart(cfg: Config, passes: seq<Pass>)
    requires cfg.step >= 1 && ClockOk(passes)
    ensures StepApart(Run(cfg, passes).mocks, cfg.step)
  {
    RunKeepsInv(cfg, passes, if passes == [] then 0 else passes[|passes|-1].now);
  }

  lemma {:induction false} MockOrigin(cfg: Config, passes: seq<Pass>, i: nat)
    requires i < |Run(cfg, passes).mocks|
    ensures var m := Run(cfg, passes).mocks[i];
      m.ts == GenTs(m.now, cfg.step) && Silent(cfg, m.item, m.now) && Pass(m.item, m.now) in passes
  {
    var init, p := passes[..|passes|-1], passes[|passes|-1];
    if i < |Run(cfg, init).mocks| {
      MockOrigin(cfg, init, i);
    }
  }

  /** The passes of a job that starts once a minute. */
  ghost predicate MinutePasses(passes: seq<Pass>)
  {
    && (forall i :: 0 <= i < |passes| ==> passes[i].now >= 0)
    && (forall i, j :: 0 <= i < j < |passes| ==> passes[i].now + MINUTE <= passes[j].now)
  }

  /** With passes a minute apart the mocks of a key are at least one placing step apart, and so
      strictly increasing, whatever step is configured. */
  lemma MinuteMocksApart(cfg: Config, passes: seq<Pass>)
    requires MinutePasses(passes)
    ensures StepApart(Run(cfg, passes).mocks, PlacingStep(cfg.step))
    ensures forall i, j :: 0 <= i < j < |Run(cfg, passes).mocks| ==> Run(cfg, passes).mocks[i].ts < Run(cfg, passes).mocks[j].ts
  {
    if cfg.step >= 1 {
      MocksStepApart(cfg, passes);
    } else {
      SmallStepApart(cfg, passes);
    }
  }

  lemma {:induction false} SmallStepApart(cfg: Config, passes: seq<Pass>)
    requires cfg.step < 1 && MinutePasses(passes)
    ensures StepApart(Run(cfg, passes).mocks, MINUTE)
  {
    if passes != [] {
      var init, p := passes[..|passes|-1], passes[|passes|-1];
      SmallStepApart(cfg, init);
      var before := Run(cfg, init).mocks;
      forall i | 0 <= i < |before|
        ensures before[i].ts + MINUTE <= GenTs(p.now, cfg.step)
      {
        MockOrigin(cfg, init, i);
        var k :| 0 <= k < |init| && init[k] == Pass(before[i].item, before[i].now);
        assert passes[k] == init[k];
        AlignDownSpreads(before[i].now, p.now, MINUTE);
      }
    }
  }

  /** Every mock is the aligned time two to three steps ago, a step below one counting as a minute; one
      generated because the data had expired is strictly later than the last collected point. */
  lemma MockPlacement(cfg: Config, passes: seq<Pass>, i: nat)
    requires ClockOk(passes) && i < |Run(cfg, passes).mocks|
    ensures var m, step := Run(cfg, passes).mocks[i], if cfg.step >= 1 then cfg.step else 60;
      && Aligned(m.ts, step) && m.now - 3 * step < m.ts <= m.now - 2 * step
      && (!SameFloat(cfg.mock, m.item.value) ==> m.item.ts < m.ts)
  {
    MockOrigin(cfg, passes, i);
    var m, step := Run(cfg, passes).mocks[i], PlacingStep(cfg.step);
    AlignDownBelow(m.now, step);
    var a := AlignDown(m.now, step);
    AddStep(a - step, step);
    AddStep(a - 2 * step, step);
  }

  // ----- when a mock is generated

  function Larger(a: int, b: int): int { if a < b then b else a }

  /** The newest data was fetched, and recently. */
  predicate Fetched(step: int, p: Pass)
  {
    p.item.fetchOk && p.now - p.item.fetchTs <= Larger(180, 3 * step)
  }

  /** The newest value is the mock, up to a millionth, or lies too far back. */
  predicate Silence(cfg: Config, p: Pass)
  {
    || (p.item.value - cfg.mock < 0.000001 && cfg.mock - p.item.value < 0.000001)
    || p.now - p.item.ts > Larger(180, 3 * cfg.step)
  }

  /** A pass generates a mock exactly when the newest data was fetched, the series is silent and a step
      has passed since the last change of status; with fetched data of a series that is not silent the
      status turns good, and otherwise it stays. */
  lemma PassOutcomes(cfg: Config, passes: seq<Pass>)
    requires passes != []
    ensures var before, after, p := Run(cfg, passes[..|passes|-1]), Run(cfg, passes), passes[|passes|-1];
      var due := p.now - (if before.status.Some? then before.status.value.ts else 0) >= cfg.step;
      if !Fetched(cfg.step, p) || (Silence(cfg, p) && !due) then after == before
      else if Silence(cfg, p) then
        && after.mocks == before.mocks + [Mock(GenTs(p.now, cfg.step), p.now, p.item)]
        && after.status == Some(Status(false, 1 + if before.status.Some? then before.status.value.cnt else 0, p.now))
      else after.mocks == before.mocks && after.status == Some(Status(true, 0, p.now))
  {
  }

  /** A silent series, fetched at every pass, the passes a step apart and the first not before one step. */
  ghost predicate SilentRun(cfg: Config, passes: seq<Pass>)
  {
    && (forall i :: 0 <= i < |passes| ==> Fetched(cfg.step, passes[i]) && Silence(cfg, passes[i]) && passes[i].now >= cfg.step)
    && (forall i, j :: 0 <= i < j < |passes| ==> passes[i].now + cfg.step <= passes[j].now)
  }

  /** It gets a mock at every pass, and the status counts them. */
  lemma {:induction false} SilentSeriesIsMocked(cfg: Config, passes: seq<Pass>)
    requires SilentRun(cfg, passes)
    ensures var s := Run(cfg, passes);
      && |s.mocks| == |passes| && (forall i :: 0 <= i < |passes| ==> s.mocks[i].now == passes[i].now)
      && (passes != [] ==> s.status == Some(Status(false, |passes|, passes[|passes|-1].now)))
  {
    if passes != [] {
      var init := passes[..|passes|-1];
      SilentSeriesIsMocked(cfg, init);
      PassOutcomes(cfg, passes);
      var before := Run(cfg, init);
      assert before.status.None? <==> init == [];
    }
  }
}

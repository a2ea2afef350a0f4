/** Steady trouble: how many alarms a run of ever later samples sends when every window of it triggers. */
module SteadyAlarms {
  import opened Options
  import opened JudgeHistory
  import opened JudgeEvents
  import opened TimeGrid

  /** Samples of one kind, later and later, pushed with room for a window. */
  ghost predicate Steady(inputs: seq<Input>, w: int, remain: nat, gauge: bool)
  {
    && (forall i :: 0 <= i < |inputs| ==> SteadyPush(inputs[i], remain, gauge))
    && (forall i, j :: 0 <= i < j < |inputs| ==> SteadyPush(inputs[i], remain, gauge) && SteadyPush(inputs[j], remain, gauge)
                                                 && inputs[i].item.ts < inputs[j].item.ts)
    && 1 <= w && w + Lag(gauge) <= remain
  }

  predicate SteadyPush(input: Input, remain: nat, gauge: bool)
  {
    input.Push? && input.remain == remain && input.item.ts > 0 && (input.item.IsGauge() <==> gauge)
  }

  /** A counter needs one sample more than it has rates. */
  function Lag(gauge: bool): nat { if gauge then 0 else 1 }

  /** Every window judged along the run triggers. */
  ghost predicate AllTrigger(rule: Rule, inputs: seq<Input>)
  {
    forall n :: 0 <= n <= |inputs| ==> TriggersAt(rule, inputs, n)
  }

  ghost predicate TriggersAt(rule: Rule, inputs: seq<Input>, n: nat)
    requires n <= |inputs|
  {
    var list := Run(rule, inputs[..n]).list;
    list.Some? && Enough(list.value, rule.need) ==> rule.trig(Window(list.value, rule.need))
  }

  /** A window after any sample the clock is past the minimal interval. */
  ghost predicate ClockPasses(inputs: seq<Input>, w: int, minInterval: int)
  {
    forall e, i :: 0 <= e < i < |inputs| && e + w <= i && inputs[e].Push? && inputs[i].Push? ==>
      inputs[i].now - inputs[e].item.ts >= minInterval
  }

  function Limit(maxStep: int): nat { if maxStep < 0 then 1 else maxStep }

  /** After n steady pushes the list holds the newest samples. */
  ghost predicate ListAfter(list: Option<seq<JudgeItem>>, inputs: seq<Input>, n: nat, remain: nat)
    requires n <= |inputs| && forall i :: 0 <= i < |inputs| ==> inputs[i].Push?
  {
    if n == 0 then list.None? else
      list.Some? && |list.value| == Smaller(n, remain) && forall i :: 0 <= i < |list.value| ==> list.value[i] == inputs[n-1-i].item
  }

  lemma {:induction false} SteadyList(rule: Rule, inputs: seq<Input>, n: nat, w: int, remain: nat, gauge: bool)
    requires Steady(inputs, w, remain, gauge) && n <= |inputs|
    ensures ListAfter(Run(rule, inputs[..n]).list, inputs, n, remain)
  {
    if n > 0 {
      SteadyList(rule, inputs, n - 1, w, remain, gauge);
      RunNext(rule, inputs, n - 1);
      SteadyListStep(Run(rule, inputs[..n-1]), rule, inputs, n - 1, w, remain, gauge);
    }
  }

  lemma RunNext(rule: Rule, inputs: seq<Input>, n: nat)
    requires n < |inputs|
    ensures Run(rule, inputs[..n+1]) == Next(Run(rule, inputs[..n]), rule, inputs[n])
  {
    assert inputs[..n+1][..n] == inputs[..n];
  }

  lemma SteadyListStep(s: Series, rule: Rule, inputs: seq<Input>, n: nat, w: int, remain: nat, gauge: bool)
    requires Steady(inputs, w, remain, gauge) && n < |inputs| && ListOk(s) && ListAfter(s.list, inputs, n, remain)
    ensures IsAccepted(s.list, inputs[n].item)
    ensures ListAfter(Next(s, rule, inputs[n]).list, inputs, n + 1, remain)
  {
    assert SteadyPush(inputs[n], remain, gauge);
    if n > 0 {
      assert s.list.value[0] == inputs[n-1].item;
    }
    NextPush(s, rule, inputs[n].item, remain, inputs[n].now);
  }

  /** After n == lag + q*w + r steady pushes: an alarm for each of the q full windows, up to the limit. */
  ghost predicate AlarmsAfter(log: seq<Sent>, inputs: seq<Input>, w: int, gauge: bool, limit: nat, q: nat)
    requires forall i :: 0 <= i < |inputs| ==> inputs[i].Push?
  {
    && |log| == Smaller(q, limit)
    && (forall i :: 0 <= i < |log| ==> log[i].event.status == PROBLEM && log[i].event.currentStep == i + 1)
    && (log != [] ==> LastAlarmAt(log[|log|-1].event, inputs, BlockEnd(gauge, w, |log|)))
  }

  /** The sample that completes the c-th window. */
  function BlockEnd(gauge: bool, w: int, c: nat): int
  {
    Lag(gauge) + c * w - 1
  }

  ghost predicate LastAlarmAt(e: Event, inputs: seq<Input>, i: int)
    requires forall i :: 0 <= i < |inputs| ==> inputs[i].Push?
  {
    0 <= i < |inputs| && e.eventTime == inputs[i].item.ts
  }

  /** The window after n+1 steady pushes, when there are enough. */
  lemma SteadyWindow(L: seq<JudgeItem>, inputs: seq<Input>, n: nat, w: int, remain: nat, gauge: bool)
    requires Steady(inputs, w, remain, gauge) && n < |inputs| && Descending(L) && ListAfter(Some(L), inputs, n + 1, remain)
    ensures Enough(L, w) <==> n + 1 >= w + Lag(gauge)
    ensures Enough(L, w) ==> |Window(L, w)| == w && n + 1 >= w && Window(L, w)[w-1].ts == inputs[n+1-w].item.ts
  {
    assert L[0] == inputs[n].item && SteadyPush(inputs[n], remain, gauge);
    if Enough(L, w) {
      assert L[w-1] == inputs[n+1-w].item;
    }
  }

  /** n pushes are the lag, q full windows and r more; before the lag there is none. */
  predicate Blocks(n: nat, w: int, gauge: bool, q: nat, r: nat)
  {
    if n < Lag(gauge) then q == 0 && r == 0 else n == Lag(gauge) + q * w + r && r < w
  }

  function NextQ(n: nat, w: int, gauge: bool, q: nat, r: nat): nat
  {
    if n >= Lag(gauge) && r + 1 == w then q + 1 else q
  }

  function NextR(n: nat, w: int, gauge: bool, r: nat): nat
  {
    if n < Lag(gauge) || r + 1 == w then 0 else r + 1
  }

  lemma NextBlocks(n: nat, w: int, gauge: bool, q: nat, r: nat)
    requires w >= 1 && Blocks(n, w, gauge, q, r)
    ensures Blocks(n + 1, w, gauge, NextQ(n, w, gauge, q, r), NextR(n, w, gauge, r))
  {
    OneMore(q, w);
  }

  /** What holds before the n-th of the steady pushes of a run is judged. */
  ghost predicate SteadyState(s: Series, rule: Rule, inputs: seq<Input>, n: nat, remain: nat, gauge: bool, q: nat, r: nat)
  {
    && Steady(inputs, rule.need, remain, gauge) && n < |inputs| && ListOk(s)
    && ListAfter(s.list, inputs, n, remain)
    && Blocks(n, rule.need, gauge, q, r) && AlarmsAfter(s.log, inputs, rule.need, gauge, Limit(rule.maxStep), q)
    && (var list := Next(s, rule, inputs[n]).list;
        list.Some? && Enough(list.value, rule.need) ==> rule.trig(Window(list.value, rule.need)))
    && ClockPasses(inputs, rule.need, rule.minInterval)
  }

  lemma SteadyStep(s: Series, rule: Rule, inputs: seq<Input>, n: nat, remain: nat, gauge: bool, q: nat, r: nat)
    requires SteadyState(s, rule, inputs, n, remain, gauge, q, r)
    ensures AlarmsAfter(Next(s, rule, inputs[n]).log, inputs, rule.need, gauge, Limit(rule.maxStep),
                        NextQ(n, rule.need, gauge, q, r))
  {
    var w, s' := rule.need, Next(s, rule, inputs[n]);
    SteadyListStep(s, rule, inputs, n, w, remain, gauge);
    var L := s'.list.value;
    SteadyWindow(L, inputs, n, w, remain, gauge);
    if n + 1 < w + Lag(gauge) {
      TooFewYet(s, rule, inputs, n, remain, gauge, q, r);
    } else if s.log == [] {
      FirstAlarm(s, rule, inputs, n, remain, gauge, q, r);
    } else {
      NextAlarm(s, rule, inputs, n, remain, gauge, q, r);
    }
  }

  lemma NoFullWindow(n: nat, w: int, gauge: bool, q: nat, r: nat)
    requires w >= 1 && Blocks(n, w, gauge, q, r) && n < w + Lag(gauge)
    ensures q == 0
  {
    if q >= 1 {
      FactorAtLeast(q, w);
    }
  }

  lemma FactorAtLeast(q: nat, w: int)
    requires q >= 1 && w >= 1
    ensures q * w >= w
  {
  }

  lemma TooFewYet(s: Series, rule: Rule, inputs: seq<Input>, n: nat, remain: nat, gauge: bool, q: nat, r: nat)
    requires SteadyState(s, rule, inputs, n, remain, gauge, q, r) && n + 1 < rule.need + Lag(gauge)
    requires Next(s, rule, inputs[n]).list.Some? && !Enough(Next(s, rule, inputs[n]).list.value, rule.need)
    requires IsAccepted(s.list, inputs[n].item)
    ensures AlarmsAfter(Next(s, rule, inputs[n]).log, inputs, rule.need, gauge, Limit(rule.maxStep),
                        NextQ(n, rule.need, gauge, q, r))
  {
    NoFullWindow(n, rule.need, gauge, q, r);
    NotJudged(s, rule, inputs[n]);
  }

  lemma NotJudged(s: Series, rule: Rule, input: Input)
    requires ListOk(s) && input.Push? && IsAccepted(s.list, input.item)
    requires var s' := Next(s, rule, input); s'.list.Some? && !Enough(s'.list.value, rule.need)
    ensures Next(s, rule, input).log == s.log
  {
  }

  lemma FirstAlarm(s: Series, rule: Rule, inputs: seq<Input>, n: nat, remain: nat, gauge: bool, q: nat, r: nat)
    requires SteadyState(s, rule, inputs, n, remain, gauge, q, r) && n + 1 >= rule.need + Lag(gauge) && s.log == []
    requires Next(s, rule, inputs[n]).list.Some? && Enough(Next(s, rule, inputs[n]).list.value, rule.need)
    requires IsAccepted(s.list, inputs[n].item)
    ensures AlarmsAfter(Next(s, rule, inputs[n]).log, inputs, rule.need, gauge, Limit(rule.maxStep),
                        NextQ(n, rule.need, gauge, q, r))
  {
    var e := LogAtFirst(s, rule, inputs[n]);
    AlarmsBegin(e, inputs, n, rule.need, gauge, Limit(rule.maxStep), q, r);
  }

  lemma LogAtFirst(s: Series, rule: Rule, input: Input) returns (e: Sent)
    requires ListOk(s) && input.Push? && IsAccepted(s.list, input.item) && s.log == []
    requires var s' := Next(s, rule, input);
      s'.list.Some? && Enough(s'.list.value, rule.need) && rule.trig(Window(s'.list.value, rule.need))
    ensures e.event.status == PROBLEM && e.event.currentStep == 1 && e.event.eventTime == input.item.ts
    ensures Next(s, rule, input).log == if Limit(rule.maxStep) > 0 then [e] else []
  {
    FirstAndLastStep(s, rule, input);
    e := Sent(Event(rule.id, PROBLEM, 1, input.item.ts), input.now, Window(Next(s, rule, input).list.value, rule.need));
  }

  lemma AlarmsBegin(e: Sent, inputs: seq<Input>, n: nat, w: int, gauge: bool, limit: nat, q: nat, r: nat)
    requires (forall i :: 0 <= i < |inputs| ==> inputs[i].Push?) && n < |inputs| && n + 1 >= w + Lag(gauge)
    requires w >= 1 && Blocks(n, w, gauge, q, r) && AlarmsAfter([], inputs, w, gauge, limit, q)
    requires e.event.status == PROBLEM && e.event.currentStep == 1 && e.event.eventTime == inputs[n].item.ts
    ensures AlarmsAfter(if limit > 0 then [e] else [], inputs, w, gauge, limit, NextQ(n, w, gauge, q, r))
  {
    if limit > 0 {
      assert 0 * w == 0;
      BlockIndex(n, w, gauge, q, r);
      AlarmAppended([], e, inputs, w, gauge, limit, q, n);
      assert [] + [e] == [e];
    } else {
      AlarmsKept([], inputs, w, gauge, limit, q, NextQ(n, w, gauge, q, r));
    }
  }

  lemma NextAlarm(s: Series, rule: Rule, inputs: seq<Input>, n: nat, remain: nat, gauge: bool, q: nat, r: nat)
    requires SteadyState(s, rule, inputs, n, remain, gauge, q, r) && n + 1 >= rule.need + Lag(gauge) && s.log != []
    requires Next(s, rule, inputs[n]).list.Some? && Enough(Next(s, rule, inputs[n]).list.value, rule.need)
    requires IsAccepted(s.list, inputs[n].item)
    ensures AlarmsAfter(Next(s, rule, inputs[n]).log, inputs, rule.need, gauge, Limit(rule.maxStep),
                        NextQ(n, rule.need, gauge, q, r))
  {
    var e := LogInBlock(s, rule, inputs, n, remain, gauge, q, r);
    AlarmsMove(s.log, e, inputs, n, rule.need, gauge, Limit(rule.maxStep), q, r);
  }

  /** In an alarm, a steady push sends the next alarm exactly at the end of a block, up to the limit. */
  lemma LogInBlock(s: Series, rule: Rule, inputs: seq<Input>, n: nat, remain: nat, gauge: bool, q: nat, r: nat) returns (e: Sent)
    requires SteadyState(s, rule, inputs, n, remain, gauge, q, r) && n + 1 >= rule.need + Lag(gauge) && s.log != []
    requires Next(s, rule, inputs[n]).list.Some? && Enough(Next(s, rule, inputs[n]).list.value, rule.need)
    requires IsAccepted(s.list, inputs[n].item)
    ensures e.event.status == PROBLEM && e.event.currentStep == |s.log| + 1 && e.event.eventTime == inputs[n].item.ts
    ensures Next(s, rule, inputs[n]).log == if q < Limit(rule.maxStep) && r + 1 == rule.need then s.log + [e] else s.log
  {
    var w, s' := rule.need, Next(s, rule, inputs[n]);
    SteadyListStep(s, rule, inputs, n, w, remain, gauge);
    if q < Limit(rule.maxStep) {
      var i := BlockEnds(n, w, gauge, q, r);
      DueInBlock(s.log[|s.log|-1].event.eventTime, rule, s'.list.value, inputs, n, remain, gauge, i, r + 1 == w);
    }
    e := Sent(Event(rule.id, PROBLEM, |s.log| + 1, inputs[n].item.ts), inputs[n].now, Window(s'.list.value, w));
    SentWhenDue(s, rule, inputs[n], e, q < Limit(rule.maxStep) && r + 1 == w);
  }

  lemma AlarmsMove(log: seq<Sent>, e: Sent, inputs: seq<Input>, n: nat, w: int, gauge: bool, limit: nat, q: nat, r: nat)
    requires (forall i :: 0 <= i < |inputs| ==> inputs[i].Push?) && n < |inputs| && log != []
    requires w >= 1 && Blocks(n, w, gauge, q, r) && AlarmsAfter(log, inputs, w, gauge, limit, q)
    requires e.event.status == PROBLEM && e.event.currentStep == |log| + 1 && e.event.eventTime == inputs[n].item.ts
    ensures AlarmsAfter(if q < limit && r + 1 == w then log + [e] else log, inputs, w, gauge, limit, NextQ(n, w, gauge, q, r))
  {
    if q < limit && r + 1 == w {
      BlockIndex(n, w, gauge, q, r);
      AlarmAppended(log, e, inputs, w, gauge, limit, q, n);
    } else {
      AlarmsKept(log, inputs, w, gauge, limit, q, NextQ(n, w, gauge, q, r));
    }
  }

  lemma AlarmsKept(log: seq<Sent>, inputs: seq<Input>, w: int, gauge: bool, limit: nat, q: nat, q': nat)
    requires forall i :: 0 <= i < |inputs| ==> inputs[i].Push?
    requires AlarmsAfter(log, inputs, w, gauge, limit, q) && Smaller(q, limit) == Smaller(q', limit)
    ensures AlarmsAfter(log, inputs, w, gauge, limit, q')
  {
  }

  lemma SentWhenDue(s: Series, rule: Rule, input: Input, e: Sent, more: bool)
    requires ListOk(s) && input.Push? && IsAccepted(s.list, input.item) && s.log != []
    requires s.log[|s.log|-1].event.status == PROBLEM && s.log[|s.log|-1].event.currentStep == |s.log|
    requires var s' := Next(s, rule, input);
      s'.list.Some? && Enough(s'.list.value, rule.need) && rule.trig(Window(s'.list.value, rule.need))
    requires var window := Window(Next(s, rule, input).list.value, rule.need);
      && e == Sent(Event(rule.id, PROBLEM, |s.log| + 1, input.item.ts), input.now, window)
      && (more <==> |s.log| < rule.maxStep && AllLater(window, s.log[|s.log|-1].event.eventTime)
                    && input.now - s.log[|s.log|-1].event.eventTime >= rule.minInterval)
    ensures Next(s, rule, input).log == if more then s.log + [e] else s.log
  {
    RepeatStep(s, rule, input);
  }

  lemma BlockIndex(n: nat, w: int, gauge: bool, q: nat, r: nat)
    requires w >= 1 && n >= Lag(gauge) && Blocks(n, w, gauge, q, r) && r + 1 == w
    ensures n == BlockEnd(gauge, w, q + 1)
  {
    OneMore(q, w);
  }

  lemma AlarmAppended(log: seq<Sent>, e: Sent, inputs: seq<Input>, w: int, gauge: bool, limit: nat, q: nat, n: nat)
    requires (forall i :: 0 <= i < |inputs| ==> inputs[i].Push?) && n < |inputs|
    requires AlarmsAfter(log, inputs, w, gauge, limit, q) && q < limit && n == BlockEnd(gauge, w, q + 1)
    requires e.event.status == PROBLEM && e.event.currentStep == |log| + 1 && e.event.eventTime == inputs[n].item.ts
    ensures AlarmsAfter(log + [e], inputs, w, gauge, limit, q + 1)
  {
    var log' := log + [e];
    assert forall i :: 0 <= i < |log| ==> log'[i] == log[i];
  }

  /** After push n a repeat of the alarm at sample e is due, as far as time goes, exactly when `full`. */
  lemma DueInBlock(time: int, rule: Rule, L: seq<JudgeItem>, inputs: seq<Input>, n: nat,
                   remain: nat, gauge: bool, e: nat, full: bool)
    requires Steady(inputs, rule.need, remain, gauge) && n < |inputs| && e < |inputs| && time == inputs[e].item.ts
    requires Descending(L) && ListAfter(Some(L), inputs, n + 1, remain) && Enough(L, rule.need)
    requires (full <==> n + 1 - rule.need > e) && (full ==> e + rule.need == n)
    requires ClockPasses(inputs, rule.need, rule.minInterval)
    ensures AllLater(Window(L, rule.need), time) <==> full
    ensures full ==> inputs[n].now - time >= rule.minInterval
  {
    SteadyWindow(L, inputs, n, rule.need, remain, gauge);
    LaterThanSample(L, inputs, n, rule.need, remain, gauge, e, time);
  }

  /** The window after push n is later than sample e exactly when it begins behind it. */
  lemma LaterThanSample(L: seq<JudgeItem>, inputs: seq<Input>, n: nat, w: int, remain: nat, gauge: bool, e: nat, time: int)
    requires Steady(inputs, w, remain, gauge) && w - 1 <= n < |inputs| && e < |inputs| && time == inputs[e].item.ts
    requires Descending(L) && Enough(L, w) && |Window(L, w)| == w && Window(L, w)[w-1].ts == inputs[n+1-w].item.ts
    ensures AllLater(Window(L, w), time) <==> n + 1 - w > e
  {
    WindowOldest(L, w, time);
    assert e > n + 1 - w ==> inputs[n+1-w].item.ts < inputs[e].item.ts;
    assert e < n + 1 - w ==> inputs[e].item.ts < inputs[n+1-w].item.ts;
  }

  lemma WindowOldest(L: seq<JudgeItem>, w: int, time: int)
    requires Descending(L) && Enough(L, w)
    ensures |Window(L, w)| == w && (Window(L, w)[w-1].ts > time <==> AllLater(Window(L, w), time))
  {
    OldestDecides(Window(L, w), time);
  }

  /** A window begins behind the last full block exactly when it completes the next one. */
  lemma BlockEnds(n: nat, w: int, gauge: bool, q: nat, r: nat) returns (e: nat)
    requires w >= 1 && Blocks(n, w, gauge, q, r) && q >= 1
    ensures e == BlockEnd(gauge, w, q) && (n + 1 - w > e <==> r + 1 == w) && (r + 1 == w ==> e + w == n)
  {
    FactorAtLeast(q, w);
    e := BlockEnd(gauge, w, q);
  }

  lemma {:induction false} SteadyUpTo(rule: Rule, inputs: seq<Input>, n: nat, remain: nat, gauge: bool) returns (q: nat, r: nat)
    requires Steady(inputs, rule.need, remain, gauge) && n <= |inputs|
    requires AllTrigger(rule, inputs) && ClockPasses(inputs, rule.need, rule.minInterval)
    ensures Blocks(n, rule.need, gauge, q, r)
    ensures AlarmsAfter(Run(rule, inputs[..n]).log, inputs, rule.need, gauge, Limit(rule.maxStep), q)
  {
    if n == 0 {
      assert 0 * rule.need == 0;
      return 0, 0;
    }
    var q0, r0 := SteadyUpTo(rule, inputs, n - 1, remain, gauge);
    q, r := SteadyNext(rule, inputs, n - 1, remain, gauge, q0, r0);
  }

  lemma SteadyNext(rule: Rule, inputs: seq<Input>, n: nat, remain: nat, gauge: bool, q0: nat, r0: nat) returns (q: nat, r: nat)
    requires Steady(inputs, rule.need, remain, gauge) && n < |inputs|
    requires AllTrigger(rule, inputs) && ClockPasses(inputs, rule.need, rule.minInterval)
    requires Blocks(n, rule.need, gauge, q0, r0)
    requires AlarmsAfter(Run(rule, inputs[..n]).log, inputs, rule.need, gauge, Limit(rule.maxStep), q0)
    ensures Blocks(n + 1, rule.need, gauge, q, r)
    ensures AlarmsAfter(Run(rule, inputs[..n+1]).log, inputs, rule.need, gauge, Limit(rule.maxStep), q)
  {
    SteadyList(rule, inputs, n, rule.need, remain, gauge);
    RunNext(rule, inputs, n);
    assert TriggersAt(rule, inputs, n + 1);
    SteadyStep(Run(rule, inputs[..n]), rule, inputs, n, remain, gauge, q0, r0);
    NextBlocks(n, rule.need, gauge, q0, r0);
    q, r := NextQ(n, rule.need, gauge, q0, r0), NextR(n, rule.need, gauge, r0);
  }

  lemma BlocksUnique(n: nat, w: int, gauge: bool, q: nat, r: nat, q': nat, r': nat)
    requires w >= 1 && n >= Lag(gauge) && Blocks(n, w, gauge, q, r) && Blocks(n, w, gauge, q', r')
    ensures q == q'
  {
    StepsOrdered(q, q' + 1, w);
    StepsOrdered(q', q + 1, w);
    OneMore(q, w);
    OneMore(q', w);
  }

  /** Evidence yields alarms: when every judged window of a run of ever later samples triggers and the
      clock allows it, q full windows of w points send exactly the alarms 1, 2, .. up to q or the
      rule's limit, and nothing else. */
  lemma EvidenceYieldsAlarms(rule: Rule, inputs: seq<Input>, remain: nat, gauge: bool, q: nat, r: nat)
    requires Steady(inputs, rule.need, remain, gauge)
    requires AllTrigger(rule, inputs) && ClockPasses(inputs, rule.need, rule.minInterval)
    requires |inputs| == Lag(gauge) + q * rule.need + r && r < rule.need
    ensures var log := Run(rule, inputs).log;
      && |log| == Smaller(q, Limit(rule.maxStep))
      && forall i :: 0 <= i < |log| ==> log[i].event.status == PROBLEM && log[i].event.currentStep == i + 1
  {
    var q', r' := SteadyUpTo(rule, inputs, |inputs|, remain, gauge);
    assert inputs[..|inputs|] == inputs;
    NotNegativeBlocks(q, rule.need);
    BlocksUnique(|inputs|, rule.need, gauge, q, r, q', r');
  }

  lemma NotNegativeBlocks(q: nat, w: int)
    requires w >= 1
    ensures q * w >= 0
  {
  }
}

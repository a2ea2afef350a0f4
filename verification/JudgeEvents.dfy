/** The alarm state machine of the judge: which events a series emits under one rule, over every
    run of pushed samples and stale cleanups. */
module JudgeEvents {
  import opened Options
  import opened JudgeHistory
  import JudgeFunctions

  datatype Status = PROBLEM | OK

  datatype Event = Event(id: string, status: Status, currentStep: int, eventTime: int)

  // ----- one decision

  /** What is judged: the window, whether it triggers, the sample's time, the wall clock. */
  datatype Observation = Observation(window: seq<Evidence>, triggered: bool, time: int, now: int)

  predicate Alarmed(last: Option<Event>)
  {
    last.Some? && last.value.status == PROBLEM
  }

  /** A repeat is due when the alarm count is not used up, the whole window is newer than the
      previous alarm, and the minimal interval has passed. */
  predicate RepeatDue(last: Event, o: Observation, maxStep: int, minInterval: int)
    requires o.window != []
  {
    && last.currentStep < maxStep
    && o.window[|o.window|-1].ts > last.eventTime
    && o.now - last.eventTime >= minInterval
  }

  function React(last: Option<Event>, id: string, o: Observation, maxStep: int, minInterval: int): Option<Event>
    requires o.window != []
  {
    if o.triggered && !Alarmed(last) && maxStep != 0 then
      Some(Event(id, PROBLEM, 1, o.time))
    else if o.triggered && Alarmed(last) && RepeatDue(last.value, o, maxStep, minInterval) then
      Some(Event(id, PROBLEM, last.value.currentStep + 1, o.time))
    else if !o.triggered && Alarmed(last) then
      Some(Event(id, OK, 1, o.time))
    else None
  }

  /** The shared last-event map and the queue of sent events. */
  class EventCenter {
    var lastEvents: map<string, Event>
    var queue: seq<Event>

    function Last(id: string): Option<Event>
      reads this
    {
      if id in lastEvents then Some(lastEvents[id]) else None
    }

    method SendEvent(event: Event)
      modifies this
      ensures lastEvents == old(lastEvents)[event.id := event]
      ensures queue == old(queue) + [event]
    {
      lastEvents := lastEvents[event.id := event];
      queue := queue + [event];
    }

    /** Sends what `React` says, remembers it, and touches no other id. */
    method SendEventIfNeed(historyData: seq<Evidence>, isTriggered: bool, now: int, id: string, eventTime: int,
                           maxStep: int, minInterval: int)
      requires historyData != []
      modifies this
      ensures var r := React(old(Last(id)), id, Observation(historyData, isTriggered, eventTime, now), maxStep, minInterval);
        match r
        case None => lastEvents == old(lastEvents) && queue == old(queue)
        case Some(e) => lastEvents == old(lastEvents)[id := e] && queue == old(queue) + [e]
    {
      var exists_ := id in lastEvents;
      if isTriggered {
        if !exists_ || lastEvents[id].status == OK {
          if maxStep == 0 {
            return;
          }
          SendEvent(Event(id, PROBLEM, 1, eventTime));
          return;
        }
        var lastEvent := lastEvents[id];
        if lastEvent.currentStep >= maxStep {
          return;
        }
        if historyData[|historyData|-1].ts <= lastEvent.eventTime {
          return;
        }
        if now - lastEvent.eventTime < minInterval {
          return;
        }
        SendEvent(Event(id, PROBLEM, lastEvent.currentStep + 1, eventTime));
      } else {
        if exists_ && lastEvents[id].status == PROBLEM {
          SendEvent(Event(id, OK, 1, eventTime));
        }
      }
    }
  }

  // ----- runs of one series under one rule

  /** A rule: how many points it needs, when they trigger, and its alarm limits. */
  datatype Rule = Rule(id: string, need: int, trig: seq<Evidence> -> bool, maxStep: int, minInterval: int)

  /** A push of a sample (with the configured bound and the clock), or a stale cleanup. */
  datatype Input = Push(item: JudgeItem, remain: nat, now: int) | Clean(before: int)

  /** A sent event with the clock and the window it was decided on. */
  datatype Sent = Sent(event: Event, now: int, window: seq<Evidence>)

  /** The series' list, the timestamps accepted so far, and the events sent so far. */
  datatype Series = Series(list: Option<seq<JudgeItem>>, accepted: set<int>, log: seq<Sent>)

  function LastSent(log: seq<Sent>): Option<Event>
  {
    if log == [] then None else Some(log[|log|-1].event)
  }

  /** Judging the list after an accepted push. */
  ghost function Judged(log: seq<Sent>, rule: Rule, L: seq<JudgeItem>, time: int, now: int): seq<Sent>
    requires Descending(L)
  {
    if !Enough(L, rule.need) then log else
      var window := Window(L, rule.need);
      match React(LastSent(log), rule.id, Observation(window, rule.trig(window), time, now), rule.maxStep, rule.minInterval)
      case None => log
      case Some(e) => log + [Sent(e, now, window)]
  }

  /** The first sample of a series is always taken. */
  predicate IsAccepted(list: Option<seq<JudgeItem>>, item: JudgeItem)
  {
    list.None? || Accepts(list.value, item)
  }

  ghost predicate ListOk(s: Series)
  {
    s.list.Some? ==> Descending(s.list.value) && forall k :: 0 <= k < |s.list.value| ==> s.list.value[k].ts in s.accepted
  }

  ghost function Next(s: Series, rule: Rule, input: Input): (s': Series)
    requires ListOk(s)
    ensures ListOk(s') && s.accepted <= s'.accepted && s.log <= s'.log
  {
    match input
    case Clean(before) => if s.list.Some? && IsStale(s.list.value, before) then s.(list := None) else s
    case Push(item, remain, now) =>
      if !IsAccepted(s.list, item) then s else
        var L := if s.list.Some? then Pushed(s.list.value, item, remain) else [item];
        Series(Some(L), s.accepted + {item.ts}, Judged(s.log, rule, L, item.ts, now))
  }

  ghost function Run(rule: Rule, inputs: seq<Input>): (s: Series)
    ensures ListOk(s)
  {
    if inputs == [] then Series(None, {}, [])
    else Next(Run(rule, inputs[..|inputs|-1]), rule, inputs[|inputs|-1])
  }

  // ----- the shape of the log

  /** Each entry rests on its window and follows from the entry before it. */
  ghost predicate EntryOk(log: seq<Sent>, i: nat, rule: Rule, accepted: set<int>)
    requires i < |log|
  {
    WindowOk(log[i], rule.need, accepted) && Chained(log, i, rule)
  }

  ghost predicate Chained(log: seq<Sent>, i: nat, rule: Rule)
    requires i < |log|
  {
    log[i].window != [] && Follows(if i == 0 then None else Some(log[i-1].event), log[i], rule)
  }

  ghost predicate WindowOk(e: Sent, need: int, accepted: set<int>)
  {
    && 1 <= need == |e.window|
    && e.window[0].ts == e.event.eventTime
    && (forall a, b :: 0 <= a < b < need ==> e.window[a].ts > e.window[b].ts)
    && (forall a :: 0 <= a < need ==> e.window[a].ts in accepted)
  }

  /** `e` may come right after the event `last` of the same id. */
  ghost predicate Follows(last: Option<Event>, e: Sent, rule: Rule)
    requires e.window != []
  {
    match e.event.status
    case OK => Alarmed(last) && e.event.currentStep == 1
    case PROBLEM =>
      if !Alarmed(last) then e.event.currentStep == 1 && rule.maxStep != 0
      else
        && e.event.currentStep == last.value.currentStep + 1 <= rule.maxStep
        && e.window[|e.window|-1].ts > last.value.eventTime
        && e.now - last.value.eventTime >= rule.minInterval
  }

  ghost predicate LogOk(s: Series, rule: Rule)
  {
    forall i :: 0 <= i < |s.log| ==> EntryOk(s.log, i, rule, s.accepted)
  }

  /** Every entry of the log of every run is well founded. */
  lemma {:induction false} RunLogOk(rule: Rule, inputs: seq<Input>)
    ensures LogOk(Run(rule, inputs), rule)
  {
    if inputs != [] {
      RunLogOk(rule, inputs[..|inputs|-1]);
      NextLogOk(Run(rule, inputs[..|inputs|-1]), rule, inputs[|inputs|-1]);
    }
  }

  lemma NextLogOk(s: Series, rule: Rule, input: Input)
    requires ListOk(s) && LogOk(s, rule)
    ensures LogOk(Next(s, rule, input), rule)
  {
    var s' := Next(s, rule, input);
    forall i | 0 <= i < |s'.log|
      ensures EntryOk(s'.log, i, rule, s'.accepted)
    {
      if i < |s.log| {
        EntryStays(s.log, s'.log, i, rule, s.accepted, s'.accepted);
      } else {
        assert s'.list.Some?;
        NewEntry(s.log, rule, s'.list.value, input.item.ts, input.now, s'.accepted);
      }
    }
  }

  lemma EntryStays(log: seq<Sent>, log': seq<Sent>, i: nat, rule: Rule, accepted: set<int>, accepted': set<int>)
    requires i < |log| && log <= log' && accepted <= accepted' && EntryOk(log, i, rule, accepted)
    ensures EntryOk(log', i, rule, accepted')
  {
  }

  lemma NewEntry(log: seq<Sent>, rule: Rule, L: seq<JudgeItem>, time: int, now: int, accepted: set<int>)
    requires Descending(L) && (L != [] ==> L[0].ts == time) && forall k :: 0 <= k < |L| ==> L[k].ts in accepted
    requires Judged(log, rule, L, time, now) != log
    ensures EntryOk(Judged(log, rule, L, time, now), |log|, rule, accepted)
  {
  }

  // ----- episodes

  /** PROBLEM 1, 2, .., alarms, then one OK if closed. */
  datatype Episode = Episode(alarms: nat, closed: bool)

  ghost function Labels(log: seq<Sent>): seq<(Status, int)>
  {
    seq(|log|, i requires 0 <= i < |log| => (log[i].event.status, log[i].event.currentStep))
  }

  ghost function EpisodeLabels(ep: Episode): seq<(Status, int)>
  {
    seq(ep.alarms, i => (PROBLEM, i + 1)) + if ep.closed then [(OK, 1)] else []
  }

  ghost function Flatten(eps: seq<Episode>): seq<(Status, int)>
  {
    if eps == [] then [] else Flatten(eps[..|eps|-1]) + EpisodeLabels(eps[|eps|-1])
  }

  /** Only the last episode may be open; none is longer than the limit.  A negative limit still
      lets the first alarm of an episode through. */
  ghost predicate EpisodesOk(eps: seq<Episode>, maxStep: int)
  {
    forall k :: 0 <= k < |eps| ==>
      && (k < |eps| - 1 ==> eps[k].closed)
      && 1 <= eps[k].alarms <= (if maxStep < 0 then 1 else maxStep)
  }

  ghost predicate EndsLike(eps: seq<Episode>, log: seq<Sent>)
  {
    if log == [] then eps == [] else
      && eps != []
      && (Alarmed(LastSent(log)) <==> !eps[|eps|-1].closed)
      && (Alarmed(LastSent(log)) ==> eps[|eps|-1].alarms == LastSent(log).value.currentStep)
  }

  /** A chained log splits into episodes. */
  lemma {:induction false} LogIsEpisodes(log: seq<Sent>, rule: Rule) returns (eps: seq<Episode>)
    requires forall i :: 0 <= i < |log| ==> Chained(log, i, rule)
    ensures Labels(log) == Flatten(eps) && EpisodesOk(eps, rule.maxStep) && EndsLike(eps, log)
  {
    if log == [] {
      return [];
    }
    var init, e := log[..|log|-1], log[|log|-1].event;
    assert forall i :: 0 <= i < |init| ==> Chained(log, i, rule) ==> Chained(init, i, rule);
    var before := LogIsEpisodes(init, rule);
    assert Chained(log, |log| - 1, rule);
    assert Labels(log) == Labels(init) + [(e.status, e.currentStep)];
    if !Alarmed(LastSent(init)) {
      eps := before + [Episode(1, false)];
      assert eps[..|before|] == before;
    } else {
      var last := before[|before|-1];
      var last' := if e.status == PROBLEM then Episode(last.alarms + 1, false) else Episode(last.alarms, true);
      eps := before[..|before|-1] + [last'];
      assert eps[..|eps|-1] == before[..|before|-1];
      assert EpisodeLabels(last') == EpisodeLabels(last) + [(e.status, e.currentStep)];
    }
  }

  /** For every run, the events of one id are episodes PROBLEM 1..k with k bounded by the rule's
      limit, each closed by at most one OK; nothing else is ever sent. */
  lemma EventsFormEpisodes(rule: Rule, inputs: seq<Input>)
    ensures exists eps :: EpisodesOk(eps, rule.maxStep) && Labels(Run(rule, inputs).log) == Flatten(eps)
  {
    RunLogOk(rule, inputs);
    var s := Run(rule, inputs);
    forall i | 0 <= i < |s.log|
      ensures Chained(s.log, i, rule)
    {
      assert EntryOk(s.log, i, rule, s.accepted);
    }
    var eps := LogIsEpisodes(s.log, rule);
  }

  /** After every judged sample the id is in alarm exactly when that sample triggered, unless the
      rule's limit is zero, which silences it for good. */
  lemma {:induction false} StatusTracksTrigger(rule: Rule, inputs: seq<Input>)
    ensures rule.maxStep == 0 ==> Run(rule, inputs).log == []
    ensures inputs != [] && inputs[|inputs|-1].Push? && rule.maxStep != 0 ==>
      var before, s, item := Run(rule, inputs[..|inputs|-1]), Run(rule, inputs), inputs[|inputs|-1].item;
      IsAccepted(before.list, item) && s.list.Some? && Enough(s.list.value, rule.need) ==>
        (Alarmed(LastSent(s.log)) <==> rule.trig(Window(s.list.value, rule.need)))
  {
    if inputs != [] {
      var before, input := Run(rule, inputs[..|inputs|-1]), inputs[|inputs|-1];
      StatusTracksTrigger(rule, inputs[..|inputs|-1]);
      if rule.maxStep == 0 {
        StaysSilent(before, rule, input);
      } else if input.Push? && IsAccepted(before.list, input.item) {
        PushTracksTrigger(before, rule, input);
      }
    }
  }

  lemma StaysSilent(s: Series, rule: Rule, input: Input)
    requires ListOk(s) && rule.maxStep == 0 && s.log == []
    ensures Next(s, rule, input).log == []
  {
  }

  lemma PushTracksTrigger(s: Series, rule: Rule, input: Input)
    requires ListOk(s) && rule.maxStep != 0 && input.Push? && IsAccepted(s.list, input.item)
    ensures var s' := Next(s, rule, input);
      s'.list.Some? && (Enough(s'.list.value, rule.need) ==>
        (Alarmed(LastSent(s'.log)) <==> rule.trig(Window(s'.list.value, rule.need))))
  {
  }

  /** A repeated alarm is sent at least the minimal interval after the previous alarm's event time. */
  lemma RepeatsKeepInterval(rule: Rule, inputs: seq<Input>, i: nat)
    requires var log := Run(rule, inputs).log;
      0 < i < |log| && log[i].event.status == PROBLEM && log[i-1].event.status == PROBLEM
    ensures var log := Run(rule, inputs).log;
      log[i].now - log[i-1].event.eventTime >= rule.minInterval && log[i].event.currentStep == log[i-1].event.currentStep + 1
  {
    RunLogOk(rule, inputs);
    var s := Run(rule, inputs);
    assert EntryOk(s.log, i, rule, s.accepted);
  }

  /** The last input is a push that is accepted and judged. */
  ghost predicate JudgedLast(rule: Rule, inputs: seq<Input>)
  {
    && inputs != [] && inputs[|inputs|-1].Push?
    && IsAccepted(Run(rule, inputs[..|inputs|-1]).list, inputs[|inputs|-1].item)
    && Run(rule, inputs).list.Some? && Enough(Run(rule, inputs).list.value, rule.need)
  }

  ghost predicate AllLater(window: seq<Evidence>, time: int)
  {
    forall a :: 0 <= a < |window| ==> window[a].ts > time
  }

  /** While an id is in alarm, a judged sample that triggers sends the next alarm exactly when the
      count is not used up, every point of its window is later than the last alarm and the minimal
      interval has passed since; nothing else is sent. */
  lemma RepeatSentIff(rule: Rule, inputs: seq<Input>)
    requires JudgedLast(rule, inputs) && Alarmed(LastSent(Run(rule, inputs[..|inputs|-1]).log))
    requires rule.trig(Window(Run(rule, inputs).list.value, rule.need))
    ensures var before, s, input := Run(rule, inputs[..|inputs|-1]), Run(rule, inputs), inputs[|inputs|-1];
      var window, last := Window(s.list.value, rule.need), LastSent(before.log).value;
      var due := last.currentStep < rule.maxStep && AllLater(window, last.eventTime)
                 && input.now - last.eventTime >= rule.minInterval;
      s.log == if due then before.log + [Sent(Event(rule.id, PROBLEM, last.currentStep + 1, input.item.ts), input.now, window)]
               else before.log
  {
    RepeatStep(Run(rule, inputs[..|inputs|-1]), rule, inputs[|inputs|-1]);
  }

  lemma RepeatStep(s: Series, rule: Rule, input: Input)
    requires ListOk(s) && input.Push? && IsAccepted(s.list, input.item) && Alarmed(LastSent(s.log))
    requires var s' := Next(s, rule, input);
      s'.list.Some? && Enough(s'.list.value, rule.need) && rule.trig(Window(s'.list.value, rule.need))
    ensures var s' := Next(s, rule, input);
      var window, last := Window(s'.list.value, rule.need), LastSent(s.log).value;
      var due := last.currentStep < rule.maxStep && AllLater(window, last.eventTime)
                 && input.now - last.eventTime >= rule.minInterval;
      s'.log == if due then s.log + [Sent(Event(rule.id, PROBLEM, last.currentStep + 1, input.item.ts), input.now, window)]
                else s.log
  {
    var s' := Next(s, rule, input);
    var window, last := Window(s'.list.value, rule.need), LastSent(s.log).value;
    OldestDecides(window, last.eventTime);
  }

  /** In a window that goes back in time the oldest point decides whether all are later. */
  lemma OldestDecides(window: seq<Evidence>, time: int)
    requires window != [] && forall a, b :: 0 <= a < b < |window| ==> window[a].ts > window[b].ts
    ensures window[|window|-1].ts > time <==> AllLater(window, time)
  {
  }

  /** Outside an alarm a judged sample sends the first alarm exactly when it triggers and the limit is
      not zero; in an alarm one that does not trigger sends the recovery. */
  lemma FirstAndLastSent(rule: Rule, inputs: seq<Input>)
    requires JudgedLast(rule, inputs)
    ensures var before, s, input := Run(rule, inputs[..|inputs|-1]), Run(rule, inputs), inputs[|inputs|-1];
      var window := Window(s.list.value, rule.need);
      if Alarmed(LastSent(before.log)) then
        !rule.trig(window) ==> s.log == before.log + [Sent(Event(rule.id, OK, 1, input.item.ts), input.now, window)]
      else
        s.log == if rule.trig(window) && rule.maxStep != 0
                 then before.log + [Sent(Event(rule.id, PROBLEM, 1, input.item.ts), input.now, window)] else before.log
  {
    FirstAndLastStep(Run(rule, inputs[..|inputs|-1]), rule, inputs[|inputs|-1]);
  }

  lemma FirstAndLastStep(s: Series, rule: Rule, input: Input)
    requires ListOk(s) && input.Push? && IsAccepted(s.list, input.item)
    requires var s' := Next(s, rule, input); s'.list.Some? && Enough(s'.list.value, rule.need)
    ensures var s' := Next(s, rule, input);
      var window := Window(s'.list.value, rule.need);
      if Alarmed(LastSent(s.log)) then
        !rule.trig(window) ==> s'.log == s.log + [Sent(Event(rule.id, OK, 1, input.item.ts), input.now, window)]
      else
        s'.log == if rule.trig(window) && rule.maxStep != 0
                  then s.log + [Sent(Event(rule.id, PROBLEM, 1, input.item.ts), input.now, window)] else s.log
  {
  }

  // ----- evidence

  ghost function Times(window: seq<Evidence>): set<int>
  {
    set a | 0 <= a < |window| :: window[a].ts
  }

  lemma {:induction false} TimesCount(window: seq<Evidence>)
    requires forall a, b :: 0 <= a < b < |window| ==> window[a].ts > window[b].ts
    ensures |Times(window)| == |window|
  {
    if window != [] {
      var init, t := window[..|window|-1], window[|window|-1].ts;
      TimesCount(init);
      assert Times(window) == Times(init) + {t} by {
        assert forall a :: 0 <= a < |init| ==> init[a] == window[a];
      }
      assert t !in Times(init);
    }
  }

  /** Consecutive alarms of one episode rest on disjoint windows: the later window begins after
      the earlier alarm. */
  lemma AlarmWindowsDisjoint(rule: Rule, inputs: seq<Input>, i: nat)
    requires var log := Run(rule, inputs).log;
      0 < i < |log| && log[i].event.status == PROBLEM && log[i-1].event.status == PROBLEM
    ensures var log := Run(rule, inputs).log; Times(log[i-1].window) !! Times(log[i].window)
  {
    RunLogOk(rule, inputs);
    WindowsDisjoint(Run(rule, inputs), rule, i);
  }

  lemma WindowsDisjoint(s: Series, rule: Rule, i: nat)
    requires LogOk(s, rule) && 0 < i < |s.log|
    requires s.log[i].event.status == PROBLEM && s.log[i-1].event.status == PROBLEM
    ensures Times(s.log[i-1].window) !! Times(s.log[i].window)
  {
    assert EntryOk(s.log, i, rule, s.accepted) && EntryOk(s.log, i - 1, rule, s.accepted);
    var earlier, later := Times(s.log[i-1].window), Times(s.log[i].window);
    assert forall t :: t in earlier ==> t <= s.log[i-1].event.eventTime;
    assert forall t :: t in later ==> t > s.log[i-1].event.eventTime;
  }

  lemma WindowTimes(e: Sent, need: int, accepted: set<int>)
    requires WindowOk(e, need, accepted)
    ensures Times(e.window) <= accepted && |Times(e.window)| == need && e.event.eventTime in Times(e.window)
    ensures forall t :: t in Times(e.window) ==> e.window[need-1].ts <= t <= e.event.eventTime
  {
    TimesCount(e.window);
    assert e.window[0].ts == e.event.eventTime;
  }

  /** The evidence behind the k-th alarm of an episode: k windows' worth of distinct times. */
  lemma {:induction false} EvidenceOf(s: Series, rule: Rule, i: nat) returns (E: set<int>)
    requires LogOk(s, rule) && i < |s.log| && s.log[i].event.status == PROBLEM
    ensures E <= s.accepted && forall t :: t in E ==> t <= s.log[i].event.eventTime
    ensures |E| == s.log[i].event.currentStep * rule.need
  {
    var e := s.log[i];
    assert EntryOk(s.log, i, rule, s.accepted);
    WindowTimes(e, rule.need, s.accepted);
    if i == 0 || s.log[i-1].event.status == OK {
      E := Times(e.window);
    } else {
      var E0 := EvidenceOf(s, rule, i - 1);
      E := MoreEvidence(E0, e, s.log[i-1].event, rule.need, s.accepted);
    }
  }

  lemma MoreEvidence(E0: set<int>, e: Sent, prev: Event, need: int, accepted: set<int>) returns (E: set<int>)
    requires WindowOk(e, need, accepted) && e.window[need-1].ts > prev.eventTime
    requires E0 <= accepted && |E0| == prev.currentStep * need && forall t :: t in E0 ==> t <= prev.eventTime
    ensures E <= accepted && |E| == (prev.currentStep + 1) * need && forall t :: t in E ==> t <= e.event.eventTime
  {
    WindowTimes(e, need, accepted);
    var W := Times(e.window);
    E := E0 + W;
    assert E0 !! W;
    OneMore(prev.currentStep, need);
  }

  lemma OneMore(k: int, need: int)
    ensures (k + 1) * need == k * need + need
  {
  }

  /** The distinct timestamps pushed in a run. */
  ghost function PushedTimes(inputs: seq<Input>): set<int>
  {
    set i | 0 <= i < |inputs| && inputs[i].Push? :: inputs[i].item.ts
  }

  lemma {:induction false} AcceptedWerePushed(rule: Rule, inputs: seq<Input>)
    ensures Run(rule, inputs).accepted <= PushedTimes(inputs)
  {
    if inputs != [] {
      var init := inputs[..|inputs|-1];
      AcceptedWerePushed(rule, init);
      assert forall i :: 0 <= i < |init| ==> init[i] == inputs[i];
      assert PushedTimes(init) <= PushedTimes(inputs);
      if inputs[|inputs|-1].Push? {
        assert inputs[|inputs|-1].item.ts in PushedTimes(inputs);
      }
    }
  }

  /** An alarm with step k over windows of w points needs k*w distinct timestamps that were pushed
      and accepted, in every run, whatever is cleaned up in between. */
  lemma AlarmNeedsEvidence(rule: Rule, inputs: seq<Input>, i: nat)
    requires i < |Run(rule, inputs).log| && Run(rule, inputs).log[i].event.status == PROBLEM
    ensures Run(rule, inputs).log[i].event.currentStep * rule.need <= |Run(rule, inputs).accepted| <= |PushedTimes(inputs)|
  {
    RunLogOk(rule, inputs);
    AcceptedWerePushed(rule, inputs);
    EvidenceCounts(Run(rule, inputs), rule, i);
    JudgeFunctions.Subset(Run(rule, inputs).accepted, PushedTimes(inputs));
  }

  lemma EvidenceCounts(s: Series, rule: Rule, i: nat)
    requires LogOk(s, rule) && i < |s.log| && s.log[i].event.status == PROBLEM
    ensures s.log[i].event.currentStep * rule.need <= |s.accepted|
  {
    var E := EvidenceOf(s, rule, i);
    JudgeFunctions.Subset(E, s.accepted);
  }

  // ----- one judgement on the heap

  /** Judges the newest sample of a list against one rule. */
  method JudgeItemWithRule(L: SafeLinkedList, center: EventCenter, fn: JudgeFunctions.Function, op: string, right: real,
                           sqrt: real -> real, id: string, time: int, now: int, maxStep: int, minInterval: int)
    requires L.Valid()
    modifies center
    ensures !Enough(L.L, JudgeFunctions.Need(fn)) ==>
      center.lastEvents == old(center.lastEvents) && center.queue == old(center.queue)
    ensures Enough(L.L, JudgeFunctions.Need(fn)) ==>
      var window := Window(L.L, JudgeFunctions.Need(fn));
      var o := Observation(window, JudgeFunctions.Triggers(fn, window, op, right, sqrt), time, now);
      match React(old(center.Last(id)), id, o, maxStep, minInterval)
      case None => center.lastEvents == old(center.lastEvents) && center.queue == old(center.queue)
      case Some(e) => center.lastEvents == old(center.lastEvents)[id := e] && center.queue == old(center.queue) + [e]
  {
    var historyData, leftValue, isTriggered, isEnough := JudgeFunctions.Compute(fn, L, op, right, sqrt);
    if !isEnough {
      return;
    }
    center.SendEventIfNeed(historyData, isTriggered, now, id, time, maxStep, minInterval);
  }

  ghost function ListOf(items: JudgeItemMap, key: string): Option<seq<JudgeItem>>
    reads items, items.M.Values
  {
    if key in items.M then Some(items.M[key].L) else None
  }

  /** The heap holds the state of a run: the key's list and the id's last event. */
  ghost predicate Holds(s: Series, items: JudgeItemMap, center: EventCenter, key: string, id: string)
    reads items, items.M.Values, center
  {
    s.list == ListOf(items, key) && LastSent(s.log) == center.Last(id)
  }

  /** A strategy or expression that concerns a series: its function and test, the id its events
      carry, and its alarm limits. */
  datatype Configured = Configured(fn: JudgeFunctions.Function, op: string, right: real,
                                   id: string, maxStep: int, minInterval: int)

  ghost function RuleOf(c: Configured, sqrt: real -> real): Rule
  {
    var need := JudgeFunctions.Need(c.fn);
    Rule(c.id, need, vs => 1 <= |vs| == need && JudgeFunctions.Triggers(c.fn, vs, c.op, c.right, sqrt), c.maxStep, c.minInterval)
  }

  ghost predicate DistinctRules(rules: seq<Configured>)
  {
    forall i, j :: 0 <= i < j < |rules| ==> rules[i].id != rules[j].id
  }

  /** What judging a list makes of the last event of a rule. */
  ghost function LastAfter(last: Option<Event>, rule: Rule, L: seq<JudgeItem>, time: int, now: int): Option<Event>
    requires Descending(L)
  {
    if !Enough(L, rule.need) then last else
      var window := Window(L, rule.need);
      var r := React(last, rule.id, Observation(window, rule.trig(window), time, now), rule.maxStep, rule.minInterval);
      if r.Some? then r else last
  }

  lemma LastOfJudged(log: seq<Sent>, rule: Rule, L: seq<JudgeItem>, time: int, now: int)
    requires Descending(L)
    ensures LastSent(Judged(log, rule, L, time, now)) == LastAfter(LastSent(log), rule, L, time, now)
  {
  }

  /** Judges a list against one rule; `after` is the last event the rule then has. */
  method JudgeAsRule(L: SafeLinkedList, center: EventCenter, c: Configured, sqrt: real -> real, time: int, now: int,
                     ghost after: Option<Event>)
    requires L.Valid() && after == LastAfter(center.Last(c.id), RuleOf(c, sqrt), L.L, time, now)
    modifies center
    ensures center.Last(c.id) == after
    ensures forall other :: other != c.id ==> center.Last(other) == old(center.Last(other))
  {
    JudgeItemWithRule(L, center, c.fn, c.op, c.right, sqrt, c.id, time, now, c.maxStep, c.minInterval);
  }

  /** The id belongs to none of the rules. */
  ghost predicate Unruled(rules: seq<Configured>, id: string)
  {
    forall i :: 0 <= i < |rules| ==> rules[i].id != id
  }

  /** The last events of the rules are the given ones. */
  ghost predicate LastsAre(center: EventCenter, rules: seq<Configured>, lasts: seq<Option<Event>>)
    reads center
  {
    |lasts| == |rules| && forall i :: 0 <= i < |rules| ==> center.Last(rules[i].id) == lasts[i]
  }

  /** Judging the list makes `after` of the last events `before`. */
  ghost predicate AfterAll(before: seq<Option<Event>>, after: seq<Option<Event>>, rules: seq<Configured>,
                           sqrt: real -> real, L: seq<JudgeItem>, time: int, now: int)
    requires Descending(L)
  {
    |before| == |after| == |rules| &&
    forall i :: 0 <= i < |rules| ==> AfterAt(before, after, rules, sqrt, L, time, now, i)
  }

  ghost predicate AfterAt(before: seq<Option<Event>>, after: seq<Option<Event>>, rules: seq<Configured>,
                          sqrt: real -> real, L: seq<JudgeItem>, time: int, now: int, i: nat)
    requires Descending(L) && i < |rules| == |before| == |after|
  {
    after[i] == LastAfter(before[i], RuleOf(rules[i], sqrt), L, time, now)
  }

  /** Judges a list against every rule that concerns it. */
  method JudgeAll(L: SafeLinkedList, center: EventCenter, rules: seq<Configured>, sqrt: real -> real,
                  time: int, now: int, ghost before: seq<Option<Event>>, ghost after: seq<Option<Event>>)
    requires L.Valid() && DistinctRules(rules) && LastsAre(center, rules, before)
    requires AfterAll(before, after, rules, sqrt, L.L, time, now)
    modifies center
    ensures LastsAre(center, rules, after)
    ensures forall other :: Unruled(rules, other) ==> center.Last(other) == old(center.Last(other))
  {
    for r := 0 to |rules|
      invariant LastsAre(center, rules, after[..r] + before[r..])
      invariant forall other :: Unruled(rules, other) ==> center.Last(other) == old(center.Last(other))
    {
      JudgeNth(L, center, rules, r, sqrt, time, now, before, after);
    }
    assert after[..|rules|] + before[|rules|..] == after;
  }

  /** Judges the r-th rule, after those before it. */
  method JudgeNth(L: SafeLinkedList, center: EventCenter, rules: seq<Configured>, r: nat, sqrt: real -> real,
                  time: int, now: int, ghost before: seq<Option<Event>>, ghost after: seq<Option<Event>>)
    requires L.Valid() && DistinctRules(rules) && r < |rules|
    requires AfterAll(before, after, rules, sqrt, L.L, time, now)
    requires LastsAre(center, rules, after[..r] + before[r..])
    modifies center
    ensures LastsAre(center, rules, after[..r+1] + before[r+1..])
    ensures forall other :: other != rules[r].id ==> center.Last(other) == old(center.Last(other))
  {
    assert (after[..r] + before[r..])[r] == before[r];
    JudgeAt(L, center, rules, r, sqrt, time, now, before, after);
    ghost var lasts, lasts' := after[..r] + before[r..], after[..r+1] + before[r+1..];
    assert forall i :: 0 <= i < |rules| ==> lasts'[i] == if i == r then after[r] else lasts[i];
  }

  method JudgeAt(L: SafeLinkedList, center: EventCenter, rules: seq<Configured>, r: nat, sqrt: real -> real,
                 time: int, now: int, ghost before: seq<Option<Event>>, ghost after: seq<Option<Event>>)
    requires L.Valid() && r < |rules| && AfterAll(before, after, rules, sqrt, L.L, time, now)
    requires center.Last(rules[r].id) == before[r]
    modifies center
    ensures center.Last(rules[r].id) == after[r]
    ensures forall other :: other != rules[r].id ==> center.Last(other) == old(center.Last(other))
  {
    assert AfterAt(before, after, rules, sqrt, L.L, time, now, r);
    JudgeAsRule(L, center, rules[r], sqrt, time, now, after[r]);
  }

  function PushedList(list: Option<seq<JudgeItem>>, item: JudgeItem, remain: nat): seq<JudgeItem>
  {
    if list.Some? then Pushed(list.value, item, remain) else [item]
  }

  lemma NextPush(s: Series, rule: Rule, item: JudgeItem, remain: nat, now: int)
    requires ListOk(s)
    ensures var s', L := Next(s, rule, Push(item, remain, now)), PushedList(s.list, item, remain);
      && s'.list == Some(L) && Descending(L)
      && LastSent(s'.log) == if IsAccepted(s.list, item) then LastAfter(LastSent(s.log), rule, L, item.ts, now) else LastSent(s.log)
  {
    if IsAccepted(s.list, item) {
      LastOfJudged(s.log, rule, PushedList(s.list, item, remain), item.ts, now);
    }
  }

  method PushSample(items: JudgeItemMap, key: string, item: JudgeItem, remain: nat) returns (needJudge: bool)
    requires items.Valid()
    modifies items, items.M.Values
    ensures items.Valid() && needJudge == IsAccepted(old(ListOf(items, key)), item)
    ensures key in items.M && items.M[key].L == PushedList(old(ListOf(items, key)), item, remain)
    ensures items.Contents() - {key} == old(items.Contents()) - {key}
  {
    needJudge := items.PushFrontAndMaintain(key, item, remain);
    assert key in items.Contents();
  }

  /** A push makes `after` of the last events `before`. */
  ghost predicate PushMoves(before: seq<Option<Event>>, after: seq<Option<Event>>, rules: seq<Configured>, sqrt: real -> real,
                            list: Option<seq<JudgeItem>>, item: JudgeItem, remain: nat, now: int)
    requires Descending(PushedList(list, item, remain))
  {
    if IsAccepted(list, item) then AfterAll(before, after, rules, sqrt, PushedList(list, item, remain), item.ts, now)
    else after == before
  }

  /** Pushes a sample and, when it is accepted, judges its list against all rules. */
  method PushAndJudge(items: JudgeItemMap, center: EventCenter, key: string, item: JudgeItem, remain: nat, now: int,
                      rules: seq<Configured>, sqrt: real -> real,
                      ghost before: seq<Option<Event>>, ghost after: seq<Option<Event>>)
    requires items.Valid() && DistinctRules(rules) && LastsAre(center, rules, before)
    requires Descending(PushedList(ListOf(items, key), item, remain))
    requires PushMoves(before, after, rules, sqrt, ListOf(items, key), item, remain, now)
    modifies items, items.M.Values, center
    ensures items.Valid() && key in items.M && items.M[key].L == PushedList(old(ListOf(items, key)), item, remain)
    ensures items.Contents() - {key} == old(items.Contents()) - {key}
    ensures LastsAre(center, rules, after)
    ensures forall other :: Unruled(rules, other) ==> center.Last(other) == old(center.Last(other))
  {
    var needJudge := PushSample(items, key, item, remain);
    if needJudge {
      JudgeAll(items.M[key], center, rules, sqrt, item.ts, now, before, after);
    }
  }

  /** The heap holds the states of the runs of one series under several rules. */
  ghost predicate HoldsAll(ss: seq<Series>, items: JudgeItemMap, center: EventCenter, key: string, rules: seq<Configured>)
    requires |ss| == |rules|
    reads items, items.M.Values, center
  {
    forall i :: 0 <= i < |rules| ==> ListOk(ss[i]) && Holds(ss[i], items, center, key, rules[i].id)
  }

  ghost function NextAll(ss: seq<Series>, rules: seq<Configured>, sqrt: real -> real, input: Input): (ss': seq<Series>)
    requires |ss| == |rules| && forall i :: 0 <= i < |ss| ==> ListOk(ss[i])
    ensures |ss'| == |ss|
  {
    seq(|ss|, i requires 0 <= i < |ss| => Next(ss[i], RuleOf(rules[i], sqrt), input))
  }

  ghost function Lasts(ss: seq<Series>): (lasts: seq<Option<Event>>)
    ensures |lasts| == |ss|
  {
    seq(|ss|, i requires 0 <= i < |ss| => LastSent(ss[i].log))
  }

  lemma PushedDescending(list: Option<seq<JudgeItem>>, item: JudgeItem, remain: nat)
    requires list.Some? ==> Descending(list.value)
    ensures Descending(PushedList(list, item, remain))
  {
  }

  lemma NextMoves(ss: seq<Series>, rules: seq<Configured>, sqrt: real -> real, list: Option<seq<JudgeItem>>,
                  item: JudgeItem, remain: nat, now: int, i: nat)
    requires |ss| == |rules| && i < |ss| && forall k :: 0 <= k < |ss| ==> ListOk(ss[k])
    requires ss[i].list == list && Descending(PushedList(list, item, remain))
    ensures var before, after := Lasts(ss), Lasts(NextAll(ss, rules, sqrt, Push(item, remain, now)));
      if IsAccepted(list, item) then AfterAt(before, after, rules, sqrt, PushedList(list, item, remain), item.ts, now, i)
      else after[i] == before[i]
  {
    NextPush(ss[i], RuleOf(rules[i], sqrt), item, remain, now);
  }

  /** The step of all runs moves their last events as the push does. */
  lemma NextsMove(ss: seq<Series>, rules: seq<Configured>, sqrt: real -> real, list: Option<seq<JudgeItem>>,
                  item: JudgeItem, remain: nat, now: int)
    requires |ss| == |rules| && Descending(PushedList(list, item, remain))
    requires forall i :: 0 <= i < |ss| ==> ListOk(ss[i]) && ss[i].list == list
    ensures PushMoves(Lasts(ss), Lasts(NextAll(ss, rules, sqrt, Push(item, remain, now))), rules, sqrt, list, item, remain, now)
  {
    var before, after := Lasts(ss), Lasts(NextAll(ss, rules, sqrt, Push(item, remain, now)));
    if IsAccepted(list, item) {
      forall i | 0 <= i < |ss|
        ensures AfterAt(before, after, rules, sqrt, PushedList(list, item, remain), item.ts, now, i)
      {
        NextMoves(ss, rules, sqrt, list, item, remain, now, i);
      }
    } else {
      forall i | 0 <= i < |ss|
        ensures after[i] == before[i]
      {
        NextMoves(ss, rules, sqrt, list, item, remain, now, i);
      }
    }
  }

  /** Receiving a sample is, on the heap, one step of the run of every rule that concerns its
      series; no other series and no other id changes. */
  method Receive(items: JudgeItemMap, center: EventCenter, key: string, item: JudgeItem, remain: nat, now: int,
                 rules: seq<Configured>, sqrt: real -> real, ghost ss: seq<Series>)
    requires items.Valid() && DistinctRules(rules) && |ss| == |rules| && HoldsAll(ss, items, center, key, rules)
    modifies items, items.M.Values, center
    ensures items.Valid() && HoldsAll(NextAll(ss, rules, sqrt, Push(item, remain, now)), items, center, key, rules)
    ensures items.Contents() - {key} == old(items.Contents()) - {key}
    ensures forall other :: Unruled(rules, other) ==> center.Last(other) == old(center.Last(other))
  {
    ghost var list, next := ListOf(items, key), NextAll(ss, rules, sqrt, Push(item, remain, now));
    PushedDescending(list, item, remain);
    NextsMove(ss, rules, sqrt, list, item, remain, now);
    PushAndJudge(items, center, key, item, remain, now, rules, sqrt, Lasts(ss), Lasts(next));
    forall i | 0 <= i < |rules|
      ensures ListOk(next[i]) && Holds(next[i], items, center, key, rules[i].id)
    {
      NextPush(ss[i], RuleOf(rules[i], sqrt), item, remain, now);
      assert center.Last(rules[i].id) == Lasts(next)[i];
    }
  }

  /** A stale cleanup is, for every series and rule, the cleanup step of its run. */
  method CleanUp(items: JudgeItemMap, center: EventCenter, before: int,
                 ghost key: string, ghost rules: seq<Configured>, ghost sqrt: real -> real, ghost ss: seq<Series>)
    requires items.Valid() && |ss| == |rules| && HoldsAll(ss, items, center, key, rules)
    modifies items
    ensures items.Valid() && HoldsAll(NextAll(ss, rules, sqrt, Clean(before)), items, center, key, rules)
  {
    items.CleanStale(before);
    assert items.Contents().Keys == items.M.Keys;
  }
}

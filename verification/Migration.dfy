/** The migration protocol of one cache key as a state machine: items arrive, flush passes either
    queue a pull or commit to the local file, and a network worker sends items away or pulls the
    remote file.  Each step is atomic; steps of the worker interleave with everything else. */
module Migration {
  import opened GraphQuery
  import opened GraphStore

  // ----- state

  datatype Entry = Absent | Present(flag: Flag, L: seq<Item>)

  datatype FetchError = NoError | NotExist | OtherError

  /** Where the key's network task stands; `flag` is the copy it read when it began. */
  datatype Task =
    | Idle
    | Sending(flag: Flag, items: seq<Item>)
    | Fetching(flag: Flag)
    | Got(flag: Flag)
    | FetchOut(flag: Flag, err: FetchError)

  /** `file` says whether the local file exists; the multisets account for every item accepted. */
  datatype State = State(entry: Entry, file: bool, task: Task, queued: nat,
                         received: multiset<Item>, flushed: multiset<Item>,
                         delivered: multiset<Item>, dropped: multiset<Item>)

  /** A freshly started server: nothing cached; the file may be there from before. */
  function Start(file: bool): State
  {
    State(Absent, file, Idle, 0, multiset{}, multiset{}, multiset{}, multiset{})
  }

  /** How a flush to disk ends: written, the file could not be created, or only created. */
  datatype FlushOutcome = Written | NotCreated | OnlyCreated

  datatype Reply = Body | RemoteMissing | RemoteError

  datatype Step =
    | Receive(item: Item)
    | Tick(due: bool, outcome: FlushOutcome)
    | TaskStart(busy: bool)
    | SendDone(acked: bool)
    | FetchReply(reply: Reply)
    | FileWrite(ok: bool, err: FetchError)
    | FetchFinish(outcome: FlushOutcome)
    | Remove
    | Delete
    | Force(outcome: FlushOutcome)

  // ----- steps

  function Items(s: State): seq<Item>
  {
    if s.entry.Present? then s.entry.L else []
  }

  function SetFlag(e: Entry, flag: Flag): Entry
  {
    if e.Present? then e.(flag := flag) else e
  }

  /** Pops the cached items and flushes them to the local file. */
  function Commit(s: State, outcome: FlushOutcome): State
  {
    if Items(s) == [] then s else
      var items := multiset(s.entry.L);
      s.(entry := s.entry.(L := []),
         file := s.file || outcome != NotCreated,
         flushed := s.flushed + if outcome == Written then items else multiset{},
         dropped := s.dropped + if outcome == Written then multiset{} else items)
  }

  function ReceiveStep(s: State, item: Item): State
  {
    if s.entry.Absent? then
      s.(entry := Present(NO_FLAG.(miss := !s.file), [item]), received := s.received + multiset{item})
    else if Admits(s.entry.L, item) then
      s.(entry := s.entry.(L := [item] + s.entry.L), received := s.received + multiset{item})
    else s
  }

  /** An unforced flush pass over the key. */
  function TickStep(s: State, due: bool, outcome: FlushOutcome): State
  {
    if s.entry.Absent? then s
    else if s.entry.flag.miss then (if s.entry.L == [] then s else s.(queued := s.queued + 1))
    else if due then Commit(s, outcome)
    else s
  }

  /** The worker takes a queued pull; under load it sends the items instead of fetching the file. */
  function StartStep(s: State, busy: bool): State
  {
    if !s.task.Idle? || s.queued == 0 then s else
      var s' := s.(queued := s.queued - 1);
      if s.entry.Absent? then s'
      else if !busy then
        s'.(entry := s.entry.(flag := s.entry.flag.(fetching := true)), task := Fetching(s.entry.flag))
      else if s.entry.L == [] then
        s'.(entry := s.entry.(flag := s.entry.flag.(sending := false)))
      else
        s'.(entry := Present(s.entry.flag.(sending := true), []), task := Sending(s.entry.flag, s.entry.L))
  }

  function SendDoneStep(s: State, acked: bool): State
  {
    if !s.task.Sending? then s else
      var items := s.task.items;
      var restored := if !acked && s.entry.Present? then s.entry.(L := s.entry.L + items) else s.entry;
      s.(entry := SetFlag(restored, s.task.flag.(sending := false)),
         task := Idle,
         delivered := s.delivered + if acked then multiset(items) else multiset{},
         dropped := s.dropped + if !acked && s.entry.Absent? then multiset(items) else multiset{})
  }

  function FetchReplyStep(s: State, reply: Reply): State
  {
    if !s.task.Fetching? then s else
      s.(task := match reply
                 case Body => Got(s.task.flag)
                 case RemoteMissing => FetchOut(s.task.flag, NotExist)
                 case RemoteError => FetchOut(s.task.flag, OtherError))
  }

  /** The exclusive create of the pulled file: it fails when the file exists. */
  function FileWriteStep(s: State, ok: bool, err: FetchError): State
  {
    if !s.task.Got? then s
    else if s.file then s.(task := FetchOut(s.task.flag, OtherError))
    else if ok then s.(file := true, task := FetchOut(s.task.flag.(miss := false), NoError))
    else s.(task := FetchOut(s.task.flag, if err == NoError then OtherError else err))
  }

  /** Stores the task's flag; a file missing at the source is replaced by a local flush. */
  function FetchFinishStep(s: State, outcome: FlushOutcome): State
  {
    if !s.task.FetchOut? then s
    else if s.task.err == NotExist then Commit(s.(entry := SetFlag(s.entry, NO_FLAG), task := Idle), outcome)
    else s.(entry := SetFlag(s.entry, s.task.flag.(fetching := false)), task := Idle)
  }

  function Apply(s: State, step: Step): State
  {
    match step
    case Receive(item) => ReceiveStep(s, item)
    case Tick(due, outcome) => TickStep(s, due, outcome)
    case TaskStart(busy) => StartStep(s, busy)
    case SendDone(acked) => SendDoneStep(s, acked)
    case FetchReply(reply) => FetchReplyStep(s, reply)
    case FileWrite(ok, err) => FileWriteStep(s, ok, err)
    case FetchFinish(outcome) => FetchFinishStep(s, outcome)
    case Remove => s.(entry := Absent, dropped := s.dropped + multiset(Items(s)))
    case Delete =>
      s.(entry := if s.entry.Present? then s.entry.(L := []) else Absent, file := false,
         dropped := s.dropped + multiset(Items(s)))
    case Force(outcome) => Commit(s, outcome)
  }

  function Run(s: State, steps: seq<Step>): State
  {
    if steps == [] then s else Apply(Run(s, steps[..|steps|-1]), steps[|steps|-1])
  }

  // ----- a missing key has no file

  predicate HoldsMiss(task: Task)
  {
    !task.Idle? && task.flag.miss
  }

  /** A pull has settled that the key is not missing but has not stored the flag yet. */
  predicate AboutToClear(task: Task)
  {
    task.FetchOut? && !task.flag.miss
  }

  /** A key flagged missing has no local file, except in the moment between a successful pull and
      the storing of its flag. */
  predicate MissingHasNoFile(s: State)
  {
    s.entry.Present? && s.entry.flag.miss && s.file ==> AboutToClear(s.task)
  }

  ghost predicate Inv(s: State)
  {
    && (HoldsMiss(s.task) ==> !s.file && (s.entry.Present? ==> s.entry.flag.miss))
    && MissingHasNoFile(s)
  }

  /** A forced flush, or serving the file to a peer, that would write a file for a missing key. */
  predicate Breaks(s: State, step: Step)
  {
    && step.Force? && step.outcome != NotCreated
    && s.entry.Present? && s.entry.L != [] && s.entry.flag.miss && !s.file && !AboutToClear(s.task)
  }

  lemma InvStep(s: State, step: Step)
    requires Inv(s)
    ensures Inv(Apply(s, step)) <==> !Breaks(s, step)
  {
  }

  lemma BreakShows(s: State, step: Step)
    requires Breaks(s, step)
    ensures !MissingHasNoFile(Apply(s, step))
  {
  }

  lemma {:induction false} RunPrefix(s: State, steps: seq<Step>, n: nat)
    requires n < |steps|
    ensures Run(s, steps[..n+1]) == Apply(Run(s, steps[..n]), steps[n])
  {
    assert steps[..n+1][..n] == steps[..n];
  }

  ghost predicate NeverBreaks(s: State, steps: seq<Step>)
  {
    forall n :: 0 <= n < |steps| ==> !Breaks(Run(s, steps[..n]), steps[n])
  }

  /** All along a run a key flagged missing has no local file, exactly when no forced flush writes a
      file for a missing key. */
  lemma MissingHasNoFileIff(file: bool, steps: seq<Step>)
    ensures (forall n :: 0 <= n <= |steps| ==> MissingHasNoFile(Run(Start(file), steps[..n])))
       <==> NeverBreaks(Start(file), steps)
  {
    var s := Start(file);
    if forall n :: 0 <= n <= |steps| ==> MissingHasNoFile(Run(s, steps[..n])) {
      forall n | 0 <= n < |steps|
        ensures !Breaks(Run(s, steps[..n]), steps[n])
      {
        RunPrefix(s, steps, n);
        if Breaks(Run(s, steps[..n]), steps[n]) {
          BreakShows(Run(s, steps[..n]), steps[n]);
        }
      }
    }
    if NeverBreaks(s, steps) {
      forall n | 0 <= n <= |steps|
        ensures MissingHasNoFile(Run(s, steps[..n]))
      {
        InvUpTo(s, steps, n);
      }
    }
  }

  lemma {:induction false} InvUpTo(s: State, steps: seq<Step>, n: nat)
    requires Inv(s) && NeverBreaks(s, steps) && n <= |steps|
    ensures Inv(Run(s, steps[..n]))
  {
    if n > 0 {
      InvUpTo(s, steps, n - 1);
      RunPrefix(s, steps, n - 1);
      InvStep(Run(s, steps[..n-1]), steps[n-1]);
    }
  }

  lemma RunKeepsInv(s: State, steps: seq<Step>)
    requires Inv(s) && NeverBreaks(s, steps)
    ensures Inv(Run(s, steps))
  {
    InvUpTo(s, steps, |steps|);
    assert steps[..|steps|] == steps;
  }

  /** A forced flush of a missing key leaves it flagged missing next to its file. */
  lemma ForcedFlushOfMissingKey()
    ensures !MissingHasNoFile(Run(Start(false), [Receive(Item(60, 0.0)), Force(Written)]))
  {
    var steps := [Receive(Item(60, 0.0)), Force(Written)];
    RunTwo(Start(false), steps[0], steps[1]);
  }

  lemma RunSnoc(s: State, steps: seq<Step>, step: Step)
    ensures Run(s, steps + [step]) == Apply(Run(s, steps), step)
  {
    assert (steps + [step])[..|steps|] == steps;
  }

  lemma RunTwo(s: State, a: Step, b: Step)
    ensures Run(s, [a, b]) == Apply(Apply(s, a), b)
  {
    RunSnoc(s, [], a);
    RunSnoc(s, [a], b);
    assert [] + [a] == [a] && [a] + [b] == [a, b];
  }

  lemma RunThree(s: State, a: Step, b: Step, c: Step)
    ensures Run(s, [a, b, c]) == Apply(Apply(Apply(s, a), b), c)
  {
    RunTwo(s, a, b);
    RunSnoc(s, [a, b], c);
    assert [a, b] + [c] == [a, b, c];
  }

  // ----- the exclusive create

  /** A pull that began while the key was missing finds no file, so its exclusive create goes
      through and the key stops being missing. */
  lemma PulledFileCannotCollide(file: bool, steps: seq<Step>, err: FetchError, outcome: FlushOutcome)
    requires NeverBreaks(Start(file), steps)
    requires Run(Start(file), steps).task.Got? && Run(Start(file), steps).task.flag.miss
    ensures !Run(Start(file), steps).file
    ensures var s := Apply(Apply(Run(Start(file), steps), FileWrite(true, err)), FetchFinish(outcome));
      s.file && s.task.Idle? && (s.entry.Present? ==> !s.entry.flag.miss)
  {
    RunKeepsInv(Start(file), steps);
    PullCompletes(Run(Start(file), steps), err, outcome);
  }

  lemma PullCompletes(s: State, err: FetchError, outcome: FlushOutcome)
    requires Inv(s) && s.task.Got? && s.task.flag.miss
    ensures !s.file
    ensures var s' := Apply(Apply(s, FileWrite(true, err)), FetchFinish(outcome));
      s'.file && s'.task.Idle? && (s'.entry.Present? ==> !s'.entry.flag.miss)
  {
  }

  /** The worker can begin a fetch: it is idle, a pull is queued, the key is cached. */
  predicate CanPull(s: State)
  {
    s.task.Idle? && s.queued > 0 && s.entry.Present?
  }

  /** The remote file has been received and the exclusive create would find a file. */
  predicate Collides(s: State)
  {
    s.task.Got? && s.file
  }

  /** Steps before the pull stores its flag. */
  ghost predicate WithinPull(steps: seq<Step>)
  {
    forall n :: 0 <= n < |steps| ==> !steps[n].FetchFinish?
  }

  /** The pull that began with flag `flag` is under way. */
  predicate InPull(s: State, flag: Flag)
  {
    s.task.FetchOut? || (s.task in {Fetching(flag), Got(flag)})
  }

  lemma InPullStep(s: State, step: Step, flag: Flag)
    requires InPull(s, flag) && !step.FetchFinish?
    ensures InPull(Apply(s, step), flag)
  {
  }

  lemma {:induction false} StaysInPull(s: State, steps: seq<Step>, flag: Flag)
    requires InPull(s, flag) && WithinPull(steps)
    ensures InPull(Run(s, steps), flag)
  {
    if steps != [] {
      StaysInPull(s, steps[..|steps|-1], flag);
      InPullStep(Run(s, steps[..|steps|-1]), steps[|steps|-1], flag);
    }
  }

  /** A pull that began on a missing key never collides, whatever else happens meanwhile. */
  lemma MissingPullNeverCollides(s: State, steps: seq<Step>)
    requires Inv(s) && CanPull(s) && s.entry.flag.miss
    requires var s' := Apply(s, TaskStart(false)); WithinPull(steps) && NeverBreaks(s', steps)
    ensures !Collides(Run(Apply(s, TaskStart(false)), steps))
  {
    var s' := Apply(s, TaskStart(false));
    InvStep(s, TaskStart(false));
    RunKeepsInv(s', steps);
    StaysInPull(s', steps, s.entry.flag);
  }

  /** An item newer than all cached ones. */
  function NewerItem(L: seq<Item>): Item
  {
    Item(if L == [] then 0 else L[0].ts + 1, 0.0)
  }

  /** An item arrives, a flush pass writes it to the local file, and then the remote file comes in. */
  function FlushDuringPull(s: State): seq<Step>
  {
    [Receive(NewerItem(Items(s))), Tick(true, Written), FetchReply(Body)]
  }

  lemma FlushedThenReceived(s: State)
    requires s.task.Fetching? && s.entry.Present? && !s.entry.flag.miss
    ensures Collides(Apply(Apply(Apply(s, Receive(NewerItem(Items(s)))), Tick(true, Written)), FetchReply(Body)))
  {
    var cached := Apply(s, Receive(NewerItem(Items(s))));
    assert cached.entry.L != [] && cached.task.Fetching? && !cached.entry.flag.miss;
    var flushed := Apply(cached, Tick(true, Written));
    assert flushed.task.Fetching? && flushed.file;
  }

  lemma PresentPullCollides(s: State)
    requires CanPull(s) && !s.entry.flag.miss
    ensures var s', steps := Apply(s, TaskStart(false)), FlushDuringPull(s);
      WithinPull(steps) && NeverBreaks(s', steps) && Collides(Run(s', steps))
  {
    var s', steps := Apply(s, TaskStart(false)), FlushDuringPull(s);
    assert s'.task.Fetching? && s'.entry.Present? && !s'.entry.flag.miss && Items(s') == Items(s);
    FlushedInRun(s', steps);
    NoForceNeverBreaks(s', steps);
  }

  lemma FlushedInRun(s: State, steps: seq<Step>)
    requires s.task.Fetching? && s.entry.Present? && !s.entry.flag.miss && steps == FlushDuringPull(s)
    ensures Collides(Run(s, steps))
  {
    FlushedThenReceived(s);
    RunThree(s, steps[0], steps[1], steps[2]);
  }

  lemma NoForceNeverBreaks(s: State, steps: seq<Step>)
    requires forall n :: 0 <= n < |steps| ==> !steps[n].Force?
    ensures NeverBreaks(s, steps)
  {
  }

  /** In every reachable state in which a pull can begin, some course of events makes its exclusive
      create collide exactly when the key is not flagged missing at that moment. */
  lemma PullCanCollideIff(file: bool, before: seq<Step>)
    requires NeverBreaks(Start(file), before) && CanPull(Run(Start(file), before))
    ensures var s := Run(Start(file), before);
      (exists steps :: WithinPull(steps) && NeverBreaks(Apply(s, TaskStart(false)), steps)
                       && Collides(Run(Apply(s, TaskStart(false)), steps)))
      <==> !s.entry.flag.miss
  {
    var s := Run(Start(file), before);
    RunKeepsInv(Start(file), before);
    if s.entry.flag.miss {
      forall steps | WithinPull(steps) && NeverBreaks(Apply(s, TaskStart(false)), steps)
        ensures !Collides(Run(Apply(s, TaskStart(false)), steps))
      {
        MissingPullNeverCollides(s, steps);
      }
    } else {
      PresentPullCollides(s);
    }
  }

  lemma Snoc(s: State, steps: seq<Step>, step: Step)
    requires NeverBreaks(s, steps) && !step.Force?
    ensures NeverBreaks(s, steps + [step]) && Run(s, steps + [step]) == Apply(Run(s, steps), step)
  {
    var longer := steps + [step];
    assert longer[..|steps|] == steps;
    forall n | 0 <= n < |longer|
      ensures !Breaks(Run(s, longer[..n]), longer[n])
    {
      if n < |steps| {
        assert longer[..n] == steps[..n];
      }
    }
  }

  /** `s` is the state after some run that never breaks the invariant. */
  ghost predicate Reachable(s: State)
  {
    exists file, steps :: NeverBreaks(Start(file), steps) && Run(Start(file), steps) == s
  }

  lemma ReachableNext(s: State, step: Step)
    requires Reachable(s) && !step.Force?
    ensures Reachable(Apply(s, step))
  {
    var file, steps :| NeverBreaks(Start(file), steps) && Run(Start(file), steps) == s;
    Snoc(Start(file), steps, step);
  }

  /** One item arrives for a missing key and two flush passes queue a pull each. */
  ghost function TwoPullsQueued(): State
  {
    var s := Apply(Start(false), Receive(Item(60, 0.0)));
    Apply(Apply(s, Tick(true, Written)), Tick(true, Written))
  }

  /** A pull up to the point where the remote file has been received. */
  ghost function PullReceived(s: State): State
  {
    Apply(Apply(s, TaskStart(false)), FetchReply(Body))
  }

  ghost function PullStored(s: State): State
  {
    Apply(Apply(PullReceived(s), FileWrite(true, NoError)), FetchFinish(Written))
  }

  lemma PullsStayReachable(s: State)
    requires Reachable(s)
    ensures Reachable(PullReceived(s)) && Reachable(PullStored(s))
  {
    ReachableNext(s, TaskStart(false));
    ReachableNext(Apply(s, TaskStart(false)), FetchReply(Body));
    var got := PullReceived(s);
    ReachableNext(got, FileWrite(true, NoError));
    ReachableNext(Apply(got, FileWrite(true, NoError)), FetchFinish(Written));
  }

  lemma TwoPullsReachable()
    ensures Reachable(TwoPullsQueued())
  {
    assert NeverBreaks(Start(false), []) && Run(Start(false), []) == Start(false);
    var s := Apply(Start(false), Receive(Item(60, 0.0)));
    ReachableNext(Start(false), Receive(Item(60, 0.0)));
    ReachableNext(s, Tick(true, Written));
    ReachableNext(Apply(s, Tick(true, Written)), Tick(true, Written));
  }

  lemma SecondPullFindsFile()
    ensures var s := PullReceived(PullStored(TwoPullsQueued())); s.task.Got? && s.file
  {
    var s := TwoPullsQueued();
    assert s.queued == 2 && s.task.Idle? && !s.file && s.entry.Present?;
    var s' := PullStored(s);
    assert s'.queued == 1 && s'.task.Idle? && s'.file && s'.entry.Present?;
  }

  /** Of two pulls queued for one missing key the first stores the file and clears the flag; the
      second begins afterwards, and its exclusive create collides. */
  lemma SecondPullCollides()
    ensures exists s :: Reachable(s) && Collides(s)
  {
    TwoPullsReachable();
    PullsStayReachable(TwoPullsQueued());
    PullsStayReachable(PullStored(TwoPullsQueued()));
    SecondPullFindsFile();
  }

  // ----- nothing disappears

  function InFlight(s: State): seq<Item>
  {
    if s.task.Sending? then s.task.items else []
  }

  /** Every accepted item is in exactly one place. */
  ghost predicate Accounted(s: State)
  {
    s.received == multiset(Items(s)) + multiset(InFlight(s)) + s.flushed + s.delivered + s.dropped
  }

  lemma {:induction false} Conservation(file: bool, steps: seq<Step>)
    ensures Accounted(Run(Start(file), steps))
  {
    if steps != [] {
      Conservation(file, steps[..|steps|-1]);
      AccountedStep(Run(Start(file), steps[..|steps|-1]), steps[|steps|-1]);
    }
  }

  lemma AccountedStep(s: State, step: Step)
    requires Accounted(s)
    ensures Accounted(Apply(s, step))
  {
    match step
    case Receive(item) => AccountedReceive(s, item);
    case TaskStart(busy) => AccountedStart(s, busy);
    case SendDone(acked) => AccountedSendDone(s, acked);
    case FetchFinish(outcome) => AccountedFinish(s, outcome);
    case Tick(due, outcome) => AccountedTick(s, due, outcome);
    case Force(outcome) => AccountedCommit(s, outcome);
    case Remove => AccountedDiscard(s, false);
    case Delete => AccountedDiscard(s, true);
    case FetchReply(reply) => AccountedReply(s, reply);
    case FileWrite(ok, err) => AccountedWrite(s, ok, err);
  }

  lemma AccountedTick(s: State, due: bool, outcome: FlushOutcome)
    requires Accounted(s)
    ensures Accounted(TickStep(s, due, outcome))
  {
    AccountedCommit(s, outcome);
  }

  lemma AccountedReply(s: State, reply: Reply)
    requires Accounted(s)
    ensures Accounted(FetchReplyStep(s, reply))
  {
  }

  lemma AccountedWrite(s: State, ok: bool, err: FetchError)
    requires Accounted(s)
    ensures Accounted(FileWriteStep(s, ok, err))
  {
  }

  lemma AccountedDiscard(s: State, delete: bool)
    requires Accounted(s)
    ensures Accounted(Apply(s, if delete then Delete else Remove))
  {
  }

  lemma AccountedCommit(s: State, outcome: FlushOutcome)
    requires Accounted(s)
    ensures Accounted(Commit(s, outcome))
  {
  }

  lemma AccountedReceive(s: State, item: Item)
    requires Accounted(s)
    ensures Accounted(ReceiveStep(s, item))
  {
    assert multiset([item] + Items(s)) == multiset{item} + multiset(Items(s));
  }

  lemma AccountedStart(s: State, busy: bool)
    requires Accounted(s)
    ensures Accounted(StartStep(s, busy))
  {
  }

  lemma AccountedSendDone(s: State, acked: bool)
    requires Accounted(s)
    ensures Accounted(SendDoneStep(s, acked))
  {
    assert multiset(Items(s) + InFlight(s)) == multiset(Items(s)) + multiset(InFlight(s));
  }

  lemma AccountedFinish(s: State, outcome: FlushOutcome)
    requires Accounted(s)
    ensures Accounted(FetchFinishStep(s, outcome))
  {
    var stored := s.(entry := SetFlag(s.entry, NO_FLAG), task := Idle);
    if s.task.FetchOut? && s.task.err == NotExist {
      AccountedCommit(stored, outcome);
    }
  }

  /** A step that may lose items: discarding them, or a flush that does not end well. */
  predicate Lossy(step: Step)
  {
    || step.Remove? || step.Delete?
    || (step.Tick? && step.outcome != Written)
    || (step.FetchFinish? && step.outcome != Written)
    || (step.Force? && step.outcome != Written)
  }

  /** Without those, nothing is ever lost, however many sends and fetches fail. */
  lemma {:induction false} FailedSendsLoseNothing(file: bool, steps: seq<Step>)
    requires forall n :: 0 <= n < |steps| ==> !Lossy(steps[n])
    ensures Lossless(Run(Start(file), steps))
  {
    if steps != [] {
      FailedSendsLoseNothing(file, steps[..|steps|-1]);
      LosslessStep(Run(Start(file), steps[..|steps|-1]), steps[|steps|-1]);
    }
  }

  ghost predicate Lossless(s: State)
  {
    s.dropped == multiset{} && (s.entry.Absent? ==> s.received == multiset{} && s.task.Idle?)
  }

  lemma LosslessStep(s: State, step: Step)
    requires Lossless(s) && !Lossy(step)
    ensures Lossless(Apply(s, step))
  {
  }

  // ----- where the items go

  /** The steps that flush the cached items: a forced flush, a due pass over a key that is not
      missing, and the end of a pull that found no remote file. */
  predicate Flushes(s: State, step: Step)
  {
    || step.Force?
    || (step.Tick? && step.due && s.entry.Present? && !s.entry.flag.miss)
    || (step.FetchFinish? && s.task.FetchOut? && s.task.err == NotExist)
  }

  function FlushedBy(s: State, step: Step): multiset<Item>
  {
    if Flushes(s, step) && step.outcome == Written then multiset(Items(s)) else multiset{}
  }

  function DeliveredBy(s: State, step: Step): multiset<Item>
  {
    if step == SendDone(true) then multiset(InFlight(s)) else multiset{}
  }

  /** Items are lost by a flush that does not end well, by discarding them, and by a failed send whose
      key is gone. */
  function DroppedBy(s: State, step: Step): multiset<Item>
  {
    if step.Remove? || step.Delete? || (Flushes(s, step) && step.outcome != Written) then multiset(Items(s))
    else if step == SendDone(false) && s.entry.Absent? then multiset(InFlight(s))
    else multiset{}
  }

  ghost predicate Booked(s: State, step: Step, s': State)
  {
    && s'.flushed == s.flushed + FlushedBy(s, step)
    && s'.delivered == s.delivered + DeliveredBy(s, step)
    && s'.dropped == s.dropped + DroppedBy(s, step)
  }

  lemma LedgerStep(s: State, step: Step)
    ensures Booked(s, step, Apply(s, step))
  {
    match step
    case Receive(item) => BookedReceive(s, item);
    case Tick(due, outcome) => BookedTick(s, due, outcome);
    case TaskStart(busy) => BookedStart(s, busy);
    case SendDone(acked) => BookedSend(s, acked);
    case FetchReply(reply) => BookedReply(s, reply);
    case FileWrite(ok, err) => BookedWrite(s, ok, err);
    case FetchFinish(outcome) => BookedFinish(s, outcome);
    case Remove => BookedDiscard(s, Remove);
    case Delete => BookedDiscard(s, Delete);
    case Force(outcome) => BookedCommit(s, s, Force(outcome));
  }

  /** A step that is none of these books nothing. */
  lemma NothingBooked(s: State, step: Step, s': State)
    requires step.Receive? || step.TaskStart? || step.FetchReply? || step.FileWrite? ||
      ((step.Tick? || step.FetchFinish?) && !Flushes(s, step))
    requires s'.flushed == s.flushed && s'.delivered == s.delivered && s'.dropped == s.dropped
    ensures Booked(s, step, s')
  {
  }

  lemma BookedReceive(s: State, item: Item)
    ensures Booked(s, Receive(item), Apply(s, Receive(item)))
  {
    NothingBooked(s, Receive(item), ReceiveStep(s, item));
  }

  /** A flush books the items of the state it begins from, whatever its flag and task. */
  lemma BookedCommit(s: State, from: State, step: Step)
    requires Flushes(s, step) && Items(from) == Items(s)
    requires from.flushed == s.flushed && from.delivered == s.delivered && from.dropped == s.dropped
    ensures Booked(s, step, Commit(from, step.outcome))
  {
  }

  lemma BookedTick(s: State, due: bool, outcome: FlushOutcome)
    ensures Booked(s, Tick(due, outcome), Apply(s, Tick(due, outcome)))
  {
    if Flushes(s, Tick(due, outcome)) {
      BookedCommit(s, s, Tick(due, outcome));
    } else {
      NothingBooked(s, Tick(due, outcome), TickStep(s, due, outcome));
    }
  }

  lemma BookedStart(s: State, busy: bool)
    ensures Booked(s, TaskStart(busy), Apply(s, TaskStart(busy)))
  {
    NothingBooked(s, TaskStart(busy), StartStep(s, busy));
  }

  lemma BookedSend(s: State, acked: bool)
    ensures Booked(s, SendDone(acked), Apply(s, SendDone(acked)))
  {
  }

  lemma BookedReply(s: State, reply: Reply)
    ensures Booked(s, FetchReply(reply), Apply(s, FetchReply(reply)))
  {
    NothingBooked(s, FetchReply(reply), FetchReplyStep(s, reply));
  }

  lemma BookedWrite(s: State, ok: bool, err: FetchError)
    ensures Booked(s, FileWrite(ok, err), Apply(s, FileWrite(ok, err)))
  {
    NothingBooked(s, FileWrite(ok, err), FileWriteStep(s, ok, err));
  }

  lemma BookedFinish(s: State, outcome: FlushOutcome)
    ensures Booked(s, FetchFinish(outcome), Apply(s, FetchFinish(outcome)))
  {
    if Flushes(s, FetchFinish(outcome)) {
      BookedCommit(s, s.(entry := SetFlag(s.entry, NO_FLAG), task := Idle), FetchFinish(outcome));
    } else {
      NothingBooked(s, FetchFinish(outcome), FetchFinishStep(s, outcome));
    }
  }

  lemma BookedDiscard(s: State, step: Step)
    requires step.Remove? || step.Delete?
    ensures Booked(s, step, Apply(s, step))
  {
  }

  /** The sums of these over a run. */
  ghost function FlushedIn(s: State, steps: seq<Step>): multiset<Item>
  {
    if steps == [] then multiset{} else
      FlushedIn(s, steps[..|steps|-1]) + FlushedBy(Run(s, steps[..|steps|-1]), steps[|steps|-1])
  }

  ghost function DeliveredIn(s: State, steps: seq<Step>): multiset<Item>
  {
    if steps == [] then multiset{} else
      DeliveredIn(s, steps[..|steps|-1]) + DeliveredBy(Run(s, steps[..|steps|-1]), steps[|steps|-1])
  }

  ghost function DroppedIn(s: State, steps: seq<Step>): multiset<Item>
  {
    if steps == [] then multiset{} else
      DroppedIn(s, steps[..|steps|-1]) + DroppedBy(Run(s, steps[..|steps|-1]), steps[|steps|-1])
  }

  /** In every run what was flushed is what the well-ended flushes found cached, what was delivered is
      what was in flight at the acknowledged sends, and what was dropped is what the lossy steps lost. */
  lemma {:induction false} Ledger(file: bool, steps: seq<Step>)
    ensures var s := Run(Start(file), steps);
      && s.flushed == FlushedIn(Start(file), steps)
      && s.delivered == DeliveredIn(Start(file), steps)
      && s.dropped == DroppedIn(Start(file), steps)
  {
    if steps != [] {
      Ledger(file, steps[..|steps|-1]);
      LedgerStep(Run(Start(file), steps[..|steps|-1]), steps[|steps|-1]);
    }
  }

  /** Without an acknowledged send nothing counts as delivered. */
  lemma {:induction false} NothingDeliveredUnacknowledged(file: bool, steps: seq<Step>)
    requires forall n :: 0 <= n < |steps| ==> steps[n] != SendDone(true)
    ensures Run(Start(file), steps).delivered == multiset{}
  {
    if steps != [] {
      NothingDeliveredUnacknowledged(file, steps[..|steps|-1]);
      LedgerStep(Run(Start(file), steps[..|steps|-1]), steps[|steps|-1]);
    }
  }

  /** A failed send of a key that is still cached leaves memory as it was; an acknowledged one leaves
      what is cached. */
  lemma SendOutcomes(s: State)
    requires s.task.Sending?
    ensures s.entry.Present? ==> Pipeline(Apply(s, SendDone(false))) == Pipeline(s)
    ensures Pipeline(Apply(s, SendDone(true))) == Items(s)
    ensures forall acked :: Apply(s, SendDone(acked)).task.Idle?
  {
    assert Items(s) + [] == Items(s);
  }

  /** A pull whose remote file does not exist stores the cached items in a local file and ends the
      key's being missing; one that fails otherwise changes neither items, file nor flag. */
  lemma PullOutcomes(s: State, reply: Reply, outcome: FlushOutcome)
    requires s.task.Fetching? && s.entry.Present? && reply != Body
    ensures var s' := Apply(Apply(s, FetchReply(reply)), FetchFinish(outcome));
      && s'.task.Idle? && s'.entry.Present?
      && (reply == RemoteMissing ==> s'.entry.L == [] && !s'.entry.flag.miss)
      && (reply == RemoteMissing && outcome == Written && s.entry.L != [] ==> s'.file && s'.flushed == s.flushed + multiset(s.entry.L))
      && (reply == RemoteError ==> s'.entry.L == s.entry.L && s'.file == s.file && s'.entry.flag.miss == s.task.flag.miss)
  {
  }

  /** A pulled file that could not be written leaves the items and the key as missing as it was. */
  lemma FailedWriteKeepsMissing(s: State, err: FetchError, outcome: FlushOutcome)
    requires s.task.Got? && s.entry.Present? && !s.file && err != NotExist
    ensures var s' := Apply(Apply(s, FileWrite(false, err)), FetchFinish(outcome));
      s'.task.Idle? && s'.entry.Present? && s'.entry.L == s.entry.L && !s'.file && s'.entry.flag.miss == s.task.flag.miss
  {
  }

  /** A missing key with items queues a pull at every pass and is not flushed by it. */
  lemma MissingKeyIsPulled(s: State, due: bool, outcome: FlushOutcome)
    requires s.entry.Present? && s.entry.flag.miss
    ensures Apply(s, Tick(due, outcome)) == s.(queued := s.queued + if s.entry.L == [] then 0 else 1)
  {
  }

  /** Removing a key forgets it and keeps the file; deleting an item empties its list and removes the
      file. */
  lemma DiscardOutcomes(s: State)
    ensures Apply(s, Remove).entry.Absent? && Apply(s, Remove).file == s.file
    ensures Items(Apply(s, Delete)) == [] && !Apply(s, Delete).file
    ensures Apply(s, Delete).entry.Absent? <==> s.entry.Absent?
    ensures s.entry.Present? ==> Apply(s, Delete).entry.flag == s.entry.flag
  {
  }

  // ----- the flags of a worker

  predicate NotBusy(flag: Flag)
  {
    !flag.sending && !flag.fetching
  }

  /** The worker's copy of the flag is not busy, and with an idle worker the stored one is not. */
  ghost predicate FlagsOk(s: State)
  {
    && (s.task.Idle? && s.entry.Present? ==> NotBusy(s.entry.flag))
    && (!s.task.Idle? ==> NotBusy(s.task.flag))
    && (s.entry.Present? && s.entry.flag.sending ==> s.task.Sending?)
    && (s.entry.Present? && s.entry.flag.fetching ==> s.task.Fetching? || s.task.Got? || s.task.FetchOut?)
  }

  lemma FlagsOkStep(s: State, step: Step)
    requires FlagsOk(s)
    ensures FlagsOk(Apply(s, step))
  {
  }

  /** In every run a key is flagged as sending or fetching only while its worker does so. */
  lemma {:induction false} BusyFlagsMeanWork(file: bool, steps: seq<Step>)
    ensures FlagsOk(Run(Start(file), steps))
  {
    if steps != [] {
      BusyFlagsMeanWork(file, steps[..|steps|-1]);
      FlagsOkStep(Run(Start(file), steps[..|steps|-1]), steps[|steps|-1]);
    }
  }

  /** A worker that begins says so in the flag. */
  lemma WorkShowsInFlag(s: State)
    requires CanPull(s)
    ensures Apply(s, TaskStart(false)).task.Fetching? && Apply(s, TaskStart(false)).entry.flag.fetching
    ensures s.entry.L != [] ==> Apply(s, TaskStart(true)).task == Sending(s.entry.flag, s.entry.L)
                                && Apply(s, TaskStart(true)).entry.flag.sending
  {
  }

  // ----- order

  /** All items held in memory, newest first: cached, then in flight. */
  function Pipeline(s: State): seq<Item>
  {
    Items(s) + InFlight(s)
  }

  /** The ordering guard looks only at the cached list; an item accepted while older ones are in
      flight must also be newer than those. */
  ghost predicate InOrder(s: State, step: Step)
  {
    step.Receive? && ReceiveStep(s, step.item) != s && Pipeline(s) != [] ==> step.item.ts > Pipeline(s)[0].ts
  }

  lemma OrderStep(s: State, step: Step)
    requires Ordered(Pipeline(s))
    ensures Ordered(Pipeline(Apply(s, step))) <==> InOrder(s, step)
  {
    if step.Receive? {
      OrderReceive(s, step.item);
    } else {
      OrderedSplits(Items(s), InFlight(s));
      OtherStepsShrink(s, step);
    }
  }

  lemma OrderReceive(s: State, item: Item)
    requires Ordered(Pipeline(s))
    ensures Ordered(Pipeline(ReceiveStep(s, item))) <==> InOrder(s, Receive(item))
  {
    var s' := ReceiveStep(s, item);
    if s' != s {
      assert Pipeline(s') == [item] + Pipeline(s);
      ReceivedOrder(item, Pipeline(s));
    }
  }

  /** What `s'` holds in memory is what `s` holds, or a part of it. */
  ghost predicate Shrunk(s: State, s': State)
  {
    var p := Pipeline(s'); p == Pipeline(s) || p == Items(s) || p == InFlight(s) || p == []
  }

  lemma OtherStepsShrink(s: State, step: Step)
    requires !step.Receive?
    ensures Shrunk(s, Apply(s, step))
  {
    match step
    case SendDone(acked) => SendDoneShrinks(s, acked);
    case FetchFinish(outcome) => FinishShrinks(s, outcome);
    case TaskStart(busy) => StartShrinks(s, busy);
    case Tick(due, outcome) => TickShrinks(s, due, outcome);
    case Force(outcome) => CommitShrinks(s, outcome);
    case Remove => DiscardShrinks(s, Remove);
    case Delete => DiscardShrinks(s, Delete);
    case FetchReply(reply) => ReplyShrinks(s, reply);
    case FileWrite(ok, err) => WriteShrinks(s, ok, err);
  }

  lemma DiscardShrinks(s: State, step: Step)
    requires step.Remove? || step.Delete?
    ensures Shrunk(s, Apply(s, step))
  {
    assert Pipeline(Apply(s, step)) == InFlight(s);
  }

  lemma CommitShrinks(s: State, outcome: FlushOutcome)
    ensures Shrunk(s, Commit(s, outcome))
  {
    var s' := Commit(s, outcome);
    assert Pipeline(s') == Pipeline(s) || Pipeline(s') == InFlight(s);
  }

  lemma TickShrinks(s: State, due: bool, outcome: FlushOutcome)
    ensures Shrunk(s, TickStep(s, due, outcome))
  {
    CommitShrinks(s, outcome);
  }

  lemma ReplyShrinks(s: State, reply: Reply)
    ensures Shrunk(s, FetchReplyStep(s, reply))
  {
    assert Items(FetchReplyStep(s, reply)) == Items(s);
  }

  lemma WriteShrinks(s: State, ok: bool, err: FetchError)
    ensures Shrunk(s, FileWriteStep(s, ok, err))
  {
    assert Items(FileWriteStep(s, ok, err)) == Items(s);
  }

  lemma FinishShrinks(s: State, outcome: FlushOutcome)
    ensures Shrunk(s, FetchFinishStep(s, outcome))
  {
    var stored := s.(entry := SetFlag(s.entry, NO_FLAG), task := Idle);
    if s.task.FetchOut? && s.task.err == NotExist {
      CommitShrinks(stored, outcome);
      assert Pipeline(stored) == Pipeline(s);
    }
  }

  lemma StartShrinks(s: State, busy: bool)
    ensures Shrunk(s, StartStep(s, busy))
  {
    assert Pipeline(StartStep(s, busy)) == Pipeline(s);
  }

  lemma SendDoneShrinks(s: State, acked: bool)
    ensures Shrunk(s, SendDoneStep(s, acked))
  {
    var s' := SendDoneStep(s, acked);
    assert Pipeline(s') == Items(s') + InFlight(s');
  }

  lemma ReceivedOrder(item: Item, rest: seq<Item>)
    requires Ordered(rest)
    ensures Ordered([item] + rest) <==> (rest != [] ==> item.ts > rest[0].ts)
  {
    var all := [item] + rest;
    if Ordered(all) && rest != [] {
      assert all[0].ts > all[1].ts;
    }
  }

  /** What memory holds stays strictly ordered by time all along a run exactly when every accepted
      item is newer than everything cached or in flight. */
  lemma MemoryOrderedIff(file: bool, steps: seq<Step>)
    ensures (forall n :: 0 <= n <= |steps| ==> OrderedAt(Start(file), steps, n))
       <==> AllInOrder(Start(file), steps)
  {
    var s := Start(file);
    if forall n :: 0 <= n <= |steps| ==> OrderedAt(s, steps, n) {
      forall n | 0 <= n < |steps|
        ensures InOrderAt(s, steps, n)
      {
        assert OrderedAt(s, steps, n) && OrderedAt(s, steps, n + 1);
        OrderAt(s, steps, n);
      }
    }
    if AllInOrder(s, steps) {
      forall n | 0 <= n <= |steps|
        ensures OrderedAt(s, steps, n)
      {
        OrderedUpTo(s, steps, n, Run(s, steps[..n]));
      }
    }
  }

  /** After n steps of the run from `s`, what memory holds is ordered. */
  ghost predicate OrderedAt(s: State, steps: seq<Step>, n: nat)
    requires n <= |steps|
  {
    Ordered(Pipeline(Run(s, steps[..n])))
  }

  ghost predicate InOrderAt(s: State, steps: seq<Step>, n: nat)
    requires n < |steps|
  {
    InOrder(Run(s, steps[..n]), steps[n])
  }

  /** Every item the run accepts is newer than everything cached or in flight. */
  ghost predicate AllInOrder(s: State, steps: seq<Step>)
  {
    forall n :: 0 <= n < |steps| ==> InOrderAt(s, steps, n)
  }

  lemma RunNone(s: State, steps: seq<Step>)
    ensures Run(s, steps[..0]) == s
  {
  }

  lemma {:induction false} OrderedUpTo(s: State, steps: seq<Step>, n: nat, s': State)
    requires n <= |steps| && s' == Run(s, steps[..n])
    requires Ordered(Pipeline(s)) && AllInOrder(s, steps)
    ensures Ordered(Pipeline(s'))
  {
    if n == 0 {
      RunNone(s, steps);
    } else {
      OrderedUpTo(s, steps, n - 1, Run(s, steps[..n-1]));
      OrderNext(s, steps, n - 1, Run(s, steps[..n-1]), s');
    }
  }

  lemma OrderNext(s: State, steps: seq<Step>, n: nat, s0: State, s': State)
    requires n < |steps| && s0 == Run(s, steps[..n]) && s' == Run(s, steps[..n+1])
    requires Ordered(Pipeline(s0)) && AllInOrder(s, steps)
    ensures Ordered(Pipeline(s'))
  {
    assert InOrderAt(s, steps, n);
    RunPrefix(s, steps, n);
    OrderKept(s0, steps[n], s');
  }

  lemma OrderKept(s: State, step: Step, s': State)
    requires Ordered(Pipeline(s)) && InOrder(s, step) && s' == Apply(s, step)
    ensures Ordered(Pipeline(s'))
  {
    OrderStep(s, step);
  }

  lemma OrderAt(s: State, steps: seq<Step>, n: nat)
    requires n < |steps| && OrderedAt(s, steps, n)
    ensures OrderedAt(s, steps, n + 1) <==> InOrderAt(s, steps, n)
  {
    RunPrefix(s, steps, n);
    OrderStep(Run(s, steps[..n]), steps[n]);
  }

  /** An older item that arrives while a newer one is being sent passes the guard. */
  lemma ArrivalDuringSendUnordered()
    ensures !Ordered(Pipeline(Run(Start(false), [Receive(Item(120, 0.0)), Tick(true, Written), TaskStart(true), Receive(Item(60, 0.0))])))
  {
    var newer, older := Item(120, 0.0), Item(60, 0.0);
    var steps := [Receive(newer), Tick(true, Written), TaskStart(true)];
    RunThree(Start(false), steps[0], steps[1], steps[2]);
    RunSnoc(Start(false), steps, Receive(older));
    assert steps + [Receive(older)] == [Receive(newer), Tick(true, Written), TaskStart(true), Receive(older)];
    OlderArrives(newer, older);
  }

  lemma OlderArrives(newer: Item, older: Item)
    requires older.ts < newer.ts
    ensures var queued := Apply(Apply(Start(false), Receive(newer)), Tick(true, Written));
      !Ordered(Pipeline(Apply(Apply(queued, TaskStart(true)), Receive(older))))
  {
    var queued := Apply(Apply(Start(false), Receive(newer)), Tick(true, Written));
    assert queued.queued == 1 && queued.entry.L == [newer];
    var sending := Apply(queued, TaskStart(true));
    assert InFlight(sending) == [newer] && Items(sending) == [];
    var p := Pipeline(Apply(sending, Receive(older)));
    assert p == [older, newer] && p[0].ts < p[1].ts;
  }
}

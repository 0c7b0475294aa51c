/** The asynchronous audit dispatcher: a bounded channel, workers started once on first use,
    and callers that drop or block when the channel is full.

    A state machine whose steps interleave freely. Channel operations follow Go: a send goes to
    the buffer when it has room, a blocking send on a full buffer parks behind earlier ones, and a
    receive takes the oldest buffered job and moves the oldest parked sender's job into the buffer. */
module AuditDispatcher {
  import opened Wrappers

  datatype Config = Config(queueSize: nat, workerCount: nat, dropOnQueueFull: bool)

  /** Unset or non-positive sizes fall back to the defaults. */
  function ParseBounds(queueSize: Option<int>, workerCount: Option<int>, drop: Option<bool>): (c: Config)
    ensures c.queueSize >= 1 && c.workerCount >= 1
    ensures queueSize.Some? && queueSize.value >= 1 ==> c.queueSize == queueSize.value
    ensures workerCount.Some? && workerCount.value >= 1 ==> c.workerCount == workerCount.value
    ensures queueSize.None? || queueSize.value <= 0 ==> c.queueSize == 1000
    ensures workerCount.None? || workerCount.value <= 0 ==> c.workerCount == 2
    ensures drop != Some(false) <==> c.dropOnQueueFull
  {
    Config(if queueSize.Some? && queueSize.value > 0 then queueSize.value else 1000,
           if workerCount.Some? && workerCount.value > 0 then workerCount.value else 2,
           if drop.Some? then drop.value else true)
  }

  type Bounded = c: Config | c.queueSize >= 1 && c.workerCount >= 1 witness Config(1, 1, true)

  /** Jobs are numbered by the enqueue call that offers them. */
  type Job = nat

  /** Where an enqueue call is: entered, running the start-once body, about to try the send, about
      to send for certain, parked on the channel, or returned. */
  datatype Phase = Calling | Starting | Selecting | Insisting | Parked | Sent | Dropped

  datatype Once = Fresh | Running(starter: Job, spawned: nat) | Done

  datatype Delivery = Delivery(job: Job, delivered: bool)

  /** The last four fields are history. accepted lists jobs in the order the channel took them over. */
  datatype State = State(
    calls: seq<Phase>,
    once: Once,
    workers: seq<Option<Job>>,
    queue: seq<Job>,
    blocked: seq<Job>,
    accepted: seq<Job>,
    taken: seq<Job>,
    finished: seq<Delivery>,
    dropped: seq<Job>)

  datatype Step =
    | Call
    | Start(j: Job)
    | Spawn
    | StartDone
    | Select(j: Job)
    | Insist(j: Job)
    | Take(w: nat)
    | Finish(w: nat, delivered: bool)

  const INITIAL := State([], Fresh, [], [], [], [], [], [], [])

  predicate At(s: State, j: Job, phase: Phase) {
    j < |s.calls| && s.calls[j] == phase
  }

  predicate Enabled(c: Config, s: State, step: Step) {
    match step
    case Call => true
    case Start(j) => At(s, j, Calling) && !s.once.Running?
    case Spawn => s.once.Running? && s.once.spawned < c.workerCount
    case StartDone => s.once.Running? && s.once.spawned >= c.workerCount && At(s, s.once.starter, Starting)
    case Select(j) => At(s, j, Selecting)
    case Insist(j) => At(s, j, Insisting)
    case Take(w) => w < |s.workers| && s.workers[w].None? && s.queue != []
    case Finish(w, _) => w < |s.workers| && s.workers[w].Some?
  }

  function Mark(calls: seq<Phase>, j: Job, phase: Phase): seq<Phase> {
    if j < |calls| then calls[j := phase] else calls
  }

  function Buffer(s: State, j: Job): State
    requires j < |s.calls|
  {
    s.(calls := s.calls[j := Sent], queue := s.queue + [j], accepted := s.accepted + [j])
  }

  function Apply(c: Config, s: State, step: Step): State
    requires Enabled(c, s, step)
  {
    match step
    case Call => s.(calls := s.calls + [Calling])
    case Start(j) =>
      if s.once.Done? then s.(calls := s.calls[j := Selecting])
      else s.(calls := s.calls[j := Starting], once := Running(j, 0))
    case Spawn => s.(workers := s.workers + [None], once := s.once.(spawned := s.once.spawned + 1))
    case StartDone => s.(calls := s.calls[s.once.starter := Selecting], once := Done)
    case Select(j) =>
      if |s.queue| < c.queueSize then Buffer(s, j)
      else if c.dropOnQueueFull then s.(calls := s.calls[j := Dropped], dropped := s.dropped + [j])
      else s.(calls := s.calls[j := Insisting])
    case Insist(j) =>
      if |s.queue| < c.queueSize then Buffer(s, j)
      else s.(calls := s.calls[j := Parked], blocked := s.blocked + [j], accepted := s.accepted + [j])
    case Take(w) =>
      var s' := s.(workers := s.workers[w := Some(s.queue[0])], taken := s.taken + [s.queue[0]]);
      if s.blocked == [] then s'.(queue := s.queue[1..])
      else s'.(queue := s.queue[1..] + [s.blocked[0]], blocked := s.blocked[1..],
               calls := Mark(s.calls, s.blocked[0], Sent))
    case Finish(w, delivered) =>
      s.(workers := s.workers[w := None], finished := s.finished + [Delivery(s.workers[w].value, delivered)])
  }

  predicate CanRun(c: Config, s: State, steps: seq<Step>)
    decreases |steps|
  {
    steps == [] || (Enabled(c, s, steps[0]) && CanRun(c, Apply(c, s, steps[0]), steps[1..]))
  }

  function Run(c: Config, s: State, steps: seq<Step>): State
    requires CanRun(c, s, steps)
    decreases |steps|
  {
    if steps == [] then s else Run(c, Apply(c, s, steps[0]), steps[1..])
  }

  // ---- How a run's steps show in its state ----

  /** How many enqueue calls a run makes. */
  function CallsMade(steps: seq<Step>): nat {
    if steps == [] then 0 else (if steps[0] == Call then 1 else 0) + CallsMade(steps[1..])
  }

  /** Whether each send of a run succeeded, in order. */
  function Sends(steps: seq<Step>): seq<bool> {
    if steps == [] then []
    else (if steps[0].Finish? then [steps[0].delivered] else []) + Sends(steps[1..])
  }

  function Outcomes(deliveries: seq<Delivery>): (sent: seq<bool>)
    ensures |sent| == |deliveries|
    ensures forall i :: 0 <= i < |sent| ==> sent[i] == deliveries[i].delivered
  {
    seq(|deliveries|, i requires 0 <= i < |deliveries| => deliveries[i].delivered)
  }

  /** Every call made is in the state: calls are numbered from 0 in the order they are made. */
  lemma {:induction false} CallsCounted(c: Config, s: State, steps: seq<Step>)
    requires CanRun(c, s, steps)
    ensures |Run(c, s, steps).calls| == |s.calls| + CallsMade(steps)
    decreases |steps|
  {
    if steps != [] {
      CallsCounted(c, Apply(c, s, steps[0]), steps[1..]);
    }
  }

  /** Every send that ends is recorded with its own outcome. */
  lemma {:induction false} SendsRecorded(c: Config, s: State, steps: seq<Step>)
    requires CanRun(c, s, steps)
    ensures Outcomes(Run(c, s, steps).finished) == Outcomes(s.finished) + Sends(steps)
    decreases |steps|
  {
    if steps != [] {
      var next := Apply(c, s, steps[0]);
      SendsRecorded(c, next, steps[1..]);
      assert Outcomes(next.finished) == Outcomes(s.finished) + if steps[0].Finish? then [steps[0].delivered] else [];
    }
  }

  /** What has been accepted, taken, finished and dropped is never undone or reordered: later jobs
      come after it. */
  lemma {:induction false} HistoryGrows(c: Config, s: State, steps: seq<Step>)
    requires CanRun(c, s, steps)
    ensures var end := Run(c, s, steps);
      s.accepted <= end.accepted && s.taken <= end.taken && s.finished <= end.finished && s.dropped <= end.dropped
    decreases |steps|
  {
    if steps != [] {
      HistoryGrows(c, Apply(c, s, steps[0]), steps[1..]);
    }
  }

  // ---- What every reachable state satisfies ----

  function Jobs(deliveries: seq<Delivery>): (jobs: seq<Job>)
    ensures |jobs| == |deliveries|
    ensures forall i :: 0 <= i < |jobs| ==> jobs[i] == deliveries[i].job
  {
    seq(|deliveries|, i requires 0 <= i < |deliveries| => deliveries[i].job)
  }

  function InHand(workers: seq<Option<Job>>): multiset<Job> {
    if workers == [] then multiset{}
    else InHand(workers[..|workers| - 1]) + Hand(workers[|workers| - 1])
  }

  function Hand(w: Option<Job>): multiset<Job> {
    match w
    case Some(j) => multiset{j}
    case None => multiset{}
  }

  /** The jobs whose call has handed its job to the channel or dropped it. */
  function Settled(calls: seq<Phase>): set<Job> {
    set j | 0 <= j < |calls| && calls[j] in {Parked, Sent, Dropped}
  }

  /** The jobs whose call is still on its way to the channel. */
  function Unsettled(calls: seq<Phase>): set<Job> {
    set j | 0 <= j < |calls| && calls[j] in {Calling, Starting, Selecting, Insisting}
  }

  /** The first n jobs. */
  function FirstJobs(n: nat): (jobs: set<Job>)
    ensures forall j: Job :: j in jobs <==> j < n
  {
    if n == 0 then {} else FirstJobs(n - 1) + {n - 1}
  }

  lemma PhaseSettled(phase: Phase)
    ensures phase in {Calling, Starting, Selecting, Insisting} <==> phase !in {Parked, Sent, Dropped}
  {
    match phase
    case Calling =>
    case Starting =>
    case Selecting =>
    case Insisting =>
    case Parked =>
    case Sent =>
    case Dropped =>
  }

  lemma EverySettles(calls: seq<Phase>)
    ensures multiset(FirstJobs(|calls|)) == multiset(Unsettled(calls)) + multiset(Settled(calls))
  {
    forall j: Job ensures j in FirstJobs(|calls|) <==> j in Unsettled(calls) + Settled(calls) {
      if j < |calls| {
        PhaseSettled(calls[j]);
      }
    }
    assert FirstJobs(|calls|) == Unsettled(calls) + Settled(calls) && Unsettled(calls) !! Settled(calls);
  }

  /** The channel hands jobs over in the order it accepted them. */
  predicate Ordered(s: State) {
    s.accepted == s.taken + s.queue + s.blocked
  }

  /** Every job taken is finished or in one worker's hands, as often as it was taken. */
  predicate Held(s: State) {
    multiset(s.taken) == multiset(Jobs(s.finished)) + InHand(s.workers)
  }

  /** Every settled job was accepted or dropped, exactly once, and its call's phase says which. */
  ghost predicate Placed(s: State) {
    && multiset(s.accepted) + multiset(s.dropped) == multiset(Settled(s.calls))
    && (forall j: Job :: j in s.blocked <==> At(s, j, Parked))
    && (forall j: Job :: j in s.dropped <==> At(s, j, Dropped))
  }

  predicate Disciplined(c: Config, s: State) {
    && |s.queue| <= c.queueSize
    && (s.blocked != [] ==> |s.queue| == c.queueSize)
    && (c.dropOnQueueFull ==> s.blocked == [] && forall j :: 0 <= j < |s.calls| ==> s.calls[j] != Insisting)
    && (!c.dropOnQueueFull ==> s.dropped == [])
  }

  /** Workers appear only while the first call runs the start-once body, and all of them do. */
  predicate StartedOnce(c: Config, s: State) {
    && (forall j :: 0 <= j < |s.calls| ==>
         (s.calls[j] == Starting <==> s.once.Running? && s.once.starter == j))
    && (s.once.Running? ==> At(s, s.once.starter, Starting))
    && (s.once.Done? ==> s.calls != [])
    && (!s.once.Done? ==> forall j :: 0 <= j < |s.calls| ==> s.calls[j] in {Calling, Starting})
    && match s.once
       case Fresh => s.workers == []
       case Running(_, k) => |s.workers| == k <= c.workerCount
       case Done => |s.workers| == c.workerCount
  }

  /** With one worker, jobs are sent in the order the channel accepted them. */
  predicate Fifo(c: Config, s: State) {
    c.workerCount == 1 ==>
      |s.workers| <= 1 &&
      s.taken == Jobs(s.finished) +
        if s.workers != [] && s.workers[0].Some? then [s.workers[0].value] else []
  }

  ghost predicate Inv(c: Config, s: State) {
    Ordered(s) && Held(s) && Placed(s) && Disciplined(c, s) && StartedOnce(c, s) && Fifo(c, s)
  }

  lemma AddBoth(a: multiset<Job>, x: multiset<Job>, b: multiset<Job>, y: multiset<Job>, more: multiset<Job>)
    requires a + x == b + y
    ensures a + more + x == b + more + y
  {
    forall j ensures (a + more + x)[j] == (b + more + y)[j] {
      assert (a + x)[j] == (b + y)[j];
    }
  }

  lemma {:induction false} InHandUpdate(workers: seq<Option<Job>>, w: nat, to: Option<Job>)
    requires w < |workers|
    ensures InHand(workers[w := to]) + Hand(workers[w]) == InHand(workers) + Hand(to)
  {
    var n := |workers| - 1;
    var after := workers[w := to];
    if w < n {
      InHandUpdate(workers[..n], w, to);
      assert after[..n] == workers[..n][w := to];
      var a, b, last := InHand(after[..n]), InHand(workers[..n]), Hand(workers[n]);
      AddBoth(a, Hand(workers[w]), b, Hand(to), last);
    } else {
      assert after[..n] == workers[..n];
    }
  }

  lemma OrderedStep(c: Config, s: State, step: Step)
    requires Ordered(s) && Disciplined(c, s) && Enabled(c, s, step)
    ensures Ordered(Apply(c, s, step))
  {
  }

  lemma HeldTake(c: Config, s: State, step: Step)
    requires Held(s) && Enabled(c, s, step) && step.Take?
    ensures Held(Apply(c, s, step))
  {
    var s' := Apply(c, s, step);
    InHandUpdate(s.workers, step.w, Some(s.queue[0]));
    assert InHand(s'.workers) == InHand(s.workers) + multiset{s.queue[0]};
  }

  lemma PutDown(done: multiset<Job>, j: Job, left: multiset<Job>, held: multiset<Job>)
    requires left + multiset{j} == held
    ensures done + multiset{j} + left == done + held
  {
  }

  lemma JobsSnoc(finished: seq<Delivery>, d: Delivery)
    ensures multiset(Jobs(finished + [d])) == multiset(Jobs(finished)) + multiset{d.job}
  {
    assert Jobs(finished + [d]) == Jobs(finished) + [d.job];
  }

  lemma HeldFinish(c: Config, s: State, step: Step)
    requires Held(s) && Enabled(c, s, step) && step.Finish?
    ensures Held(Apply(c, s, step))
  {
    var left, j := InHand(s.workers[step.w := None]), s.workers[step.w].value;
    InHandUpdate(s.workers, step.w, None);
    JobsSnoc(s.finished, Delivery(j, step.delivered));
    PutDown(multiset(Jobs(s.finished)), j, left, InHand(s.workers));
  }

  lemma HeldStep(c: Config, s: State, step: Step)
    requires Held(s) && Enabled(c, s, step)
    ensures Held(Apply(c, s, step))
  {
    var s' := Apply(c, s, step);
    if step.Take? {
      HeldTake(c, s, step);
    } else if step.Finish? {
      HeldFinish(c, s, step);
    } else {
      assert s'.taken == s.taken && s'.finished == s.finished;
      assert InHand(s'.workers) == InHand(s.workers) by {
        if step.Spawn? { assert s'.workers[..|s.workers|] == s.workers; }
      }
    }
  }

  lemma Settles(calls: seq<Phase>, j: Job, phase: Phase)
    requires j < |calls| && j !in Settled(calls) && phase in {Parked, Sent, Dropped}
    ensures multiset(Settled(calls[j := phase])) == multiset(Settled(calls)) + multiset{j}
  {
  }

  lemma StaysPut(calls: seq<Phase>, j: Job, phase: Phase)
    requires j < |calls| && (j in Settled(calls) <==> phase in {Parked, Sent, Dropped})
    ensures Settled(calls[j := phase]) == Settled(calls)
  {
  }

  lemma PlacedSend(c: Config, s: State, step: Step)
    requires Placed(s) && Enabled(c, s, step) && (step.Select? || step.Insist?)
    ensures Placed(Apply(c, s, step))
  {
    var j, s' := step.j, Apply(c, s, step);
    if s'.calls[j] == Insisting {
      StaysPut(s.calls, j, Insisting);
    } else {
      Settles(s.calls, j, s'.calls[j]);
    }
  }

  lemma NoneParked(s: State, j: Job)
    requires Placed(s) && Ordered(s) && j in s.blocked
    ensures multiset(s.blocked)[j] == 1
  {
    assert multiset(s.accepted)[j] == multiset(s.taken + s.queue)[j] + multiset(s.blocked)[j];
    assert multiset(Settled(s.calls))[j] == 1;
  }

  lemma PlacedTake(c: Config, s: State, step: Step)
    requires Placed(s) && Ordered(s) && Enabled(c, s, step) && step.Take?
    ensures Placed(Apply(c, s, step))
  {
    var s' := Apply(c, s, step);
    if s.blocked != [] {
      var j := s.blocked[0];
      NoneParked(s, j);
      StaysPut(s.calls, j, Sent);
      assert s.blocked == [j] + s.blocked[1..];
      assert j !in s.blocked[1..] by {
        assert multiset(s.blocked) == multiset{j} + multiset(s.blocked[1..]);
      }
      assert forall x :: x in s.blocked <==> x == j || x in s.blocked[1..];
    }
  }

  lemma PlacedStep(c: Config, s: State, step: Step)
    requires Placed(s) && Ordered(s) && StartedOnce(c, s) && Enabled(c, s, step)
    ensures Placed(Apply(c, s, step))
  {
    match step
    case Call => assert Settled(s.calls + [Calling]) == Settled(s.calls);
    case Start(j) => StaysPut(s.calls, j, Apply(c, s, step).calls[j]);
    case StartDone => StaysPut(s.calls, s.once.starter, Selecting);
    case Select(j) => PlacedSend(c, s, step);
    case Insist(j) => PlacedSend(c, s, step);
    case Take(w) => PlacedTake(c, s, step);
    case _ =>
  }

  lemma DisciplinedStep(c: Config, s: State, step: Step)
    requires Disciplined(c, s) && Enabled(c, s, step)
    ensures Disciplined(c, Apply(c, s, step))
  {
  }

  lemma StartedOnceStep(c: Config, s: State, step: Step)
    requires StartedOnce(c, s) && Placed(s) && Enabled(c, s, step)
    ensures StartedOnce(c, Apply(c, s, step))
  {
    if step.Take? && s.blocked != [] {
      assert s.blocked[0] in s.blocked;
      assert At(s, s.blocked[0], Parked);
    }
  }

  lemma FifoStep(c: Config, s: State, step: Step)
    requires Fifo(c, s) && StartedOnce(c, s) && Enabled(c, s, step)
    ensures Fifo(c, Apply(c, s, step))
  {
  }

  lemma StepKeepsInv(c: Config, s: State, step: Step)
    requires Inv(c, s) && Enabled(c, s, step)
    ensures Inv(c, Apply(c, s, step))
  {
    OrderedStep(c, s, step);
    HeldStep(c, s, step);
    PlacedStep(c, s, step);
    DisciplinedStep(c, s, step);
    StartedOnceStep(c, s, step);
    FifoStep(c, s, step);
  }

  lemma {:induction false} RunKeepsInv(c: Config, s: State, steps: seq<Step>)
    requires Inv(c, s) && CanRun(c, s, steps)
    ensures Inv(c, Run(c, s, steps))
    decreases |steps|
  {
    if steps != [] {
      StepKeepsInv(c, s, steps[0]);
      RunKeepsInv(c, Apply(c, s, steps[0]), steps[1..]);
    }
  }

  /** Safety: every interleaving of callers and workers keeps the invariant. */
  lemma Safety(c: Config, steps: seq<Step>)
    requires CanRun(c, INITIAL, steps)
    ensures Inv(c, Run(c, INITIAL, steps))
  {
    RunKeepsInv(c, INITIAL, steps);
  }

  predicate Returned(phase: Phase) {
    phase in {Sent, Dropped}
  }

  /** Conservation over every run: of the jobs offered so far each is, exactly once, on its caller's
      way to the channel, finished, in a worker's hands, queued, parked or dropped; jobs leave in the
      order they were accepted, and none is handed out twice. */
  lemma Conservation(c: Config, steps: seq<Step>)
    requires CanRun(c, INITIAL, steps)
    ensures var s := Run(c, INITIAL, steps);
      && multiset(FirstJobs(CallsMade(steps))) ==
           multiset(Unsettled(s.calls)) + multiset(Jobs(s.finished)) + InHand(s.workers)
           + multiset(s.queue) + multiset(s.blocked) + multiset(s.dropped)
      && s.taken + s.queue + s.blocked == s.accepted
      && (forall j :: multiset(s.taken)[j] <= 1)
  {
    Safety(c, steps);
    CallsCounted(c, INITIAL, steps);
    var s := Run(c, INITIAL, steps);
    EverySettles(s.calls);
    assert multiset(s.accepted) == multiset(s.taken) + multiset(s.queue) + multiset(s.blocked);
    forall j ensures multiset(s.taken)[j] <= 1 {
      assert (multiset(s.accepted) + multiset(s.dropped))[j] == multiset(Settled(s.calls))[j];
    }
  }

  /** With a single worker the jobs sent so far are the first accepted ones, in that order. */
  lemma SingleWorkerFifo(c: Config, steps: seq<Step>)
    requires CanRun(c, INITIAL, steps) && c.workerCount == 1
    ensures var s := Run(c, INITIAL, steps); Jobs(s.finished) <= s.accepted
  {
    Safety(c, steps);
    var s := Run(c, INITIAL, steps);
    assert Jobs(s.finished) <= s.taken <= s.accepted;
  }

  /** Drop mode never holds a caller up; otherwise nothing is ever dropped. Callers wait on the
      channel only while it is full, and no worker runs before the first call or beyond the count. */
  lemma Discipline(c: Config, steps: seq<Step>)
    requires CanRun(c, INITIAL, steps)
    ensures var s := Run(c, INITIAL, steps);
      && |s.queue| <= c.queueSize
      && (c.dropOnQueueFull ==> forall j :: 0 <= j < |s.calls| ==> s.calls[j] !in {Insisting, Parked})
      && (!c.dropOnQueueFull ==> forall j :: 0 <= j < |s.calls| ==> s.calls[j] != Dropped)
      && ((exists j :: 0 <= j < |s.calls| && s.calls[j] == Parked) ==> |s.queue| == c.queueSize)
      && (s.calls == [] ==> s.workers == [])
      && |s.workers| <= c.workerCount
      && ((exists j :: 0 <= j < |s.calls| && s.calls[j] !in {Calling, Starting}) ==> |s.workers| == c.workerCount)
  {
    Safety(c, steps);
    var s := Run(c, INITIAL, steps);
    forall j | 0 <= j < |s.calls|
      ensures s.calls[j] == Parked ==> j in s.blocked
      ensures s.calls[j] == Dropped ==> j in s.dropped
    {
      assert At(s, j, s.calls[j]);
    }
  }

  lemma {:induction false} RunSplits(c: Config, s: State, a: seq<Step>, b: seq<Step>)
    requires CanRun(c, s, a + b)
    ensures CanRun(c, s, a) && CanRun(c, Run(c, s, a), b) && Run(c, s, a + b) == Run(c, Run(c, s, a), b)
    decreases |a|
  {
    if a == [] {
      assert a + b == b;
    } else {
      assert (a + b)[1..] == a[1..] + b;
      RunSplits(c, Apply(c, s, a[0]), a[1..], b);
    }
  }

  /** Step k of a run is job j's attempt to send, and it finds exactly a full buffer. */
  predicate FindsFull(c: Config, steps: seq<Step>, k: nat, j: Job)
    requires k < |steps|
  {
    steps[k] == Select(j) && CanRun(c, INITIAL, steps[..k]) && |Run(c, INITIAL, steps[..k]).queue| == c.queueSize
  }

  lemma LastStep(c: Config, steps: seq<Step>)
    requires steps != [] && CanRun(c, INITIAL, steps)
    ensures var front, last := steps[..|steps| - 1], steps[|steps| - 1];
      CanRun(c, INITIAL, front) && Enabled(c, Run(c, INITIAL, front), last)
      && Run(c, INITIAL, steps) == Apply(c, Run(c, INITIAL, front), last)
  {
    var front, last := steps[..|steps| - 1], steps[|steps| - 1];
    assert steps == front + [last];
    RunSplits(c, INITIAL, front, [last]);
    assert [last][1..] == [];
  }

  /** Over every run, a job has been dropped exactly when, in drop mode, its call tried to send at a
      moment when the buffer held exactly its capacity. */
  lemma {:induction false} DropsOnlyWhenFull(c: Config, steps: seq<Step>, j: Job)
    requires CanRun(c, INITIAL, steps)
    ensures j in Run(c, INITIAL, steps).dropped <==>
      c.dropOnQueueFull && exists k :: 0 <= k < |steps| && FindsFull(c, steps, k, j)
    decreases |steps|
  {
    if steps != [] {
      var front, last := steps[..|steps| - 1], steps[|steps| - 1];
      LastStep(c, steps);
      DropsOnlyWhenFull(c, front, j);
      Safety(c, front);
      FullEarlier(c, steps, j);
      LastDrop(c, Run(c, INITIAL, front), last, j);
    }
  }

  lemma FullEarlier(c: Config, steps: seq<Step>, j: Job)
    requires steps != []
    ensures var front := steps[..|steps| - 1];
      (exists k :: 0 <= k < |steps| && FindsFull(c, steps, k, j)) <==>
        (exists k :: 0 <= k < |front| && FindsFull(c, front, k, j)) || FindsFull(c, steps, |front|, j)
  {
    var front := steps[..|steps| - 1];
    forall k | 0 <= k < |front| ensures FindsFull(c, steps, k, j) <==> FindsFull(c, front, k, j) {
      assert steps[..k] == front[..k] && steps[k] == front[k];
    }
  }

  lemma LastDrop(c: Config, s: State, step: Step, j: Job)
    requires Disciplined(c, s) && Enabled(c, s, step)
    ensures j in Apply(c, s, step).dropped <==>
      j in s.dropped || (c.dropOnQueueFull && step == Select(j) && |s.queue| == c.queueSize)
  {
  }

  // ---- Progress ----

  predicate IsWorkerStep(step: Step) {
    step.Take? || step.Finish?
  }

  function Pending(s: State): nat {
    2 * (|s.queue| + |s.blocked|) + |InHand(s.workers)|
  }

  lemma {:induction false} Empty(workers: seq<Option<Job>>)
    requires forall w :: 0 <= w < |workers| ==> workers[w].None?
    ensures InHand(workers) == multiset{}
  {
    if workers != [] { Empty(workers[..|workers| - 1]); }
  }

  /** Every worker step uses up exactly one unit of pending work, whether or not the send succeeds. */
  lemma WorkerStepDecreases(c: Config, s: State, step: Step)
    requires Enabled(c, s, step) && IsWorkerStep(step)
    ensures Pending(Apply(c, s, step)) == Pending(s) - 1
  {
    InHandUpdate(s.workers, step.w, Apply(c, s, step).workers[step.w]);
    var before, after := InHand(s.workers), InHand(Apply(c, s, step).workers);
    if step.Take? {
      assert |after + multiset{}| == |before + multiset{s.queue[0]}|;
    } else {
      assert |after + multiset{s.workers[step.w].value}| == |before + multiset{}|;
    }
  }

  /** While any job is queued, parked or being sent, some worker can move. */
  lemma WorkerCanMove(c: Bounded, s: State)
    requires Inv(c, s) && Pending(s) > 0
    ensures exists step :: IsWorkerStep(step) && Enabled(c, s, step)
  {
    if w :| 0 <= w < |s.workers| && s.workers[w].Some? {
      assert Enabled(c, s, Finish(w, true));
    } else {
      Empty(s.workers);
      assert s.queue != [];
      assert s.accepted[|s.taken|] == s.queue[0];
      assert s.queue[0] in multiset(s.accepted) + multiset(s.dropped);
      assert s.queue[0] in Settled(s.calls);
      assert s.once.Done?;
      assert Enabled(c, s, Take(0));
    }
  }

  function PhaseWeight(phase: Phase): nat {
    match phase
    case Calling => 6
    case Starting => 5
    case Selecting => 4
    case Insisting => 3
    case _ => 0
  }

  function CallWeight(calls: seq<Phase>): nat {
    if calls == [] then 0 else CallWeight(calls[..|calls| - 1]) + PhaseWeight(calls[|calls| - 1])
  }

  lemma {:induction false} CallWeightUpdate(calls: seq<Phase>, j: Job, phase: Phase)
    requires j < |calls|
    ensures CallWeight(calls[j := phase]) + PhaseWeight(calls[j]) == CallWeight(calls) + PhaseWeight(phase)
  {
    var n, after := |calls| - 1, calls[j := phase];
    if j < n {
      CallWeightUpdate(calls[..n], j, phase);
      assert after[..n] == calls[..n][j := phase];
    } else {
      assert after[..n] == calls[..n];
    }
  }

  function Remaining(c: Config, s: State): nat
    requires StartedOnce(c, s)
  {
    CallWeight(s.calls) + Pending(s) +
    match s.once
    case Fresh => c.workerCount + 1
    case Running(_, k) => c.workerCount - k
    case Done => 0
  }

  lemma StartDecreases(c: Config, s: State, step: Step)
    requires Enabled(c, s, step) && step.Start?
    requires StartedOnce(c, s) && StartedOnce(c, Apply(c, s, step))
    ensures Remaining(c, Apply(c, s, step)) < Remaining(c, s)
  {
    CallWeightUpdate(s.calls, step.j, Apply(c, s, step).calls[step.j]);
  }

  lemma OnceDecreases(c: Config, s: State, step: Step)
    requires Enabled(c, s, step) && (step.Spawn? || step.StartDone?)
    requires StartedOnce(c, s) && StartedOnce(c, Apply(c, s, step))
    ensures Remaining(c, Apply(c, s, step)) < Remaining(c, s)
  {
    if step.Spawn? {
      assert Apply(c, s, step).workers[..|s.workers|] == s.workers;
    } else {
      CallWeightUpdate(s.calls, s.once.starter, Selecting);
    }
  }

  lemma SendDecreases(c: Config, s: State, step: Step)
    requires Enabled(c, s, step) && (step.Select? || step.Insist?)
    ensures var s' := Apply(c, s, step);
      s'.once == s.once && CallWeight(s'.calls) + Pending(s') < CallWeight(s.calls) + Pending(s)
  {
    var s' := Apply(c, s, step);
    CallWeightUpdate(s.calls, step.j, s'.calls[step.j]);
    assert s'.workers == s.workers;
    assert |s'.queue| + |s'.blocked| <= |s.queue| + |s.blocked| + 1;
  }

  /** Every step but a new call brings the system closer to rest. */
  lemma StepDecreases(c: Config, s: State, step: Step)
    requires Inv(c, s) && Enabled(c, s, step) && step != Call
    ensures StartedOnce(c, Apply(c, s, step)) && Remaining(c, Apply(c, s, step)) < Remaining(c, s)
  {
    StartedOnceStep(c, s, step);
    if IsWorkerStep(step) {
      WorkerStepDecreases(c, s, step);
      if step.Take? && s.blocked != [] {
        assert s.blocked[0] in s.blocked;
        assert At(s, s.blocked[0], Parked);
        CallWeightUpdate(s.calls, s.blocked[0], Sent);
      }
    } else if step.Start? {
      StartDecreases(c, s, step);
    } else if step.Spawn? || step.StartDone? {
      OnceDecreases(c, s, step);
    } else {
      SendDecreases(c, s, step);
    }
  }

  /** Everything offered has been sent or dropped and every enqueue call has returned. */
  predicate AtRest(s: State) {
    s.queue == [] && s.blocked == [] && (forall w :: 0 <= w < |s.workers| ==> s.workers[w].None?)
    && forall j :: 0 <= j < |s.calls| ==> Returned(s.calls[j])
  }

  /** No deadlock: short of rest, some caller or worker can move. */
  lemma SomeoneCanMove(c: Bounded, s: State)
    requires Inv(c, s) && !AtRest(s)
    ensures exists step :: step != Call && Enabled(c, s, step)
  {
    if Pending(s) > 0 {
      WorkerCanMove(c, s);
    } else if w :| 0 <= w < |s.workers| && s.workers[w].Some? {
      assert Enabled(c, s, Finish(w, true));
    } else {
      var j: Job :| j < |s.calls| && !Returned(s.calls[j]);
      assert At(s, j, s.calls[j]);
      match s.calls[j]
      case Calling =>
        if s.once.Running? {
          assert Enabled(c, s, Spawn) || Enabled(c, s, StartDone);
        } else {
          assert Enabled(c, s, Start(j));
        }
      case Starting => assert Enabled(c, s, Spawn) || Enabled(c, s, StartDone);
      case Selecting => assert Enabled(c, s, Select(j));
      case Insisting => assert Enabled(c, s, Insist(j));
      case _ =>
    }
  }

  predicate NoNewCalls(steps: seq<Step>) {
    forall i :: 0 <= i < |steps| ==> steps[i] != Call
  }

  lemma {:induction false} RunDecreases(c: Config, s: State, steps: seq<Step>)
    requires Inv(c, s) && CanRun(c, s, steps) && NoNewCalls(steps)
    ensures Inv(c, Run(c, s, steps))
    ensures |steps| + Remaining(c, Run(c, s, steps)) <= Remaining(c, s)
    decreases |steps|
  {
    if steps != [] {
      StepKeepsInv(c, s, steps[0]);
      StepDecreases(c, s, steps[0]);
      RunDecreases(c, Apply(c, s, steps[0]), steps[1..]);
    }
  }

  lemma RestAccounts(c: Config, s: State)
    requires Inv(c, s) && AtRest(s)
    ensures multiset(Jobs(s.finished)) + multiset(s.dropped) == multiset(FirstJobs(|s.calls|))
  {
    Empty(s.workers);
    assert s.accepted == s.taken;
    EverySettles(s.calls);
    assert Unsettled(s.calls) == {};
  }

  /** Liveness: after any history, without new calls, every schedule stops within a fixed number of
      steps, and where it stops each job offered has been sent or dropped exactly once (dropped
      only in drop mode) and every enqueue call has returned, whether or not sends fail. */
  lemma Drains(c: Bounded, history: seq<Step>, steps: seq<Step>)
    requires CanRun(c, INITIAL, history) && CanRun(c, Run(c, INITIAL, history), steps) && NoNewCalls(steps)
    ensures StartedOnce(c, Run(c, INITIAL, history)) && |steps| <= Remaining(c, Run(c, INITIAL, history))
    ensures var end := Run(c, Run(c, INITIAL, history), steps);
      (forall step :: step != Call ==> !Enabled(c, end, step)) ==>
        && AtRest(end)
        && multiset(Jobs(end.finished)) + multiset(end.dropped) == multiset(FirstJobs(CallsMade(history)))
        && (forall j :: 0 <= j < |end.calls| ==> Returned(end.calls[j]))
        && (!c.dropOnQueueFull ==> end.dropped == [])
  {
    Safety(c, history);
    RunDecreases(c, Run(c, INITIAL, history), steps);
    StillMade(c, history, steps);
    var end := Run(c, Run(c, INITIAL, history), steps);
    if AtRest(end) {
      RestAccounts(c, end);
    } else {
      SomeoneCanMove(c, end);
    }
  }

  lemma StillMade(c: Config, history: seq<Step>, steps: seq<Step>)
    requires CanRun(c, INITIAL, history) && CanRun(c, Run(c, INITIAL, history), steps) && NoNewCalls(steps)
    ensures |Run(c, Run(c, INITIAL, history), steps).calls| == CallsMade(history)
  {
    CallsCounted(c, INITIAL, history);
    CallsCounted(c, Run(c, INITIAL, history), steps);
    NoneMade(steps);
  }

  lemma {:induction false} NoneMade(steps: seq<Step>)
    requires NoNewCalls(steps)
    ensures CallsMade(steps) == 0
  {
    if steps != [] {
      assert forall i :: 0 <= i < |steps| - 1 ==> steps[1..][i] == steps[i + 1];
      NoneMade(steps[1..]);
    }
  }

  // ---- Jobs do get sent ----

  /** From any reachable state there is a way to rest. */
  lemma {:induction false} CanDrain(c: Bounded, s: State) returns (steps: seq<Step>)
    requires Inv(c, s)
    ensures CanRun(c, s, steps) && NoNewCalls(steps) && AtRest(Run(c, s, steps))
    decreases Remaining(c, s)
  {
    if AtRest(s) {
      steps := [];
    } else {
      var step := Nearer(c, s);
      var rest := CanDrain(c, Apply(c, s, step));
      steps := Before(c, s, step, rest);
    }
  }

  lemma Nearer(c: Bounded, s: State) returns (step: Step)
    requires Inv(c, s) && !AtRest(s)
    ensures step != Call && Enabled(c, s, step) && Inv(c, Apply(c, s, step))
    ensures Remaining(c, Apply(c, s, step)) < Remaining(c, s)
  {
    SomeoneCanMove(c, s);
    step :| step != Call && Enabled(c, s, step);
    StepKeepsInv(c, s, step);
    StepDecreases(c, s, step);
  }

  lemma Before(c: Config, s: State, step: Step, rest: seq<Step>) returns (steps: seq<Step>)
    requires Enabled(c, s, step) && CanRun(c, Apply(c, s, step), rest) && step != Call && NoNewCalls(rest)
    ensures CanRun(c, s, steps) && NoNewCalls(steps) && Run(c, s, steps) == Run(c, Apply(c, s, step), rest)
  {
    steps := [step] + rest;
    assert steps[1..] == rest;
  }

  lemma {:induction false} CanCall(c: Config, s: State, n: nat) returns (steps: seq<Step>)
    ensures CanRun(c, s, steps) && CallsMade(steps) == n
    decreases n
  {
    if n == 0 {
      steps := [];
    } else {
      var rest := CanCall(c, Apply(c, s, Call), n - 1);
      steps := [Call] + rest;
      assert steps[1..] == rest;
    }
  }

  lemma {:induction false} Joined(c: Config, s: State, a: seq<Step>, b: seq<Step>)
    requires CanRun(c, s, a) && CanRun(c, Run(c, s, a), b)
    ensures CanRun(c, s, a + b) && Run(c, s, a + b) == Run(c, Run(c, s, a), b)
    ensures CallsMade(a + b) == CallsMade(a) + CallsMade(b)
    decreases |a|
  {
    if a == [] {
      assert a + b == b;
    } else {
      assert (a + b)[1..] == a[1..] + b;
      Joined(c, Apply(c, s, a[0]), a[1..], b);
    }
  }

  /** A single call never finds the buffer full. */
  lemma OnlyCallNotDropped(c: Bounded, steps: seq<Step>)
    requires CanRun(c, INITIAL, steps) && CallsMade(steps) <= 1
    ensures Run(c, INITIAL, steps).dropped == []
  {
    var end := Run(c, INITIAL, steps);
    if end.dropped != [] {
      var j := end.dropped[0];
      assert j in end.dropped;
      DropsOnlyWhenFull(c, steps, j);
      var k :| 0 <= k < |steps| && FindsFull(c, steps, k, j);
      SelectingAlone(c, steps, k, j);
    }
  }

  lemma SelectingAlone(c: Bounded, steps: seq<Step>, k: nat, j: Job)
    requires CanRun(c, INITIAL, steps) && CallsMade(steps) <= 1 && k < |steps| && steps[k] == Select(j)
    ensures CanRun(c, INITIAL, steps[..k]) && Run(c, INITIAL, steps[..k]).queue == []
  {
    assert steps == steps[..k] + steps[k..];
    RunSplits(c, INITIAL, steps[..k], steps[k..]);
    var s := Run(c, INITIAL, steps[..k]);
    CallsCounted(c, INITIAL, steps);
    CallsCounted(c, INITIAL, steps[..k]);
    CallsCounted(c, s, steps[k..]);
    Safety(c, steps[..k]);
    QueuedSettled(c, s);
  }

  lemma QueuedSettled(c: Config, s: State)
    requires Inv(c, s)
    ensures s.queue != [] ==> s.queue[0] in Settled(s.calls)
  {
    if s.queue != [] {
      assert s.accepted[|s.taken|] == s.queue[0];
      assert s.queue[0] in multiset(s.accepted) + multiset(s.dropped);
    }
  }

  /** For every number of calls there is a run that makes them and comes to rest with each job sent or
      dropped; without dropping, or with a single call, every one of them has been sent. */
  lemma JobsGetSent(c: Bounded, n: nat) returns (steps: seq<Step>)
    ensures CanRun(c, INITIAL, steps) && CallsMade(steps) == n
    ensures var end := Run(c, INITIAL, steps);
      && AtRest(end)
      && multiset(Jobs(end.finished)) + multiset(end.dropped) == multiset(FirstJobs(n))
      && (!c.dropOnQueueFull || n == 1 ==> multiset(Jobs(end.finished)) == multiset(FirstJobs(n)))
  {
    var calls := CanCall(c, INITIAL, n);
    Safety(c, calls);
    var rest := CanDrain(c, Run(c, INITIAL, calls));
    NoneMade(rest);
    Joined(c, INITIAL, calls, rest);
    steps := calls + rest;
    Safety(c, steps);
    CallsCounted(c, INITIAL, steps);
    RestAccounts(c, Run(c, INITIAL, steps));
    if n == 1 { OnlyCallNotDropped(c, steps); }
  }
}

/** The job pool of test.py, under every interleaving of its threads and with an interrupt at any moment. */
module WorkerPool {

  // A main thread dispatches jobs and collects results, worker threads carry them out, and there are two queues
  // between them.

  // id is the position at which the job was dispatched; the jobs that tell the workers to stop have none.
  datatype Job = Job(id: int, isBreak: bool, isSkip: bool, returncode: int)

  const POISON_JOB := Job(-1, true, false, 0)

  // Waiting for a job, having taken one off the queue, having a result to put on the other, or returned.
  datatype Worker = Idle | Holding(job: Job) | Reporting(job: Job) | Stopped

  // Where the main thread is in run_tests.
  datatype Main = Dispatching | Poisoning(sent: nat) | Collecting | Joining(joined: nat) | Finished(code: int)

  datatype Counters = Counters(passed: nat, skipped: nat, failed: nat, valgrind: nat, crashed: nat)

  // skips says of each job whether it is to be skipped; collected is what output_queue.get() has returned.
  datatype State = State(skips: seq<bool>, main: Main, dispatched: nat, input: seq<Job>, output: seq<Job>,
                         workers: seq<Worker>, threadExit: bool, collected: seq<Job>, counters: Counters)

  datatype Event =
    | Dispatch                             // put the next job
    | Poison                               // put one more stop job
    | Collect                              // get a result and count it
    | Join                                 // one worker has ended
    | Advance                              // go on to the next loop of run_tests
    | Take(w: nat)                         // worker w gets a job
    | Execute(w: nat, returncode: int)     // it looks at thread_exit and is_skip, and runs the job if neither is set
    | Report(w: nat)                       // it puts the result
    | Interrupt                            // the signal handler sets thread_exit

  ghost predicate Enabled(s: State, e: Event) {
    match e
    case Dispatch => s.main.Dispatching? && s.dispatched < |s.skips|
    case Poison => s.main.Poisoning? && s.main.sent < |s.workers|
    case Collect => s.main.Collecting? && |s.collected| < |s.skips| && s.output != []
    case Join => s.main.Joining? && s.main.joined < |s.workers| && s.workers[s.main.joined].Stopped?
    case Advance =>
      || (s.main.Dispatching? && s.dispatched == |s.skips|)
      || (s.main.Poisoning? && s.main.sent == |s.workers|)
      || (s.main.Collecting? && |s.collected| == |s.skips|)
      || (s.main.Joining? && s.main.joined == |s.workers|)
    case Take(w) => w < |s.workers| && s.workers[w].Idle? && s.input != []
    case Execute(w, _) => w < |s.workers| && s.workers[w].Holding?
    case Report(w) => w < |s.workers| && s.workers[w].Reporting?
    case Interrupt => true
  }

  // The worker's treatment of a job that does not tell it to stop.
  function Executed(job: Job, threadExit: bool, returncode: int): Job {
    if threadExit then job.(isBreak := true)
    else if job.isSkip then job
    else job.(returncode := returncode)
  }

  // The collector's bookkeeping.
  function Counted(c: Counters, job: Job): Counters {
    if job.isBreak then c
    else if job.isSkip then c.(skipped := c.skipped + 1)
    else if job.returncode == 0 then c.(passed := c.passed + 1)
    else if job.returncode == 1 then c.(failed := c.failed + 1)
    else if job.returncode == 2 then c.(valgrind := c.valgrind + 1)
    else c.(crashed := c.crashed + 1)
  }

  function ResultCode(s: State): int {
    if s.counters.passed + s.counters.skipped == |s.skips| then 0 else 1
  }

  function Next(s: State, e: Event): State
    requires Enabled(s, e)
  {
    match e
    case Dispatch =>
      s.(input := s.input + [Job(s.dispatched, false, s.skips[s.dispatched], 0)], dispatched := s.dispatched + 1)
    case Poison => s.(input := s.input + [POISON_JOB], main := Poisoning(s.main.sent + 1))
    case Collect =>
      s.(output := s.output[1..], collected := s.collected + [s.output[0]],
         counters := Counted(s.counters, s.output[0]))
    case Join => s.(main := Joining(s.main.joined + 1))
    case Advance =>
      s.(main := match s.main
                 case Dispatching => Poisoning(0)
                 case Poisoning(_) => Collecting
                 case Collecting => Joining(0)
                 case _ => Finished(ResultCode(s)))
    case Take(w) =>
      s.(input := s.input[1..],
         workers := s.workers[w := if s.input[0].isBreak then Stopped else Holding(s.input[0])])
    case Execute(w, returncode) =>
      s.(workers := s.workers[w := Reporting(Executed(s.workers[w].job, s.threadExit, returncode))])
    case Report(w) => s.(output := s.output + [s.workers[w].job], workers := s.workers[w := Idle])
    case Interrupt => s.(threadExit := true)
  }

  ghost predicate Init(s: State) {
    && s.main == Dispatching && s.dispatched == 0 && s.input == [] && s.output == [] && s.collected == []
    && (forall w :: 0 <= w < |s.workers| ==> s.workers[w] == Idle)
    && !s.threadExit && s.counters == Counters(0, 0, 0, 0, 0)
  }

  ghost predicate Run(states: seq<State>, events: seq<Event>) {
    && |states| == |events| + 1
    && Init(states[0])
    && forall i :: 0 <= i < |events| ==> Enabled(states[i], events[i]) && states[i + 1] == Next(states[i], events[i])
  }

  // ----- Where a job is -----

  function In(q: seq<Job>, id: int): nat {
    if q == [] then 0 else (if q[0].id == id then 1 else 0) + In(q[1..], id)
  }

  function Carries(w: Worker, id: int): bool {
    (w.Holding? || w.Reporting?) && w.job.id == id
  }

  function Held(workers: seq<Worker>, id: int): nat {
    if workers == [] then 0 else (if Carries(workers[0], id) then 1 else 0) + Held(workers[1..], id)
  }

  function Copies(s: State, id: int): nat {
    In(s.input, id) + Held(s.workers, id) + In(s.output, id) + In(s.collected, id)
  }

  lemma {:induction false} InAppend(q: seq<Job>, j: Job, id: int)
    ensures In(q + [j], id) == In(q, id) + if j.id == id then 1 else 0
  {
    if q == [] {
      assert q + [j] == [j];
    } else {
      assert (q + [j])[1..] == q[1..] + [j];
      InAppend(q[1..], j, id);
    }
  }

  lemma {:induction false} HeldUpdate(workers: seq<Worker>, w: nat, x: Worker, id: int)
    requires w < |workers|
    ensures Held(workers[w := x], id) + (if Carries(workers[w], id) then 1 else 0)
            == Held(workers, id) + if Carries(x, id) then 1 else 0
  {
    if w == 0 {
      assert workers[0 := x][1..] == workers[1..];
    } else {
      assert workers[w := x][1..] == workers[1..][w - 1 := x];
      HeldUpdate(workers[1..], w - 1, x, id);
    }
  }

  lemma {:induction false} InMember(q: seq<Job>, id: int)
    ensures In(q, id) > 0 <==> exists j :: j in q && j.id == id
  {
    if q != [] {
      InMember(q[1..], id);
    }
  }

  // ----- Invariant -----

  function StopCount(workers: seq<Worker>): nat {
    if workers == [] then 0 else (if workers[0].Stopped? then 1 else 0) + StopCount(workers[1..])
  }

  lemma {:induction false} StopUpdate(workers: seq<Worker>, w: nat, x: Worker)
    requires w < |workers|
    ensures StopCount(workers[w := x]) + (if workers[w].Stopped? then 1 else 0)
            == StopCount(workers) + if x.Stopped? then 1 else 0
  {
    if w == 0 {
      assert workers[0 := x][1..] == workers[1..];
    } else {
      assert workers[w := x][1..] == workers[1..][w - 1 := x];
      StopUpdate(workers[1..], w - 1, x);
    }
  }

  lemma {:induction false} StopBound(workers: seq<Worker>)
    ensures StopCount(workers) <= |workers|
    ensures StopCount(workers) == |workers| ==> forall w :: 0 <= w < |workers| ==> workers[w].Stopped?
    ensures StopCount(workers) > 0 <==> exists w :: 0 <= w < |workers| && workers[w].Stopped?
  {
    if workers != [] {
      StopBound(workers[1..]);
      assert forall w :: 1 <= w < |workers| ==> workers[w] == workers[1..][w - 1];
    }
  }

  function PoisonsSent(s: State): nat {
    match s.main
    case Dispatching => 0
    case Poisoning(sent) => sent
    case _ => |s.workers|
  }

  // A job on its way: it has the attributes it was dispatched with.
  ghost predicate Genuine(s: State, j: Job) {
    0 <= j.id < |s.skips| && j.isSkip == s.skips[j.id]
  }

  // Stop jobs are at the end of the input queue, and a worker stops only when no real job is left in it.
  ghost predicate QueueOk(s: State) {
    && (forall j :: j in s.input ==> j == POISON_JOB || (Genuine(s, j) && !j.isBreak))
    && (forall i, k :: 0 <= i < k < |s.input| && s.input[i].isBreak ==> s.input[k].isBreak)
    && (StopCount(s.workers) > 0 ==> forall j :: j in s.input ==> j.isBreak)
    && (s.main.Dispatching? ==> forall j :: j in s.input ==> !j.isBreak)
    && In(s.input, -1) + StopCount(s.workers) == PoisonsSent(s)
  }

  ghost predicate JobsOk(s: State) {
    && (forall w :: 0 <= w < |s.workers| && (s.workers[w].Holding? || s.workers[w].Reporting?)
          ==> Genuine(s, s.workers[w].job))
    && (forall j :: j in s.output ==> Genuine(s, j))
    && (forall j :: j in s.collected ==> Genuine(s, j))
    && (s.workers == [] ==> s.output == [] && s.collected == [])
  }

  // Every dispatched job is in exactly one place.
  ghost predicate Conserved(s: State) {
    forall id :: 0 <= id ==> Copies(s, id) == if id < s.dispatched then 1 else 0
  }

  ghost predicate MainOk(s: State) {
    && s.dispatched <= |s.skips|
    && (!s.main.Dispatching? ==> s.dispatched == |s.skips|)
    && (s.main.Poisoning? ==> s.main.sent <= |s.workers|)
    && (s.main.Joining? ==> s.main.joined <= |s.workers|)
    && |s.collected| <= |s.skips|
    && (s.main.Dispatching? || s.main.Poisoning? ==> s.collected == [])
    && (s.main.Joining? || s.main.Finished? ==> |s.collected| == |s.skips|)
    && (s.main.Joining? ==> forall w :: 0 <= w < s.main.joined ==> s.workers[w].Stopped?)
    && (s.main.Finished? ==> s.main.code == ResultCode(s) && forall w :: 0 <= w < |s.workers| ==> s.workers[w].Stopped?)
  }

  function CountAll(q: seq<Job>): Counters {
    if q == [] then Counters(0, 0, 0, 0, 0) else Counted(CountAll(q[..|q| - 1]), q[|q| - 1])
  }

  ghost predicate Inv(s: State) {
    QueueOk(s) && JobsOk(s) && Conserved(s) && MainOk(s) && s.counters == CountAll(s.collected)
  }

  lemma {:induction false} AllIdle(workers: seq<Worker>, id: int)
    requires forall w :: 0 <= w < |workers| ==> workers[w] == Idle
    ensures Held(workers, id) == 0 && StopCount(workers) == 0
  {
    if workers != [] {
      AllIdle(workers[1..], id);
    }
  }

  lemma InitInv(s: State)
    requires Init(s)
    ensures Inv(s)
  {
    forall id
      ensures Held(s.workers, id) == 0 && StopCount(s.workers) == 0
    {
      AllIdle(s.workers, id);
    }
    AllIdle(s.workers, 0);
  }

  // ----- Every event keeps the invariant -----

  // An event moves copies of jobs about, and only a dispatch makes one.
  lemma CopiesMove(s: State, e: Event, id: int)
    requires Inv(s) && Enabled(s, e) && 0 <= id
    ensures Copies(Next(s, e), id) == Copies(s, id) + if e.Dispatch? && id == s.dispatched then 1 else 0
  {
    var s' := Next(s, e);
    match e
    case Dispatch => InAppend(s.input, Job(s.dispatched, false, s.skips[s.dispatched], 0), id);
    case Poison => InAppend(s.input, POISON_JOB, id);
    case Collect => InAppend(s.collected, s.output[0], id);
    case Take(w) =>
      assert s.input[0] in s.input;
      HeldUpdate(s.workers, w, s'.workers[w], id);
    case Execute(w, _) => HeldUpdate(s.workers, w, s'.workers[w], id);
    case Report(w) =>
      HeldUpdate(s.workers, w, Idle, id);
      InAppend(s.output, s.workers[w].job, id);
    case _ =>
  }

  lemma StepConserves(s: State, e: Event)
    requires Inv(s) && Enabled(s, e)
    ensures Conserved(Next(s, e))
  {
    var s' := Next(s, e);
    forall id | 0 <= id
      ensures Copies(s', id) == if id < s'.dispatched then 1 else 0
    {
      CopiesMove(s, e, id);
      assert Copies(s, id) == if id < s.dispatched then 1 else 0;
    }
  }

  lemma DispatchKeepsInv(s: State)
    requires Inv(s) && Enabled(s, Dispatch)
    ensures Inv(Next(s, Dispatch))
  {
    var job := Job(s.dispatched, false, s.skips[s.dispatched], 0);
    StopBound(s.workers);
    StepConserves(s, Dispatch);
    InAppend(s.input, job, -1);
  }

  lemma PoisonKeepsInv(s: State)
    requires Inv(s) && Enabled(s, Poison)
    ensures Inv(Next(s, Poison))
  {
    StepConserves(s, Poison);
    InAppend(s.input, POISON_JOB, -1);
  }

  lemma CollectKeepsInv(s: State)
    requires Inv(s) && Enabled(s, Collect)
    ensures Inv(Next(s, Collect))
  {
    StepConserves(s, Collect);
    CollectJobs(s);
  }

  lemma CollectJobs(s: State)
    requires Inv(s) && Enabled(s, Collect)
    ensures var s' := Next(s, Collect);
            JobsOk(s') && s'.counters == CountAll(s'.collected)
  {
    var job := s.output[0];
    assert job in s.output && forall j :: j in s.output[1..] ==> j in s.output;
    assert (s.collected + [job])[..|s.collected|] == s.collected;
  }

  lemma AdvanceKeepsInv(s: State)
    requires Inv(s) && Enabled(s, Advance)
    ensures Inv(Next(s, Advance))
  {
    StepConserves(s, Advance);
    StopBound(s.workers);
  }

  // A stop job that reaches the head of the queue has only stop jobs behind it.
  lemma TakeQueue(s: State, w: nat)
    requires Inv(s) && Enabled(s, Take(w))
    ensures QueueOk(Next(s, Take(w)))
  {
    var s' := Next(s, Take(w));
    assert s.input[0] in s.input;
    StopUpdate(s.workers, w, s'.workers[w]);
    StopBound(s'.workers);
    forall i, k | 0 <= i < k < |s'.input| && s'.input[i].isBreak
      ensures s'.input[k].isBreak
    {
      assert s.input[i + 1].isBreak;
    }
    if s.input[0].isBreak {
      assert forall k :: 0 < k < |s.input| ==> s.input[k].isBreak;
    } else {
      assert !(forall j :: j in s.input ==> j.isBreak);
    }
  }

  lemma TakeKeepsInv(s: State, w: nat)
    requires Inv(s) && Enabled(s, Take(w))
    ensures Inv(Next(s, Take(w)))
  {
    var s' := Next(s, Take(w));
    TakeQueue(s, w);
    StepConserves(s, Take(w));
    assert s.input[0] in s.input;
  }

  lemma ExecuteKeepsInv(s: State, w: nat, returncode: int)
    requires Inv(s) && Enabled(s, Execute(w, returncode))
    ensures Inv(Next(s, Execute(w, returncode)))
  {
    StopUpdate(s.workers, w, Next(s, Execute(w, returncode)).workers[w]);
    StepConserves(s, Execute(w, returncode));
  }

  lemma ReportKeepsInv(s: State, w: nat)
    requires Inv(s) && Enabled(s, Report(w))
    ensures Inv(Next(s, Report(w)))
  {
    StopUpdate(s.workers, w, Idle);
    StepConserves(s, Report(w));
  }

  lemma JoinKeepsInv(s: State)
    requires Inv(s) && Enabled(s, Join)
    ensures Inv(Next(s, Join))
  {
    StepConserves(s, Join);
  }

  lemma InterruptKeepsInv(s: State)
    requires Inv(s)
    ensures Inv(Next(s, Interrupt))
  {
    StepConserves(s, Interrupt);
  }

  lemma StepKeepsInv(s: State, e: Event)
    requires Inv(s) && Enabled(s, e)
    ensures Inv(Next(s, e))
  {
    match e
    case Dispatch => DispatchKeepsInv(s);
    case Poison => PoisonKeepsInv(s);
    case Collect => CollectKeepsInv(s);
    case Join => JoinKeepsInv(s);
    case Advance => AdvanceKeepsInv(s);
    case Take(w) => TakeKeepsInv(s, w);
    case Execute(w, returncode) => ExecuteKeepsInv(s, w, returncode);
    case Report(w) => ReportKeepsInv(s, w);
    case Interrupt => InterruptKeepsInv(s);
  }

  lemma {:induction false} RunKeepsInv(states: seq<State>, events: seq<Event>, i: nat)
    requires Run(states, events) && i < |states|
    ensures Inv(states[i]) && states[i].skips == states[0].skips && |states[i].workers| == |states[0].workers|
  {
    if i == 0 {
      InitInv(states[0]);
    } else {
      RunKeepsInv(states, events, i - 1);
      StepKeepsInv(states[i - 1], events[i - 1]);
    }
  }

  // ----- The pool never gets stuck -----

  // Something other than an interrupt can happen.
  ghost predicate CanMove(s: State) {
    exists e: Event :: !e.Interrupt? && Enabled(s, e)
  }

  // A job that is neither undispatched nor collected is in the input queue, with a worker, or in the output queue.
  lemma PendingJobIsSomewhere(s: State)
    requires Inv(s) && s.main.Collecting? && |s.collected| < |s.skips|
    ensures s.output != [] || (exists j :: j in s.input && !j.isBreak)
            || exists w :: 0 <= w < |s.workers| && (s.workers[w].Holding? || s.workers[w].Reporting?)
  {
    var id := MissingId(s.collected, |s.skips|);
    assert Copies(s, id) == 1;
    InMember(s.input, id);
    HeldMember(s.workers, id);
  }

  lemma {:induction false} HeldMember(workers: seq<Worker>, id: int)
    ensures Held(workers, id) > 0 ==> exists w :: 0 <= w < |workers| && Carries(workers[w], id)
  {
    if workers != [] {
      HeldMember(workers[1..], id);
      if w :| 0 <= w < |workers| - 1 && Carries(workers[1..][w], id) {
        assert Carries(workers[w + 1], id);
      } else if Held(workers, id) > 0 {
        assert Carries(workers[0], id);
      }
    }
  }

  // Fewer than n results leave one of the n ids out.
  lemma {:induction false} MissingId(q: seq<Job>, n: nat) returns (id: nat)
    requires |q| < n
    ensures id < n && In(q, id) == 0
  {
    var ids := Range(n);
    var present := set j | j in q :: j.id;
    PresentCard(q);
    if ids <= present {
      SubsetCard(ids, present);
      assert false;
    }
    id :| id in ids && id !in present;
    InMember(q, id);
  }

  ghost function Range(n: nat): (s: set<int>)
    ensures |s| == n && forall k :: k in s <==> 0 <= k < n
  {
    if n == 0 then {} else Range(n - 1) + {n - 1}
  }

  lemma PresentCard(q: seq<Job>)
    ensures |set j | j in q :: j.id| <= |q|
  {
    if q != [] {
      PresentCard(q[1..]);
      assert (set j | j in q :: j.id) == (set j | j in q[1..] :: j.id) + {q[0].id};
    }
  }

  lemma SubsetCard(a: set<int>, b: set<int>)
    requires a <= b
    ensures |a| <= |b|
  {
    assert b == a + (b - a);
  }

  lemma CollectorMoves(s: State)
    requires Inv(s) && s.main.Collecting? && |s.workers| > 0
    ensures CanMove(s)
  {
    if |s.collected| == |s.skips| {
      assert Enabled(s, Advance);
    } else if s.output != [] {
      assert Enabled(s, Collect);
    } else {
      PendingJobIsSomewhere(s);
      if w :| 0 <= w < |s.workers| && (s.workers[w].Holding? || s.workers[w].Reporting?) {
        assert Enabled(s, if s.workers[w].Holding? then Execute(w, 0) else Report(w));
      } else {
        StopBound(s.workers);
        assert !s.workers[0].Stopped?;
        assert Enabled(s, Take(0));
      }
    }
  }

  lemma JoinerMoves(s: State)
    requires Inv(s) && s.main.Joining?
    ensures CanMove(s)
  {
    var k := s.main.joined;
    if k == |s.workers| {
      assert Enabled(s, Advance);
    } else {
      match s.workers[k]
      case Stopped => assert Enabled(s, Join);
      case Holding(_) => assert Enabled(s, Execute(k, 0));
      case Reporting(_) => assert Enabled(s, Report(k));
      case Idle =>
        StopBound(s.workers);
        InMember(s.input, -1);
        assert Enabled(s, Take(k));
    }
  }

  // As long as there is a worker, or no job, some thread can go on until the main thread has finished.
  lemma NeverStuck(s: State)
    requires Inv(s) && !s.main.Finished? && (|s.workers| > 0 || s.skips == [])
    ensures CanMove(s)
  {
    match s.main
    case Dispatching => assert Enabled(s, if s.dispatched < |s.skips| then Dispatch else Advance);
    case Poisoning(sent) => assert Enabled(s, if sent < |s.workers| then Poison else Advance);
    case Collecting =>
      if |s.workers| > 0 {
        CollectorMoves(s);
      } else {
        assert Enabled(s, Advance);
      }
    case Joining(_) => JoinerMoves(s);
    case Finished(_) =>
  }

  // Without workers, a collector that waits for a job waits forever.
  lemma StuckWithoutWorkers(s: State)
    requires Inv(s) && s.main.Collecting? && s.workers == [] && |s.skips| > 0
    ensures !CanMove(s)
  {
  }

  // The program starts as many workers as it finds processors, which may be none: one job is dispatched, no stop
  // job is sent, and the collector waits.
  lemma NoWorkersRun()
    ensures exists states, events :: Run(states, events) && WaitsForever(states)
  {
    var s0 := State([false], Dispatching, 0, [], [], [], false, [], Counters(0, 0, 0, 0, 0));
    var s1 := s0.(dispatched := 1, input := [Job(0, false, false, 0)]);
    var s2 := s1.(main := Poisoning(0));
    var s3 := s1.(main := Collecting);
    assert s1 == Next(s0, Dispatch) && s2 == Next(s1, Advance) && s3 == Next(s2, Advance);
    var states, events := [s0, s1, s2, s3], [Dispatch, Advance, Advance];
    assert Run(states, events);
    assert WaitsForever(states);
  }

  // The main thread collects results in the last state, and nothing but an interrupt can happen.
  ghost predicate WaitsForever(states: seq<State>) {
    states != [] && states[|states| - 1].main.Collecting? && !CanMove(states[|states| - 1])
  }

  // ----- And it ends -----

  function Weight(w: Worker): nat {
    match w
    case Holding(_) => 3
    case Reporting(_) => 2
    case _ => 0
  }

  function WorkersWeight(workers: seq<Worker>): nat {
    if workers == [] then 0 else Weight(workers[0]) + WorkersWeight(workers[1..])
  }

  lemma {:induction false} WeightUpdate(workers: seq<Worker>, w: nat, x: Worker)
    requires w < |workers|
    ensures WorkersWeight(workers[w := x]) + Weight(workers[w]) == WorkersWeight(workers) + Weight(x)
  {
    if w == 0 {
      assert workers[0 := x][1..] == workers[1..];
    } else {
      assert workers[w := x][1..] == workers[1..][w - 1 := x];
      WeightUpdate(workers[1..], w - 1, x);
    }
  }

  // What the main thread still has to do apart from handling jobs.
  function MainWork(s: State): int {
    match s.main
    case Dispatching => 6 * |s.workers| + 4
    case Poisoning(sent) => 6 * |s.workers| - 5 * sent + 3
    case Collecting => |s.workers| + 2
    case Joining(joined) => |s.workers| - joined + 1
    case Finished(_) => 0
  }

  // How many more events, interrupts apart, there can be at most.
  function Remaining(s: State): int {
    5 * (|s.skips| - s.dispatched) + 4 * |s.input| + WorkersWeight(s.workers) + |s.output| + MainWork(s)
  }

  lemma WorkerEventCounts(s: State, e: Event, w: nat)
    requires Inv(s) && Enabled(s, e) && (e == Take(w) || e == Report(w) || (e.Execute? && e.w == w))
    ensures Remaining(Next(s, e)) < Remaining(s)
  {
    WeightUpdate(s.workers, w, Next(s, e).workers[w]);
  }

  lemma EveryEventCounts(s: State, e: Event)
    requires Inv(s) && Enabled(s, e)
    ensures if e.Interrupt? then Remaining(Next(s, e)) == Remaining(s) else Remaining(Next(s, e)) < Remaining(s)
  {
    match e
    case Take(w) => WorkerEventCounts(s, e, w);
    case Execute(w, _) => WorkerEventCounts(s, e, w);
    case Report(w) => WorkerEventCounts(s, e, w);
    case _ =>
  }

  ghost function Work(events: seq<Event>): nat {
    if events == [] then 0
    else Work(events[..|events| - 1]) + if events[|events| - 1].Interrupt? then 0 else 1
  }

  lemma {:induction false} WorkIsBounded(states: seq<State>, events: seq<Event>, k: nat)
    requires Run(states, events) && k <= |events|
    ensures Work(events[..k]) + Remaining(states[k]) <= Remaining(states[0])
  {
    if k > 0 {
      WorkIsBounded(states, events, k - 1);
      RunKeepsInv(states, events, k - 1);
      EveryEventCounts(states[k - 1], events[k - 1]);
      assert events[..k][..k - 1] == events[..k - 1];
    }
  }

  // Every run takes at most 5 steps per job and 6 per worker, and four more, interrupts apart; and if it cannot go
  // on and there is a worker, the main thread has finished.
  lemma EveryRunEnds(states: seq<State>, events: seq<Event>)
    requires Run(states, events)
    ensures Work(events) <= 5 * |states[0].skips| + 6 * |states[0].workers| + 4
    ensures |states[0].workers| > 0 && !CanMove(states[|events|]) ==> states[|events|].main.Finished?
  {
    var n := |events|;
    WorkIsBounded(states, events, n);
    assert events[..n] == events;
    RunKeepsInv(states, events, n);
    IdleWeight(states[0].workers);
    if |states[0].workers| > 0 && !states[n].main.Finished? {
      NeverStuck(states[n]);
    }
  }

  lemma {:induction false} IdleWeight(workers: seq<Worker>)
    requires forall w :: 0 <= w < |workers| ==> workers[w] == Idle
    ensures WorkersWeight(workers) == 0
  {
    if workers != [] {
      IdleWeight(workers[1..]);
    }
  }

  // ----- The verdict -----

  predicate Good(j: Job) {
    !j.isBreak && (j.isSkip || j.returncode == 0)
  }

  ghost predicate AllGood(q: seq<Job>) {
    forall j :: j in q ==> Good(j)
  }

  lemma {:induction false} CountersTally(q: seq<Job>)
    ensures var c := CountAll(q);
            && c.passed + c.skipped <= |q|
            && (c.passed + c.skipped == |q| <==> AllGood(q))
  {
    if q != [] {
      var k := |q| - 1;
      CountersTally(q[..k]);
      assert q == q[..k] + [q[k]];
      assert AllGood(q) <==> AllGood(q[..k]) && Good(q[k]);
    }
  }

  datatype Status = Pass | Skip | Fail | Valgrind | Crash

  // How a result is reported; the exit codes 1 and 2 stand for a failure and for an error that valgrind found.
  predicate Reported(j: Job, status: Status) {
    && !j.isBreak && (j.isSkip <==> status == Skip)
    && match status
       case Pass => j.returncode == 0
       case Fail => j.returncode == 1
       case Valgrind => j.returncode == 2
       case Crash => j.returncode < 0 || j.returncode > 2
       case Skip => true
  }

  // Where there are results of that status.
  function Places(q: seq<Job>, status: Status): set<nat> {
    set i: nat | i < |q| && Reported(q[i], status)
  }

  lemma PlacesNext(q: seq<Job>, j: Job, status: Status)
    ensures |Places(q + [j], status)| == |Places(q, status)| + if Reported(j, status) then 1 else 0
  {
    assert Places(q + [j], status) == Places(q, status) + if Reported(j, status) then {|q|} else {};
  }

  ghost predicate CountsOf(c: Counters, q: seq<Job>) {
    && c.passed == |Places(q, Pass)| && c.skipped == |Places(q, Skip)| && c.failed == |Places(q, Fail)|
    && c.valgrind == |Places(q, Valgrind)| && c.crashed == |Places(q, Crash)|
  }

  // Each counter is the number of results of its status.
  lemma {:induction false} CountersCount(q: seq<Job>)
    ensures CountsOf(CountAll(q), q)
  {
    if q != [] {
      var k := |q| - 1;
      CountersCount(q[..k]);
      assert q == q[..k] + [q[k]];
      PlacesNext(q[..k], q[k], Pass);
      PlacesNext(q[..k], q[k], Skip);
      PlacesNext(q[..k], q[k], Fail);
      PlacesNext(q[..k], q[k], Valgrind);
      PlacesNext(q[..k], q[k], Crash);
    } else {
      assert forall status :: Places(q, status) == {};
    }
  }

  // ----- What the runs returned -----

  // Event k is a worker's treatment of the job with that id.
  ghost predicate Treats(states: seq<State>, events: seq<Event>, k: nat, id: int)
    requires |states| == |events| + 1
  {
    && k < |events| && events[k].Execute? && events[k].w < |states[k].workers|
    && states[k].workers[events[k].w].Holding? && states[k].workers[events[k].w].job.id == id
  }

  // An interrupt has come before event k.
  ghost predicate Interrupted(events: seq<Event>, k: nat) {
    exists i :: 0 <= i < k && i < |events| && events[i].Interrupt?
  }

  // Event k is the only one so far that treats the job, and has left it as it is: with the return code of its run,
  // unless it is skipped, or marked because an interrupt came first.
  ghost predicate TreatedAt(states: seq<State>, events: seq<Event>, i: nat, k: nat, j: Job)
    requires |states| == |events| + 1
  {
    && k < i && Treats(states, events, k, j.id)
    && (forall m :: 0 <= m < i && Treats(states, events, m, j.id) ==> m == k)
    && (j.isBreak <==> Interrupted(events, k))
    && (!j.isBreak && !j.isSkip ==> j.returncode == events[k].returncode)
  }

  ghost predicate TreatedOnce(states: seq<State>, events: seq<Event>, i: nat, j: Job)
    requires |states| == |events| + 1
  {
    exists k :: TreatedAt(states, events, i, k, j)
  }

  ghost predicate Untreated(states: seq<State>, events: seq<Event>, i: nat, id: int)
    requires |states| == |events| + 1
  {
    forall k :: 0 <= k < i ==> !Treats(states, events, k, id)
  }

  // Jobs that wait have not been treated, and those that are done have been, once.
  ghost predicate QueuesTracked(states: seq<State>, events: seq<Event>, i: nat, s: State)
    requires |states| == |events| + 1
  {
    && (forall id :: s.dispatched <= id ==> Untreated(states, events, i, id))
    && (forall j :: j in s.input && j != POISON_JOB ==> Untreated(states, events, i, j.id))
    && (forall j :: j in s.output ==> TreatedOnce(states, events, i, j))
    && (forall j :: j in s.collected ==> TreatedOnce(states, events, i, j))
  }

  ghost predicate WorkersTracked(states: seq<State>, events: seq<Event>, i: nat, s: State)
    requires |states| == |events| + 1
  {
    && (forall w :: 0 <= w < |s.workers| && s.workers[w].Holding? ==>
          !s.workers[w].job.isBreak && Untreated(states, events, i, s.workers[w].job.id))
    && (forall w :: 0 <= w < |s.workers| && s.workers[w].Reporting? ==>
          TreatedOnce(states, events, i, s.workers[w].job))
  }

  ghost predicate Tracked(states: seq<State>, events: seq<Event>, i: nat)
    requires |states| == |events| + 1 && i < |states|
  {
    && (states[i].threadExit <==> Interrupted(events, i))
    && QueuesTracked(states, events, i, states[i]) && WorkersTracked(states, events, i, states[i])
  }

  // An event tells nothing new about a job that it does not treat.
  lemma NothingNew(states: seq<State>, events: seq<Event>, i: nat)
    requires |states| == |events| + 1 && i < |events|
    ensures forall id {:trigger Untreated(states, events, i + 1, id)} ::
              Untreated(states, events, i, id) && !Treats(states, events, i, id) ==>
                Untreated(states, events, i + 1, id)
    ensures forall j :: TreatedOnce(states, events, i, j) && !Treats(states, events, i, j.id) ==>
              TreatedOnce(states, events, i + 1, j)
  {
    forall j | TreatedOnce(states, events, i, j) && !Treats(states, events, i, j.id)
      ensures TreatedOnce(states, events, i + 1, j)
    {
      var k :| TreatedAt(states, events, i, k, j);
      assert TreatedAt(states, events, i + 1, k, j);
    }
  }

  // What the queues and the workers hold stays tracked, if the event does not treat it.
  lemma TrackedLater(states: seq<State>, events: seq<Event>, i: nat)
    requires |states| == |events| + 1 && i < |events| && Tracked(states, events, i) && !events[i].Execute?
    ensures QueuesTracked(states, events, i + 1, states[i]) && WorkersTracked(states, events, i + 1, states[i])
  {
    NothingNew(states, events, i);
    assert forall id :: !Treats(states, events, i, id);
  }

  lemma InterruptedNext(events: seq<Event>, i: nat)
    requires i < |events|
    ensures Interrupted(events, i + 1) <==> Interrupted(events, i) || events[i].Interrupt?
  {
  }

  // A job that a worker carries is nowhere else.
  lemma CarriedOnlyThere(s: State, w: nat, id: int)
    requires Conserved(s) && 0 <= id && w < |s.workers| && Carries(s.workers[w], id)
    ensures forall j :: j in s.input || j in s.output || j in s.collected ==> j.id != id
    ensures forall v :: 0 <= v < |s.workers| && v != w ==> !Carries(s.workers[v], id)
    ensures id < s.dispatched
  {
    assert Copies(s, id) == if id < s.dispatched then 1 else 0;
    HeldUpdate(s.workers, w, Idle, id);
    var rest := s.workers[w := Idle];
    forall v | 0 <= v < |s.workers| && v != w
      ensures !Carries(s.workers[v], id)
    {
      assert rest[v] == s.workers[v];
      if Carries(rest[v], id) {
        HeldIfCarried(rest, v, id);
      }
    }
    InMember(s.input, id);
    InMember(s.output, id);
    InMember(s.collected, id);
  }

  lemma {:induction false} HeldIfCarried(workers: seq<Worker>, w: nat, id: int)
    requires w < |workers| && Carries(workers[w], id)
    ensures Held(workers, id) > 0
  {
    if w > 0 {
      HeldIfCarried(workers[1..], w - 1, id);
    }
  }

  lemma OtherQueuesTrack(states: seq<State>, events: seq<Event>, i: nat)
    requires Run(states, events) && i < |events| && !events[i].Execute?
    requires QueuesTracked(states, events, i + 1, states[i]) && WorkersTracked(states, events, i + 1, states[i])
    ensures QueuesTracked(states, events, i + 1, states[i + 1])
  {
    var s, s' := states[i], states[i + 1];
    assert Enabled(s, events[i]) && s' == Next(s, events[i]);
    match events[i]
    case Dispatch =>
      forall j | j in s'.input && j != POISON_JOB
        ensures Untreated(states, events, i + 1, j.id)
      {
        assert j in s.input || j.id == s.dispatched;
      }
    case Collect => assert s.output[0] in s.output;
    case Take(w) => assert s.input[0] in s.input;
    case _ =>
  }

  lemma OtherWorkersTrack(states: seq<State>, events: seq<Event>, i: nat)
    requires Run(states, events) && i < |events| && !events[i].Execute?
    requires QueuesTracked(states, events, i + 1, states[i]) && WorkersTracked(states, events, i + 1, states[i])
    ensures WorkersTracked(states, events, i + 1, states[i + 1])
  {
    var s, s' := states[i], states[i + 1];
    assert Enabled(s, events[i]) && s' == Next(s, events[i]);
    if events[i].Take? {
      assert s.input[0] in s.input;
    }
  }

  lemma OtherEventsTrack(states: seq<State>, events: seq<Event>, i: nat)
    requires Run(states, events) && i < |events| && Tracked(states, events, i) && !events[i].Execute?
    ensures Tracked(states, events, i + 1)
  {
    assert Enabled(states[i], events[i]) && states[i + 1] == Next(states[i], events[i]);
    InterruptedNext(events, i);
    TrackedLater(states, events, i);
    OtherQueuesTrack(states, events, i);
    OtherWorkersTrack(states, events, i);
  }

  // The job that event i treats is only with the worker.
  lemma TreatedElsewhere(states: seq<State>, events: seq<Event>, i: nat)
    requires Run(states, events) && i < |events| && events[i].Execute? && Inv(states[i])
    ensures var s, w := states[i], events[i].w;
            && w < |s.workers| && s.workers[w].Holding? && s.workers[w].job.id < s.dispatched
            && (forall id :: Treats(states, events, i, id) ==> id == s.workers[w].job.id)
            && (forall j :: j in s.input || j in s.output || j in s.collected ==> j.id != s.workers[w].job.id)
            && (forall v :: 0 <= v < |s.workers| && v != w ==> !Carries(s.workers[v], s.workers[w].job.id))
  {
    var s, w := states[i], events[i].w;
    assert Enabled(s, events[i]) && Genuine(s, s.workers[w].job);
    CarriedOnlyThere(s, w, s.workers[w].job.id);
  }

  lemma ExecuteTracks(states: seq<State>, events: seq<Event>, i: nat)
    requires Run(states, events) && i < |events| && Tracked(states, events, i) && events[i].Execute?
    requires Inv(states[i])
    ensures Tracked(states, events, i + 1)
  {
    assert Enabled(states[i], events[i]) && states[i + 1] == Next(states[i], events[i]);
    InterruptedNext(events, i);
    NothingNew(states, events, i);
    TreatedElsewhere(states, events, i);
    ExecuteTracksWorkers(states, events, i);
  }

  lemma ExecuteTracksWorkers(states: seq<State>, events: seq<Event>, i: nat)
    requires Run(states, events) && i < |events| && Tracked(states, events, i) && events[i].Execute?
    requires Inv(states[i])
    ensures WorkersTracked(states, events, i + 1, states[i + 1])
  {
    var s, s', w := states[i], states[i + 1], events[i].w;
    assert Enabled(s, events[i]) && s' == Next(s, events[i]);
    NothingNew(states, events, i);
    TreatedElsewhere(states, events, i);
    ExecutedIsTreated(states, events, i);
    forall v | 0 <= v < |s'.workers|
      ensures s'.workers[v].Holding? ==>
                !s'.workers[v].job.isBreak && Untreated(states, events, i + 1, s'.workers[v].job.id)
      ensures s'.workers[v].Reporting? ==> TreatedOnce(states, events, i + 1, s'.workers[v].job)
    {
      if v != w {
        assert s'.workers[v] == s.workers[v] && !Carries(s.workers[v], s.workers[w].job.id);
      }
    }
  }

  lemma ExecutedIsTreated(states: seq<State>, events: seq<Event>, i: nat)
    requires Run(states, events) && i < |events| && Tracked(states, events, i) && events[i].Execute?
    ensures events[i].w < |states[i + 1].workers| && states[i + 1].workers[events[i].w].Reporting?
    ensures TreatedOnce(states, events, i + 1, states[i + 1].workers[events[i].w].job)
  {
    var s, s', w := states[i], states[i + 1], events[i].w;
    assert Enabled(s, events[i]) && s' == Next(s, events[i]);
    assert Treats(states, events, i, s.workers[w].job.id);
    assert TreatedAt(states, events, i + 1, i, s'.workers[w].job);
  }

  lemma {:induction false} RunTracks(states: seq<State>, events: seq<Event>, i: nat)
    requires Run(states, events) && i < |states|
    ensures Tracked(states, events, i)
  {
    if i > 0 {
      RunTracks(states, events, i - 1);
      if events[i - 1].Execute? {
        RunKeepsInv(states, events, i - 1);
        ExecuteTracks(states, events, i - 1);
      } else {
        OtherEventsTrack(states, events, i - 1);
      }
    }
  }

  // Event e treats a job before any interrupt, and the job is skipped or its run returns 0.
  ghost predicate RunsWell(states: seq<State>, events: seq<Event>, e: nat)
    requires |states| == |events| + 1 && e < |events|
  {
    events[e].Execute? ==>
      && !Interrupted(events, e)
      && forall id :: Treats(states, events, e, id) && 0 <= id < |states[0].skips| ==>
           states[0].skips[id] || events[e].returncode == 0
  }

  /** When the main thread has finished, every job has come back exactly once, no stop job has, and all workers have
      returned. Each job was treated exactly once, and came back with what its run returned, unless it was skipped or
      an interrupt came first, and the counters are the numbers of such results. The result is 0 just when no job was
      treated after an interrupt, and the run of every job that was not to be skipped returned 0; otherwise it is 1. */
  lemma Verdict(states: seq<State>, events: seq<Event>, k: nat)
    requires Run(states, events) && k < |states| && states[k].main.Finished?
    ensures var s := states[k];
            && |s.collected| == |s.skips|
            && (forall id :: 0 <= id < |s.skips| ==> In(s.collected, id) == 1)
            && (forall j :: j in s.collected ==> 0 <= j.id < |s.skips| && j.isSkip == s.skips[j.id])
            && (forall j :: j in s.collected ==> TreatedOnce(states, events, k, j))
            && (forall w :: 0 <= w < |s.workers| ==> s.workers[w].Stopped?)
            && CountsOf(s.counters, s.collected)
            && s.main.code == if forall e :: 0 <= e < k ==> RunsWell(states, events, e) then 0 else 1
  {
    RunKeepsInv(states, events, k);
    RunTracks(states, events, k);
    var s := states[k];
    CountersTally(s.collected);
    CountersCount(s.collected);
    forall id | 0 <= id
      ensures In(s.collected, id) <= 1
    {
      assert Copies(s, id) <= 1;
    }
    AllIdsPresent(s.collected, |s.skips|);
    GoodIfRunsWell(states, events, k);
  }

  lemma GoodIfRunsWell(states: seq<State>, events: seq<Event>, k: nat)
    requires Run(states, events) && k < |states| && Inv(states[k]) && Tracked(states, events, k)
    requires states[k].skips == states[0].skips
    requires forall id :: 0 <= id < |states[k].skips| ==> In(states[k].collected, id) == 1
    ensures AllGood(states[k].collected) <==> forall e :: 0 <= e < k ==> RunsWell(states, events, e)
  {
    var q := states[k].collected;
    if forall e :: 0 <= e < k ==> RunsWell(states, events, e) {
      forall j | j in q
        ensures Good(j)
      {
        assert Genuine(states[k], j);
        var e :| TreatedAt(states, events, k, e, j);
        assert RunsWell(states, events, e);
      }
    }
    if AllGood(q) {
      forall e | 0 <= e < k
        ensures RunsWell(states, events, e)
      {
        if events[e].Execute? {
          CollectedRunsWell(states, events, k, e);
        }
      }
    }
  }

  lemma CollectedRunsWell(states: seq<State>, events: seq<Event>, k: nat, e: nat)
    requires Run(states, events) && e < k < |states| && Inv(states[k]) && Tracked(states, events, k)
    requires states[k].skips == states[0].skips && events[e].Execute? && AllGood(states[k].collected)
    requires forall id :: 0 <= id < |states[k].skips| ==> In(states[k].collected, id) == 1
    ensures RunsWell(states, events, e)
  {
    RunKeepsInv(states, events, e);
    var job := states[e].workers[events[e].w].job;
    assert Genuine(states[e], job) && Treats(states, events, e, job.id);
    InMember(states[k].collected, job.id);
    var j :| j in states[k].collected && j.id == job.id;
    var m :| TreatedAt(states, events, k, m, j);
    assert m == e && Good(j) && Genuine(states[k], j);
  }

  lemma {:induction false} DistinctIds(q: seq<Job>)
    requires forall j :: j in q ==> 0 <= j.id
    requires forall k :: 0 <= k ==> In(q, k) <= 1
    ensures |set j | j in q :: j.id| == |q|
  {
    if q != [] {
      var rest := set j | j in q[1..] :: j.id;
      forall k | 0 <= k
        ensures In(q[1..], k) <= 1
      {
        assert In(q, k) <= 1;
      }
      DistinctIds(q[1..]);
      assert In(q, q[0].id) <= 1;
      InMember(q[1..], q[0].id);
      assert (set j | j in q :: j.id) == rest + {q[0].id};
    }
  }

  // A list of n genuine ids, none of them twice, leaves none out.
  lemma AllIdsPresent(q: seq<Job>, n: nat)
    requires |q| == n
    requires forall j :: j in q ==> 0 <= j.id < n
    requires forall k :: 0 <= k ==> In(q, k) <= 1
    ensures forall k :: 0 <= k < n ==> In(q, k) == 1
  {
    DistinctIds(q);
    var ids := set j | j in q :: j.id;
    assert Range(n) == ids + (Range(n) - ids);
    forall k | 0 <= k < n
      ensures In(q, k) == 1
    {
      assert k in ids;
      InMember(q, k);
    }
  }
}

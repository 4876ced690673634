/**
 `iter_batches` of python/pcapracer/api.py: a worker thread feeding a bounded queue, a consumer
 that may abandon it, and a stop flag, as sequentially consistent steps.

 Batches are numbered in the order the extraction produces them. Extraction itself, and the five
 seconds the consumer waits for the thread to join, are not part of this model.
 */
module BatchQueue {
  import opened Integers
  import opened Wrappers

  datatype Item = Batch(n: nat) | Done | Exception

  /** What the extraction will do: `produced` batches, then finish or raise. */
  datatype Job = Job(produced: nat, raises: bool, queueSize: int) {

    /** `queue.Queue(maxsize=max(1, queue_size))` */
    function Capacity(): nat {
      Max(1, queueSize)
    }

    function EndItem(): Item {
      if raises then Exception else Done
    }
  }

  datatype Worker =
    | Extracting            // between batches
    | Checking              // `_emit` holding a batch, about to look at the stop flag
    | Putting               // `_emit` in the timed put
    | Ending(item: Item)    // in the final put, which has no timeout
    | Ended

  datatype Outcome = Returned | Raised | Abandoned

  datatype Consumer = Getting | Yielding | Finished(outcome: Outcome)

  datatype State = State(
    queue: seq<Item>, stop: bool, worker: Worker, emitted: nat, consumer: Consumer, yielded: seq<nat>)

  const START := State([], false, Extracting, 0, Getting, [])

  datatype Action = Produce | LookAtStop | Put | TimeOut | FinalPut | Get | Resume | Abandon

  predicate Enabled(j: Job, s: State, a: Action) {
    match a
    case Produce => s.worker.Extracting?
    case LookAtStop => s.worker.Checking?
    case Put => s.worker.Putting? && |s.queue| < j.Capacity()
    case TimeOut => s.worker.Putting? && |s.queue| >= j.Capacity()
    case FinalPut => s.worker.Ending? && |s.queue| < j.Capacity()
    case Get => s.consumer.Getting? && s.queue != []
    case Resume => s.consumer.Yielding?
    case Abandon => s.consumer.Yielding?
  }

  function Act(j: Job, s: State, a: Action): State
    requires Enabled(j, s, a)
  {
    match a
    case Produce => s.(worker := if s.emitted < j.produced then Checking else Ending(j.EndItem()))
    case LookAtStop => s.(worker := if s.stop then Ending(Done) else Putting)
    case Put => s.(queue := s.queue + [Batch(s.emitted)], emitted := s.emitted + 1, worker := Extracting)
    case TimeOut => s.(worker := Checking)
    case FinalPut => s.(queue := s.queue + [s.worker.item], worker := Ended)
    case Get => Received(s.(queue := s.queue[1..]), s.queue[0])
    case Resume => s.(consumer := Getting)
    case Abandon => s.(consumer := Finished(Abandoned), stop := true)
  }

  function Received(s: State, item: Item): State {
    match item
    case Batch(n) => s.(yielded := s.yielded + [n], consumer := Yielding)
    case Done => s.(consumer := Finished(Returned), stop := true)
    case Exception => s.(consumer := Finished(Raised), stop := true)
  }

  /** The state after a sequence of actions, if each was possible when it was taken. */
  function Run(j: Job, acts: seq<Action>): Option<State> {
    if acts == [] then Some(START)
    else
      match Run(j, acts[..|acts| - 1])
      case None => None
      case Some(s) => if Enabled(j, s, acts[|acts| - 1]) then Some(Act(j, s, acts[|acts| - 1])) else None
  }

  predicate Reaches(j: Job, acts: seq<Action>, s: State) {
    Run(j, acts) == Some(s)
  }

  // ---------------------------------------------------------------------------
  // Nothing lost, nothing duplicated, nothing out of order
  // ---------------------------------------------------------------------------

  /** How many of the queued items are batches: all but an end marker, which can only be last. */
  function QueuedBatches(s: State): nat {
    if s.queue != [] && !s.queue[|s.queue| - 1].Batch? then |s.queue| - 1 else |s.queue|
  }

  predicate InHand(s: State) {
    s.worker.Checking? || s.worker.Putting?
  }

  ghost predicate Inv(j: Job, s: State) {
    && |s.queue| <= j.Capacity()
    // Yielded, then queued, then in hand: the produced batches in order.
    && (forall i | 0 <= i < |s.yielded| :: s.yielded[i] == i)
    && (forall i | 0 <= i < QueuedBatches(s) :: s.queue[i] == Batch(|s.yielded| + i))
    && s.emitted == |s.yielded| + QueuedBatches(s)
    && s.emitted <= j.produced
    && (InHand(s) ==> s.emitted < j.produced)
    // The stop flag says the consumer is gone; while it is not, only the real end ends the worker.
    && (s.stop <==> s.consumer.Finished?)
    && (s.worker.Ending? ==> !s.worker.item.Batch?)
    && (s.worker.Ending? && !s.stop ==> s.emitted == j.produced && s.worker.item == j.EndItem())
    // The end marker is the worker's last item, and what the consumer ends on.
    && (s.queue != [] && !s.queue[|s.queue| - 1].Batch? ==> s.worker.Ended?)
    && (s.worker.Ended? && !s.stop ==>
          s.emitted == j.produced && s.queue != [] && s.queue[|s.queue| - 1] == j.EndItem())
    && (s.consumer.Finished? && !s.consumer.outcome.Abandoned? ==>
          && s.worker.Ended? && s.queue == [] && |s.yielded| == j.produced
          && s.consumer.outcome == if j.raises then Raised else Returned)
  }

  lemma InvKept(j: Job, s: State, a: Action)
    requires Inv(j, s) && Enabled(j, s, a)
    ensures Inv(j, Act(j, s, a))
  {
    var s' := Act(j, s, a);
    if a == Get {
      var last := |s.queue| - 1;
      assert last > 0 ==> s'.queue[last - 1] == s.queue[last];
      assert forall i | 0 <= i < |s'.queue| :: s'.queue[i] == s.queue[i + 1];
      if QueuedBatches(s) > 0 {
        assert s.queue[0] == Batch(|s.yielded|);
      }
    }
  }

  lemma {:induction false} InvHolds(j: Job, acts: seq<Action>, s: State)
    requires Reaches(j, acts, s)
    ensures Inv(j, s)
  {
    if acts != [] {
      var r := Run(j, acts[..|acts| - 1]).value;
      InvHolds(j, acts[..|acts| - 1], r);
      InvKept(j, r, acts[|acts| - 1]);
    }
  }

  function Batches(items: seq<Item>): seq<nat> {
    if items == [] then []
    else if items[0].Batch? then [items[0].n] + Batches(items[1..])
    else Batches(items[1..])
  }

  /** Everything on its way to the consumer, in order. */
  function Pipeline(s: State): seq<nat> {
    s.yielded + Batches(s.queue) + if InHand(s) then [s.emitted] else []
  }

  lemma {:induction false} BatchesInOrder(items: seq<Item>, from: nat, n: nat)
    requires |items| - 1 <= n <= |items|
    requires forall i | 0 <= i < n :: items[i] == Batch(from + i)
    requires n < |items| ==> !items[n].Batch?
    ensures Batches(items) == seq(n, i => from + i)
  {
    if n > 0 {
      var rest := items[1..];
      forall i | 0 <= i < n - 1 ensures rest[i] == Batch(from + 1 + i) {
        assert rest[i] == items[i + 1];
      }
      BatchesInOrder(rest, from + 1, n - 1);
      assert items[0] == Batch(from + 0);
      assert [from] + seq(n - 1, i => from + 1 + i) == seq(n, i => from + i);
    } else if items != [] {
      assert Batches(items[1..]) == [];
    }
  }

  /**
   In every interleaving: what was yielded, then queued, then in the worker's hand is the produced
   batches in order without loss or duplicate; the queue is never over capacity; a consumer that
   was not abandoned ends only after every batch, by returning or raising as the extraction did.
   */
  lemma OrderedAndComplete(j: Job, acts: seq<Action>, s: State)
    requires Reaches(j, acts, s)
    ensures Pipeline(s) == seq(|Pipeline(s)|, i => i)
    ensures |Pipeline(s)| <= j.produced
    ensures |s.queue| <= Max(1, j.queueSize)
    ensures forall i | 0 <= i < |s.queue| && !s.queue[i].Batch? :: i == |s.queue| - 1 && s.worker.Ended?
    ensures s.consumer.Finished? && !s.consumer.outcome.Abandoned? ==>
              s.yielded == seq(j.produced, i => i) && (s.consumer.outcome == Raised <==> j.raises)
  {
    InvHolds(j, acts, s);
    BatchesInOrder(s.queue, |s.yielded|, QueuedBatches(s));
  }

  // ---------------------------------------------------------------------------
  // No deadlock while the consumer keeps pulling
  // ---------------------------------------------------------------------------

  function WorkerWork(w: Worker): nat {
    match w
    case Extracting => 5
    case Checking => 4
    case Putting => 2
    case Ending(_) => 3
    case Ended => 0
  }

  function Work(j: Job, s: State): nat
    requires s.emitted <= j.produced
  {
    8 * (j.produced - s.emitted) + WorkerWork(s.worker) + 2 * |s.queue| + if s.consumer.Yielding? then 1 else 0
  }

  /**
   Until the consumer has finished, some step other than a time-out is always possible, and each
   such step leaves less to do; a time-out only sends the worker back to look at the flag.
   */
  lemma AlwaysProgress(j: Job, acts: seq<Action>, s: State)
    requires Reaches(j, acts, s) && !s.consumer.Finished?
    ensures exists a :: a != TimeOut && a != Abandon && Enabled(j, s, a)
    ensures forall a | Enabled(j, s, a) ::
              && Act(j, s, a).emitted <= j.produced
              && (a != TimeOut ==> Work(j, Act(j, s, a)) < Work(j, s))
              && (a == TimeOut ==> Act(j, s, a) == s.(worker := Checking) && |s.queue| == j.Capacity())
  {
    InvHolds(j, acts, s);
    assert s.worker.Extracting? ==> Enabled(j, s, Produce);
    assert s.worker.Checking? ==> Enabled(j, s, LookAtStop);
    assert s.consumer.Yielding? ==> Enabled(j, s, Resume);
    assert s.consumer.Getting? && s.queue != [] ==> Enabled(j, s, Get);
    assert s.worker.Putting? && s.queue == [] ==> Enabled(j, s, Put);
    assert s.worker.Ending? && s.queue == [] ==> Enabled(j, s, FinalPut);
    forall a | Enabled(j, s, a)
      ensures Act(j, s, a).emitted <= j.produced
      ensures a != TimeOut ==> Work(j, Act(j, s, a)) < Work(j, s)
    {
      InvKept(j, s, a);
    }
  }

  // ---------------------------------------------------------------------------
  // Abandonment: exactly when the worker stops
  // ---------------------------------------------------------------------------

  /** The worker's next action; with the consumer gone there is at most one. */
  function WorkerAction(j: Job, s: State): (a: Action)
    requires !s.worker.Ended? && (s.worker.Ending? ==> |s.queue| < j.Capacity())
    ensures Enabled(j, s, a)
  {
    match s.worker
    case Extracting => Produce
    case Checking => LookAtStop
    case Putting => if |s.queue| < j.Capacity() then Put else TimeOut
    case Ending(_) => FinalPut
  }

  predicate Blocked(j: Job, s: State) {
    s.worker.Ending? && |s.queue| >= j.Capacity()
  }

  function Countdown(j: Job, s: State): nat {
    match s.worker
    case Putting => if |s.queue| < j.Capacity() then 4 else 3
    case Extracting => 3
    case Checking => 2
    case Ending(_) => 1
    case Ended => 0
  }

  /** The worker run on its own after the consumer has gone, until it ends or can do nothing. */
  function Leftover(j: Job, s: State): State
    requires s.stop
    decreases Countdown(j, s)
  {
    if s.worker.Ended? || Blocked(j, s) then s else Leftover(j, Act(j, s, WorkerAction(j, s)))
  }

  /** Free slots the worker needs: one for the end marker, and one more if it is past the flag. */
  predicate RoomToEnd(j: Job, s: State) {
    match s.worker
    case Ended => true
    case Putting => |s.queue| + 1 < j.Capacity()
    case _ => |s.queue| < j.Capacity()
  }

  /**
   "Abandoning the iterator early stops the worker" holds exactly when the queue has room for what
   the worker still puts without a time-out; otherwise it stays blocked in its final put.
   */
  lemma {:induction false} AbandonedWorkerEndsIff(j: Job, s: State)
    requires s.stop && |s.queue| <= j.Capacity()
    ensures Leftover(j, s).worker.Ended? <==> RoomToEnd(j, s)
    ensures !RoomToEnd(j, s) ==> Blocked(j, Leftover(j, s))
    decreases Countdown(j, s)
  {
    if !s.worker.Ended? && !Blocked(j, s) {
      AbandonedWorkerEndsIff(j, Act(j, s, WorkerAction(j, s)));
    }
  }

  /** Once the consumer is gone nothing but the worker's one action is possible, so `Leftover` is every run. */
  lemma OnlyTheWorkerMoves(j: Job, s: State, a: Action)
    requires s.consumer.Finished? && Enabled(j, s, a)
    ensures !s.worker.Ended? && !Blocked(j, s) && a == WorkerAction(j, s)
  {
  }

  lemma OneMore(j: Job, acts: seq<Action>, r: State, a: Action)
    requires Reaches(j, acts, r) && Enabled(j, r, a)
    ensures Reaches(j, acts + [a], Act(j, r, a))
  {
    assert (acts + [a])[..|acts|] == acts;
  }

  /** One batch yielded, the next one filling the queue, and the consumer leaves. */
  lemma AnAbandonedWorkerCanBlock() returns (acts: seq<Action>, s: State)
    ensures Reaches(Job(2, false, 1), acts, s) && s.consumer == Finished(Abandoned) && s.stop
    ensures Blocked(Job(2, false, 1), Leftover(Job(2, false, 1), s))
  {
    var j := Job(2, false, 1);
    acts, s := [], START;
    OneMore(j, acts, s, Produce);
    acts, s := acts + [Produce], Act(j, s, Produce);
    OneMore(j, acts, s, LookAtStop);
    acts, s := acts + [LookAtStop], Act(j, s, LookAtStop);
    OneMore(j, acts, s, Put);
    acts, s := acts + [Put], Act(j, s, Put);
    OneMore(j, acts, s, Get);
    acts, s := acts + [Get], Act(j, s, Get);
    OneMore(j, acts, s, Produce);
    acts, s := acts + [Produce], Act(j, s, Produce);
    OneMore(j, acts, s, LookAtStop);
    acts, s := acts + [LookAtStop], Act(j, s, LookAtStop);
    OneMore(j, acts, s, Put);
    acts, s := acts + [Put], Act(j, s, Put);
    OneMore(j, acts, s, Abandon);
    acts, s := acts + [Abandon], Act(j, s, Abandon);
    AbandonedWorkerEndsIff(j, s);
  }

  /** Batches in memory that the consumer has not been given. */
  function Buffered(s: State): nat {
    QueuedBatches(s) + if InHand(s) then 1 else 0
  }

  /** The queue and one in hand: no more batches than that are held at any time. */
  lemma BufferedBound(j: Job, acts: seq<Action>, s: State)
    requires Reaches(j, acts, s)
    ensures Buffered(s) <= j.Capacity() + 1
    ensures Buffered(s) == j.Capacity() + 1 <==> |s.queue| == j.Capacity() && InHand(s)
  {
    InvHolds(j, acts, s);
  }

  /**
   "At most `queue_size` batches are held": with a size of one or more, one too many is exactly when a
   full queue meets a batch in hand; with a size of zero, as soon as any is, the queue taking one all the
   same; and a negative size cannot be met.
   */
  lemma MoreThanAskedIff(j: Job, acts: seq<Action>, s: State)
    requires Reaches(j, acts, s)
    ensures Buffered(s) > j.queueSize <==>
            if j.queueSize >= 1 then |s.queue| == j.queueSize && InHand(s)
            else j.queueSize < 0 || (s.queue != [] && s.queue[0].Batch?) || InHand(s)
  {
    InvHolds(j, acts, s);
  }

  /** The queue filled with the first `n` batches while the consumer waits to be scheduled. */
  function Filled(n: nat): State {
    State(seq(n, i requires 0 <= i < n => Batch(i)), false, Extracting, n, Getting, [])
  }

  lemma {:induction false} FillsUp(j: Job, n: nat) returns (acts: seq<Action>)
    requires n <= j.Capacity() && n <= j.produced
    ensures Reaches(j, acts, Filled(n))
  {
    if n == 0 {
      acts := [];
      assert Filled(0).queue == [];
    } else {
      var before := FillsUp(j, n - 1);
      var s := Filled(n - 1);
      var checking := s.(worker := Checking);
      var putting := s.(worker := Putting);
      OneMore(j, before, s, Produce);
      OneMore(j, before + [Produce], checking, LookAtStop);
      OneMore(j, before + [Produce] + [LookAtStop], putting, Put);
      acts := before + [Produce] + [LookAtStop] + [Put];
      assert s.queue + [Batch(n - 1)] == Filled(n).queue;
      assert Act(j, putting, Put) == Filled(n);
    }
  }

  /** The bound is reached by every extraction that produces more batches than the queue takes. */
  lemma OneMoreThanTheQueueIsHeld(j: Job) returns (acts: seq<Action>, s: State)
    requires j.produced > j.Capacity()
    ensures Reaches(j, acts, s) && Buffered(s) == j.Capacity() + 1
  {
    var before := FillsUp(j, j.Capacity());
    OneMore(j, before, Filled(j.Capacity()), Produce);
    acts, s := before + [Produce], Act(j, Filled(j.Capacity()), Produce);
    InvHolds(j, acts, s);
  }
}

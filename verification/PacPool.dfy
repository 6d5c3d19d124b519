/**
 The PAC worker pool as interleaved steps: callers draw a worker from a shared
 counter and wait for room in its queue; each worker takes requests, arms a
 deadline, evaluates, disarms and replies. Every theorem is about every order of
 steps, any number of workers and any script.
 */
module PacPool {
  import opened Wrappers

  const QUEUE_CAPACITY: nat := 32
  const EVAL_TIMEOUT: nat := 5000
  const USIZE_LIMIT: nat := 0x1_0000_0000_0000_0000

  datatype Query = Query(url: string, host: string)

  /** What a caller gets: the script's answer, or an error. */
  type Answer = Result<string, string>

  /** One evaluation of the script by a worker whose script state is `J`. */
  type Script<!J> = (J, Query) -> (J, Answer)

  const INTERRUPTED: Answer := Err("PAC evaluation error: interrupted")

  /** Where a worker stands in its loop, and with which request. */
  datatype Phase =
    | Idle
    | Loaded(id: nat)
    | Running(id: nat, since: nat)
    | Finished(id: nat, answer: Answer)
    | Disarmed(id: nat, answer: Answer)

  /** One evaluation that came to an end: the request, the script state it
      started from, what it answered, the script state it left, and when its
      deadline was armed and when it ended. */
  datatype Evaluation<J> = Evaluation(id: nat, before: J, answer: Answer, after: J, began: nat, ended: nat)

  /** `script` is the state of the worker's own copy of the script, `initial` the
      state it was loaded with. `accepted`, `past` and `replied` record history. */
  datatype Worker<J> = Worker(
    queue: seq<nat>,
    phase: Phase,
    deadline: Option<nat>,
    initial: J,
    script: J,
    accepted: seq<nat>,
    past: seq<Evaluation<J>>,
    replied: seq<nat>)

  /** Requests are numbered in the order in which they drew from the counter. */
  datatype Pool<J> = Pool(
    next: nat, queries: seq<Query>, drawn: seq<nat>, waiting: set<nat>,
    workers: seq<Worker<J>>, answers: map<nat, Answer>, now: nat)

  /** An interrupted script leaves its state as it may be by then: `after`. */
  datatype Action<J> =
    | Submit(query: Query)
    | Accept(id: nat)
    | Abandon(id: nat)
    | Receive(w: nat)
    | Arm(w: nat)
    | Complete(w: nat)
    | Interrupt(w: nat, after: J)
    | Disarm(w: nat)
    | Reply(w: nat)
    | Tick(elapsed: nat)

  predicate Enabled<J>(p: Pool<J>, a: Action<J>) {
    match a
    case Submit(_) => |p.workers| > 0
    case Accept(id) =>
      && id in p.waiting && id < |p.drawn| && p.drawn[id] < |p.workers|
      && |p.workers[p.drawn[id]].queue| < QUEUE_CAPACITY
    case Abandon(id) => id in p.waiting
    case Receive(w) => w < |p.workers| && p.workers[w].phase.Idle? && p.workers[w].queue != []
    case Arm(w) => w < |p.workers| && p.workers[w].phase.Loaded?
    case Complete(w) =>
      w < |p.workers| && p.workers[w].phase.Running? && p.workers[w].phase.id < |p.queries|
    case Interrupt(w, _) =>
      // the handler fires only once the armed deadline has passed
      && w < |p.workers| && p.workers[w].phase.Running?
      && p.workers[w].deadline.Some? && p.workers[w].deadline.value <= p.now
    case Disarm(w) => w < |p.workers| && p.workers[w].phase.Finished?
    case Reply(w) => w < |p.workers| && p.workers[w].phase.Disarmed?
    case Tick(_) => true
  }

  function WithWorker<J>(p: Pool<J>, w: nat, worker: Worker<J>): Pool<J>
    requires w < |p.workers|
  {
    p.(workers := p.workers[w := worker])
  }

  /** The end of an evaluation. */
  function Ends<J>(worker: Worker<J>, answer: Answer, after: J, now: nat): Worker<J>
    requires worker.phase.Running?
  {
    var id := worker.phase.id;
    worker.(phase := Finished(id, answer), script := after,
            past := worker.past + [Evaluation(id, worker.script, answer, after, worker.phase.since, now)])
  }

  function Do<J>(script: Script<J>, p: Pool<J>, a: Action<J>): Pool<J>
    requires Enabled(p, a)
  {
    match a
    case Submit(query) =>
      p.(next := (p.next + 1) % USIZE_LIMIT,
         queries := p.queries + [query],
         drawn := p.drawn + [p.next % |p.workers|],
         waiting := p.waiting + {|p.queries|})
    case Accept(id) =>
      var w := p.drawn[id];
      var worker := p.workers[w];
      WithWorker(p.(waiting := p.waiting - {id}), w,
                 worker.(queue := worker.queue + [id], accepted := worker.accepted + [id]))
    case Abandon(id) => p.(waiting := p.waiting - {id})
    case Receive(w) =>
      var worker := p.workers[w];
      WithWorker(p, w, worker.(queue := worker.queue[1..], phase := Loaded(worker.queue[0])))
    case Arm(w) =>
      var worker := p.workers[w];
      WithWorker(p, w, worker.(phase := Running(worker.phase.id, p.now), deadline := Some(p.now + EVAL_TIMEOUT)))
    case Complete(w) =>
      var worker := p.workers[w];
      var (after, answer) := script(worker.script, p.queries[worker.phase.id]);
      WithWorker(p, w, Ends(worker, answer, after, p.now))
    case Interrupt(w, after) =>
      var worker := p.workers[w];
      WithWorker(p, w, Ends(worker, INTERRUPTED, after, p.now))
    case Disarm(w) =>
      var worker := p.workers[w];
      WithWorker(p, w, worker.(phase := Disarmed(worker.phase.id, worker.phase.answer), deadline := None))
    case Reply(w) =>
      var worker := p.workers[w];
      WithWorker(p.(answers := p.answers[worker.phase.id := worker.phase.answer]), w,
                 worker.(phase := Idle, replied := worker.replied + [worker.phase.id]))
    case Tick(elapsed) => p.(now := p.now + elapsed)
  }

  // ---- the invariant -------------------------------------------------------

  /** The request a worker is busy with, if any. */
  function Busy(phase: Phase): seq<nat> {
    match phase case Idle => [] case _ => [phase.id]
  }

  /** The evaluation that has ended but is not replied to yet, if any. */
  function Ended(phase: Phase): seq<(nat, Answer)> {
    match phase
    case Finished(id, answer) => [(id, answer)]
    case Disarmed(id, answer) => [(id, answer)]
    case _ => []
  }

  /** An evaluation is the script's own, for exactly that request's url and host
      and from exactly that state; or an interrupted one, and then it lasted for
      at least the time limit. */
  ghost predicate Evaluated<J>(script: Script<J>, queries: seq<Query>, e: Evaluation<J>, now: nat) {
    && e.id < |queries|
    && e.began <= e.ended <= now
    && (|| (e.after, e.answer) == script(e.before, queries[e.id])
        || (e.answer == INTERRUPTED && e.began + EVAL_TIMEOUT <= e.ended))
  }

  /** Each evaluation starts from the state the one before it left. */
  ghost predicate Chained<J>(initial: J, past: seq<Evaluation<J>>, current: J) {
    && (past == [] ==> current == initial)
    && (past != [] ==> past[0].before == initial && past[|past| - 1].after == current)
    && (forall i :: 0 < i < |past| ==> past[i - 1].after == past[i].before)
  }

  predicate Distinct(s: seq<nat>) {
    forall i, j :: 0 <= i < j < |s| ==> s[i] != s[j]
  }

  /** The deadline is set exactly from arming to disarming, one time limit after
      the evaluation began. */
  predicate DeadlineFits<J>(worker: Worker<J>) {
    && (worker.deadline.Some? <==> worker.phase.Running? || worker.phase.Finished?)
    && (worker.phase.Running? ==> worker.deadline == Some(worker.phase.since + EVAL_TIMEOUT))
  }

  /** One worker: first in, first out, a bounded queue, and a deadline exactly
      from arming to disarming. */
  ghost predicate WorkerInv<J>(p: Pool<J>, w: nat)
    requires w < |p.workers| && |p.queries| == |p.drawn|
  {
    var worker := p.workers[w];
    && worker.accepted == worker.replied + Busy(worker.phase) + worker.queue
    && Distinct(worker.accepted)
    && |worker.queue| <= QUEUE_CAPACITY
    && DeadlineFits(worker) && (worker.phase.Running? ==> worker.phase.since <= p.now)
    && (forall id :: id in worker.accepted ==> id < |p.queries| && p.drawn[id] == w && id !in p.waiting)
    && (forall id :: id in worker.replied <==> id in p.answers && id in worker.accepted)
  }

  ghost predicate QueueInv<J>(p: Pool<J>) {
    && |p.workers| > 0
    && |p.queries| == |p.drawn|
    && p.next == |p.queries| % USIZE_LIMIT
    && (forall id :: 0 <= id < |p.drawn| ==> p.drawn[id] == (id % USIZE_LIMIT) % |p.workers|)
    && (forall id :: id in p.waiting ==> id < |p.queries| && id !in p.answers)
    && (forall id :: id in p.answers ==> id < |p.queries| && id in p.workers[p.drawn[id]].replied)
    && (forall w :: 0 <= w < |p.workers| ==> WorkerInv(p, w))
  }

  /** The worker's evaluations are those of the requests replied to, in order,
      and of the one that has ended; they form one history of its own script
      from the state it was loaded with; and their answers are what was replied. */
  ghost predicate PastInv<J>(script: Script<J>, p: Pool<J>, w: nat)
    requires w < |p.workers|
  {
    var worker := p.workers[w];
    var past, done, ended := worker.past, worker.replied, Ended(worker.phase);
    && |past| == |done| + |ended|
    && (forall i :: 0 <= i < |done| ==>
          past[i].id == done[i] && done[i] in p.answers && p.answers[done[i]] == past[i].answer)
    && (ended != [] ==> (past[|done|].id, past[|done|].answer) == ended[0])
    && (forall i :: 0 <= i < |past| ==> Evaluated(script, p.queries, past[i], p.now))
    && Chained(worker.initial, past, worker.script)
  }

  ghost predicate Inv<J>(script: Script<J>, p: Pool<J>) {
    QueueInv(p) && forall w :: 0 <= w < |p.workers| ==> PastInv(script, p, w)
  }

  /** A pool before any request: `n` idle workers whose script is loaded. */
  function Start<J>(states: seq<J>): Pool<J> {
    Pool(0, [], [], {},
         seq(|states|, i requires 0 <= i < |states| => Worker([], Idle, None, states[i], states[i], [], [], [])), map[], 0)
  }

  lemma StartInv<J>(script: Script<J>, states: seq<J>)
    requires states != []
    ensures Inv(script, Start(states))
  {
    var p := Start(states);
    forall w | 0 <= w < |p.workers|
      ensures WorkerInv(p, w) && PastInv(script, p, w)
    {
      assert p.workers[w] == Worker([], Idle, None, states[w], states[w], [], [], []);
    }
    hide WorkerInv, PastInv;
  }

  // ---- preservation: queues and deadlines -----------------------------------

  /** A step that changes one worker and nothing the other workers depend on. */
  lemma OtherWorkersKeep<J>(p: Pool<J>, q: Pool<J>, w: nat, v: nat)
    requires |p.queries| == |p.drawn| && w < |p.workers| && |q.workers| == |p.workers|
    requires v < |p.workers| && v != w && WorkerInv(p, v) && q.workers[v] == p.workers[v]
    requires q.queries == p.queries && q.drawn == p.drawn && q.waiting <= p.waiting && q.now == p.now
    requires forall id :: id in p.answers ==> id in q.answers
    requires forall id :: id in q.answers && id !in p.answers ==> id < |p.drawn| && p.drawn[id] == w
    ensures WorkerInv(q, v)
  {
    hide Distinct;
  }

  lemma SubmitKeeps<J>(script: Script<J>, p: Pool<J>, query: Query)
    requires QueueInv(p)
    ensures QueueInv(Do(script, p, Submit(query)))
  {
    hide Distinct;
    var q := Do(script, p, Submit(query));
    forall v | 0 <= v < |q.workers|
      ensures WorkerInv(q, v)
    {
      assert WorkerInv(p, v);
    }
    NextDraw(|p.queries|);
  }

  /** Drawing from the counter keeps it at the number of draws, modulo its range. */
  lemma NextDraw(n: nat)
    ensures (n % USIZE_LIMIT + 1) % USIZE_LIMIT == (n + 1) % USIZE_LIMIT
  {
    var q, r := n / USIZE_LIMIT, n % USIZE_LIMIT;
    assert n + 1 == USIZE_LIMIT * q + (r + 1);
    if r + 1 == USIZE_LIMIT {
      assert n + 1 == USIZE_LIMIT * (q + 1);
    }
  }

  lemma AcceptKeeps<J>(script: Script<J>, p: Pool<J>, id: nat)
    requires QueueInv(p) && Enabled(p, Accept(id))
    ensures QueueInv(Do(script, p, Accept(id)))
  {
    var q, w := Do(script, p, Accept(id)), p.drawn[id];
    forall v | 0 <= v < |q.workers|
      ensures WorkerInv(q, v)
    {
      assert WorkerInv(p, v);
      if v != w {
        OtherWorkersKeep(p, q, w, v);
      }
    }
  }

  lemma QueueSteps<J>(script: Script<J>, p: Pool<J>, a: Action<J>)
    requires QueueInv(p) && Enabled(p, a) && (a.Abandon? || a.Receive? || a.Tick?)
    ensures QueueInv(Do(script, p, a))
  {
    hide Distinct;
    var q := Do(script, p, a);
    forall v | 0 <= v < |q.workers|
      ensures WorkerInv(q, v)
    {
      assert WorkerInv(p, v);
    }
  }

  /** A worker moving on with the same request, its deadline set to match. */
  lemma SameRequest<J>(p: Pool<J>, w: nat, worker: Worker<J>)
    requires QueueInv(p) && w < |p.workers|
    requires var before := p.workers[w];
             && worker.queue == before.queue && worker.accepted == before.accepted && worker.replied == before.replied
             && Busy(worker.phase) == Busy(before.phase)
    requires DeadlineFits(worker) && (worker.phase.Running? ==> worker.phase.since <= p.now)
    ensures QueueInv(WithWorker(p, w, worker))
  {
    hide Distinct, Busy;
    var q := WithWorker(p, w, worker);
    forall v | 0 <= v < |q.workers|
      ensures WorkerInv(q, v)
    {
      assert WorkerInv(p, v);
    }
  }

  lemma EvaluationSteps<J>(script: Script<J>, p: Pool<J>, a: Action<J>)
    requires QueueInv(p) && Enabled(p, a) && (a.Arm? || a.Complete? || a.Interrupt? || a.Disarm?)
    ensures QueueInv(Do(script, p, a))
  {
    assert WorkerInv(p, a.w);
    hide QueueInv, Distinct;
    SameRequest(p, a.w, Do(script, p, a).workers[a.w]);
  }

  /** The request under way is the next accepted one after those replied to. */
  lemma BusyIsAccepted<J>(p: Pool<J>, w: nat)
    requires QueueInv(p) && w < |p.workers| && !p.workers[w].phase.Idle?
    ensures var worker := p.workers[w];
            && worker.phase.id in worker.accepted && worker.phase.id < |p.queries|
            && p.drawn[worker.phase.id] == w
            && |worker.replied| < |worker.accepted| && worker.accepted[|worker.replied|] == worker.phase.id
            && worker.phase.id !in worker.replied && worker.phase.id !in p.answers
  {
    var worker := p.workers[w];
    assert WorkerInv(p, w);
    assert worker.accepted[|worker.replied|] == worker.phase.id;
    assert forall i :: 0 <= i < |worker.replied| ==> worker.accepted[i] == worker.replied[i];
  }

  lemma ReplyKeeps<J>(script: Script<J>, p: Pool<J>, w: nat)
    requires QueueInv(p) && Enabled(p, Reply(w))
    ensures QueueInv(Do(script, p, Reply(w)))
  {
    hide Distinct;
    var q, worker := Do(script, p, Reply(w)), p.workers[w];
    assert WorkerInv(p, w);
    BusyIsAccepted(p, w);
    assert q.workers[w].replied + [] == worker.replied + [worker.phase.id];
    forall v | 0 <= v < |q.workers|
      ensures WorkerInv(q, v)
    {
      assert WorkerInv(p, v);
      if v != w {
        OtherWorkersKeep(p, q, w, v);
      }
    }
  }

  lemma QueueInvKept<J>(script: Script<J>, p: Pool<J>, a: Action<J>)
    requires QueueInv(p) && Enabled(p, a)
    ensures QueueInv(Do(script, p, a))
  {
    hide QueueInv, Enabled, Do;
    match a
    case Submit(query) => SubmitKeeps(script, p, query);
    case Accept(id) => AcceptKeeps(script, p, id);
    case Abandon(_) => QueueSteps(script, p, a);
    case Receive(_) => QueueSteps(script, p, a);
    case Tick(_) => QueueSteps(script, p, a);
    case Arm(_) => EvaluationSteps(script, p, a);
    case Complete(_) => EvaluationSteps(script, p, a);
    case Interrupt(_, _) => EvaluationSteps(script, p, a);
    case Disarm(_) => EvaluationSteps(script, p, a);
    case Reply(w) => ReplyKeeps(script, p, w);
  }

  // ---- preservation: evaluations -------------------------------------------

  /** A step that is no end of an evaluation and no reply for this worker. */
  lemma SamePast<J>(script: Script<J>, p: Pool<J>, q: Pool<J>, v: nat)
    requires v < |p.workers| == |q.workers| && PastInv(script, p, v) && p.queries <= q.queries && p.now <= q.now
    requires var a, b := p.workers[v], q.workers[v];
             && b.past == a.past && b.replied == a.replied && b.initial == a.initial && b.script == a.script
             && Ended(b.phase) == Ended(a.phase)
    requires forall id :: id in p.answers ==> id in q.answers && q.answers[id] == p.answers[id]
    ensures PastInv(script, q, v)
  {
    hide Ended, Chained;
  }

  /** An evaluation that ends is the worker's next, from the state it is in. */
  lemma EndKeeps<J>(script: Script<J>, p: Pool<J>, w: nat, answer: Answer, after: J)
    requires w < |p.workers| && PastInv(script, p, w) && p.workers[w].phase.Running?
    requires var worker := p.workers[w];
             Evaluated(script, p.queries,
                       Evaluation(worker.phase.id, worker.script, answer, after, worker.phase.since, p.now), p.now)
    ensures PastInv(script, WithWorker(p, w, Ends(p.workers[w], answer, after, p.now)), w)
  {
    var worker := p.workers[w];
    var e := Evaluation(worker.phase.id, worker.script, answer, after, worker.phase.since, p.now);
    ChainGrows(worker.initial, worker.past, worker.script, e);
    hide Evaluated, Chained;
    assert Ends(worker, answer, after, p.now).past == worker.past + [e];
  }

  lemma ChainGrows<J>(initial: J, past: seq<Evaluation<J>>, current: J, e: Evaluation<J>)
    requires Chained(initial, past, current) && e.before == current
    ensures Chained(initial, past + [e], e.after)
  {
  }

  lemma ReplyPast<J>(script: Script<J>, p: Pool<J>, w: nat)
    requires Enabled(p, Reply(w)) && PastInv(script, p, w)
    requires p.workers[w].phase.id !in p.workers[w].replied
    ensures PastInv(script, Do(script, p, Reply(w)), w)
  {
    hide Chained, Evaluated;
    var worker, after := p.workers[w], Do(script, p, Reply(w)).workers[w];
    var id, answer := worker.phase.id, worker.phase.answer;
    assert Ended(worker.phase) == [(id, answer)] && Ended(after.phase) == [];
    assert after.replied == worker.replied + [id] && after.past == worker.past;
    assert forall i :: 0 <= i < |worker.replied| ==> worker.replied[i] in worker.replied;
    assert (worker.past[|worker.replied|].id, worker.past[|worker.replied|].answer) == (id, answer);
  }

  lemma EndPast<J>(script: Script<J>, p: Pool<J>, a: Action<J>)
    requires (a.Complete? || a.Interrupt?) && Enabled(p, a) && PastInv(script, p, a.w)
    requires p.workers[a.w].phase.id < |p.queries| && p.workers[a.w].phase.since <= p.now
    requires DeadlineFits(p.workers[a.w])
    ensures PastInv(script, Do(script, p, a), a.w)
  {
    var worker := p.workers[a.w];
    var (after, answer) := if a.Complete? then script(worker.script, p.queries[worker.phase.id]) else (a.after, INTERRUPTED);
    hide PastInv, Chained;
    EndKeeps(script, p, a.w, answer, after);
  }

  /** A step of another worker or one that leaves this worker's evaluations alone. */
  lemma OtherPast<J>(script: Script<J>, p: Pool<J>, a: Action<J>, v: nat)
    requires Enabled(p, a) && v < |p.workers| && PastInv(script, p, v)
    requires (a.Complete? || a.Interrupt? || a.Reply?) ==> a.w != v
    requires a.Reply? ==> p.workers[a.w].phase.id !in p.answers
    ensures PastInv(script, Do(script, p, a), v)
  {
    hide PastInv, Chained, Evaluated;
    SamePast(script, p, Do(script, p, a), v);
  }

  lemma PastKept<J>(script: Script<J>, p: Pool<J>, a: Action<J>, v: nat)
    requires QueueInv(p) && Enabled(p, a) && v < |p.workers| && PastInv(script, p, v)
    ensures |Do(script, p, a).workers| == |p.workers| && PastInv(script, Do(script, p, a), v)
  {
    SameWorkers(script, p, a);
    if a.Complete? || a.Interrupt? || a.Reply? {
      BusyIsAccepted(p, a.w);
      assert WorkerInv(p, a.w);
    }
    hide QueueInv, PastInv, Do, Distinct;
    if (a.Complete? || a.Interrupt?) && a.w == v {
      EndPast(script, p, a);
    } else if a.Reply? && a.w == v {
      ReplyPast(script, p, v);
    } else {
      OtherPast(script, p, a, v);
    }
  }

  /** Every step of every interleaving keeps the invariant. */
  lemma StepKeeps<J>(script: Script<J>, p: Pool<J>, a: Action<J>)
    requires Inv(script, p) && Enabled(p, a)
    ensures Inv(script, Do(script, p, a))
  {
    hide QueueInv, PastInv, Enabled, Do;
    QueueInvKept(script, p, a);
    assert |Do(script, p, a).workers| == |p.workers| by {
      SameWorkers(script, p, a);
    }
    forall v | 0 <= v < |p.workers|
      ensures PastInv(script, Do(script, p, a), v)
    {
      PastKept(script, p, a, v);
    }
  }

  /** No step changes the number of workers or what they were loaded with, and
      a script's state changes only with the end of an evaluation: so an
      evaluation starts from the state in which its deadline was armed. */
  lemma SameWorkers<J>(script: Script<J>, p: Pool<J>, a: Action<J>)
    requires Enabled(p, a)
    ensures var q := Do(script, p, a);
            && |q.workers| == |p.workers|
            && forall w :: 0 <= w < |p.workers| ==>
                 && q.workers[w].initial == p.workers[w].initial && p.workers[w].past <= q.workers[w].past
                 && (q.workers[w].past == p.workers[w].past ==> q.workers[w].script == p.workers[w].script)
  {
  }

  // ---- every run -----------------------------------------------------------

  /** The pools a sequence of steps can lead through. */
  ghost predicate Leads<J>(script: Script<J>, p: Pool<J>, actions: seq<Action<J>>, q: Pool<J>)
    decreases |actions|
  {
    if actions == [] then q == p
    else Enabled(p, actions[0]) && Leads(script, Do(script, p, actions[0]), actions[1..], q)
  }

  /** The queries callers submit in the course of a run, in order. */
  function Submitted<J>(actions: seq<Action<J>>): seq<Query> {
    if actions == [] then []
    else (if actions[0].Submit? then [actions[0].query] else []) + Submitted(actions[1..])
  }

  /** Requests are numbered in the order of submission and keep their own query. */
  lemma {:induction false} QueriesAreSubmitted<J>(script: Script<J>, p: Pool<J>, actions: seq<Action<J>>, q: Pool<J>)
    requires Leads(script, p, actions, q)
    ensures q.queries == p.queries + Submitted(actions)
    decreases |actions|
  {
    if actions != [] {
      var next := Do(script, p, actions[0]);
      assert next.queries == p.queries + (if actions[0].Submit? then [actions[0].query] else []);
      hide Do, Enabled;
      QueriesAreSubmitted(script, next, actions[1..], q);
    }
  }

  /** Whatever the interleaving, the invariant holds at every point of it, and no
      answer and no evaluation is ever changed. */
  lemma {:induction false} EveryRun<J>(script: Script<J>, p: Pool<J>, actions: seq<Action<J>>, q: Pool<J>)
    requires Inv(script, p) && Leads(script, p, actions, q)
    ensures Inv(script, q)
    ensures |q.workers| == |p.workers|
    ensures forall w :: 0 <= w < |p.workers| ==>
              q.workers[w].initial == p.workers[w].initial && p.workers[w].past <= q.workers[w].past
    ensures forall id :: id in p.answers ==> id in q.answers && q.answers[id] == p.answers[id]
    ensures p.queries <= q.queries
    decreases |actions|
  {
    hide Inv, Enabled, Do;
    if actions != [] {
      StepKeeps(script, p, actions[0]);
      SameWorkers(script, p, actions[0]);
      AnswersStay(script, p, actions[0]);
      EveryRun(script, Do(script, p, actions[0]), actions[1..], q);
    }
  }

  /** A request is answered at most once: the reply is to a request that has no
      answer yet, and an answer given is never changed. */
  lemma AnswersStay<J>(script: Script<J>, p: Pool<J>, a: Action<J>)
    requires Inv(script, p) && Enabled(p, a)
    ensures var q := Do(script, p, a);
            && |q.workers| == |p.workers| && p.queries <= q.queries
            && forall id :: id in p.answers ==> id in q.answers && q.answers[id] == p.answers[id]
    ensures a.Reply? ==> p.workers[a.w].phase.id !in p.answers
  {
    if a.Reply? {
      BusyIsAccepted(p, a.w);
    }
    hide QueueInv, PastInv;
  }

  /** Every run of a new pool: the invariant holds and each worker's history
      starts from the script it was loaded with; so each accepted request is in
      exactly one place, and an answer is the one its own worker's script gave. */
  lemma FromStart<J>(script: Script<J>, states: seq<J>, actions: seq<Action<J>>, q: Pool<J>)
    requires states != [] && Leads(script, Start(states), actions, q)
    ensures Inv(script, q) && |q.workers| == |states|
    ensures forall w :: 0 <= w < |states| ==> q.workers[w].initial == states[w]
    ensures forall w, id :: 0 <= w < |states| && id in q.workers[w].accepted ==>
              InOnePlace(q, id) && (id in q.answers ==> AnsweredBy(script, q, w, id))
  {
    StartInv(script, states);
    EveryRun(script, Start(states), actions, q);
    hide Inv, Leads, InOnePlace, AnsweredBy;
    forall w, id: nat | 0 <= w < |states| && id in q.workers[w].accepted
      ensures InOnePlace(q, id) && (id in q.answers ==> AnsweredBy(script, q, w, id))
    {
      ExactlyOnePlace(script, q, w, id);
    }
  }

  // ---- what the invariant means --------------------------------------------

  /** The places a request can be in once a worker's queue has accepted it. */
  predicate Queued<J>(p: Pool<J>, id: nat) {
    id < |p.drawn| && p.drawn[id] < |p.workers| && id in p.workers[p.drawn[id]].queue
  }

  predicate UnderWay<J>(p: Pool<J>, id: nat) {
    id < |p.drawn| && p.drawn[id] < |p.workers| && id in Busy(p.workers[p.drawn[id]].phase)
  }

  ghost predicate InOnePlace<J>(p: Pool<J>, id: nat) {
    && (Queued(p, id) || UnderWay(p, id) || id in p.answers)
    && !(Queued(p, id) && UnderWay(p, id)) && !(Queued(p, id) && id in p.answers)
    && !(UnderWay(p, id) && id in p.answers)
    && id !in p.waiting
  }

  /** The answer is that of one of the worker's own evaluations, which is the
      script's for the request's own url and host, from the state the worker's
      script was in then. */
  ghost predicate AnsweredBy<J>(script: Script<J>, p: Pool<J>, w: nat, id: nat)
    requires w < |p.workers| && id in p.answers
  {
    var past := p.workers[w].past;
    exists i :: 0 <= i < |past| && past[i].id == id && p.answers[id] == past[i].answer && Evaluated(script, p.queries, past[i], p.now)
  }

  /** Each accepted request is in exactly one place: queued, under way, or
      answered; and the answer is the worker's own script's, for its url and host. */
  lemma ExactlyOnePlace<J>(script: Script<J>, p: Pool<J>, w: nat, id: nat)
    requires Inv(script, p) && w < |p.workers| && id in p.workers[w].accepted
    ensures InOnePlace(p, id)
    ensures id in p.answers ==> AnsweredBy(script, p, w, id)
  {
    OnePlace(p, w, id);
    assert WorkerInv(p, w) && PastInv(script, p, w);
    hide QueueInv, InOnePlace, Distinct, Evaluated, Chained;
    if id in p.answers {
      var i :| 0 <= i < |p.workers[w].replied| && p.workers[w].replied[i] == id;
      assert p.workers[w].past[i].id == id;
    }
  }

  lemma OnePlace<J>(p: Pool<J>, w: nat, id: nat)
    requires QueueInv(p) && w < |p.workers| && id in p.workers[w].accepted
    ensures InOnePlace(p, id)
  {
    assert WorkerInv(p, w);
    var worker := p.workers[w];
    var done, busy := worker.replied, Busy(worker.phase);
    PartsAreDisjoint(done, busy, worker.queue);
    assert id in done + busy + worker.queue;
  }

  /** The state a script is in after answering these queries in this order. */
  function StateAfterAll<J>(script: Script<J>, initial: J, queries: seq<Query>): J {
    if queries == [] then initial
    else
      var last := |queries| - 1;
      script(StateAfterAll(script, initial, queries[..last]), queries[last]).0
  }

  /** The queries of a worker's first `k` evaluations, in order. */
  function QueriesOf<J>(p: Pool<J>, w: nat, k: nat): (queries: seq<Query>)
    requires w < |p.workers| && k <= |p.workers[w].past|
    requires forall i :: 0 <= i < |p.workers[w].past| ==> p.workers[w].past[i].id < |p.queries|
    ensures |queries| == k
  {
    seq(k, i requires 0 <= i < k => p.queries[p.workers[w].past[i].id])
  }

  lemma PastIdsKnown<J>(script: Script<J>, p: Pool<J>, w: nat)
    requires Inv(script, p) && w < |p.workers|
    ensures var worker := p.workers[w];
            && |worker.replied| <= |worker.past|
            && forall i :: 0 <= i < |worker.past| ==> worker.past[i].id < |p.queries|
  {
    assert PastInv(script, p, w);
    hide QueueInv, Chained;
    assert forall i :: 0 <= i < |p.workers[w].past| ==> Evaluated(script, p.queries, p.workers[w].past[i], p.now);
  }

  /** An evaluation that was not cut off: it ended within the time limit, or its
      answer shows that it was not interrupted. */
  predicate InTime<J>(e: Evaluation<J>) {
    e.ended < e.began + EVAL_TIMEOUT || e.answer != INTERRUPTED
  }

  /** A worker whose evaluations end in time is its script run on the queries it
      accepted, one after the other: its `k`th answer is the script's for the
      `k`th request it accepted, from the state the earlier ones left. */
  lemma AnswersAreTheScripts<J>(script: Script<J>, p: Pool<J>, w: nat, k: nat)
    requires Inv(script, p) && w < |p.workers| && k < |p.workers[w].replied| && k < |p.workers[w].past|
    requires forall i :: 0 <= i <= k ==> InTime(p.workers[w].past[i])
    ensures var worker, id := p.workers[w], p.workers[w].replied[k];
            && k < |worker.accepted| && worker.accepted[k] == id && id < |p.queries| && id in p.answers
            && (forall i :: 0 <= i < |worker.past| ==> worker.past[i].id < |p.queries|)
            && p.answers[id]
            == script(StateAfterAll(script, worker.initial, QueriesOf(p, w, k)), p.queries[id]).1
  {
    FirstInFirstOut(script, p, w);
    PastIdsKnown(script, p, w);
    StateBefore(script, p, w, k);
    assert PastInv(script, p, w);
    hide QueueInv, Chained, StateAfterAll;
    assert Evaluated(script, p.queries, p.workers[w].past[k], p.now) && InTime(p.workers[w].past[k]);
  }

  lemma {:induction false} StateBefore<J>(script: Script<J>, p: Pool<J>, w: nat, k: nat)
    requires w < |p.workers| && PastInv(script, p, w) && k < |p.workers[w].past|
    requires forall i :: 0 <= i < |p.workers[w].past| ==> p.workers[w].past[i].id < |p.queries|
    requires forall i :: 0 <= i < k ==> InTime(p.workers[w].past[i])
    ensures p.workers[w].past[k].before == StateAfterAll(script, p.workers[w].initial, QueriesOf(p, w, k))
  {
    var past := p.workers[w].past;
    assert Chained(p.workers[w].initial, past, p.workers[w].script);
    if k > 0 {
      StateBefore(script, p, w, k - 1);
      assert InTime(past[k - 1]);
      assert Evaluated(script, p.queries, past[k - 1], p.now) && past[k].before == past[k - 1].after;
      assert QueriesOf(p, w, k)[..k - 1] == QueriesOf(p, w, k - 1);
      assert QueriesOf(p, w, k)[k - 1] == p.queries[past[k - 1].id];
    } else {
      assert QueriesOf(p, w, 0) == [];
    }
  }

  /** How an evaluation ends: on its own, with what the script gives for the
      request under way from the worker's state; or interrupted, when the armed
      deadline has passed. It is recorded with the times it began and ended. */
  lemma EvaluationEnds<J>(script: Script<J>, p: Pool<J>, a: Action<J>)
    requires Inv(script, p) && Enabled(p, a) && (a.Complete? || a.Interrupt?)
    ensures var before, after := p.workers[a.w], Do(script, p, a).workers[a.w];
            && |after.past| == |before.past| + 1
            && before.phase.id < |p.queries|
            && var e := after.past[|before.past|];
            && e.id == before.phase.id && after.phase == Finished(e.id, e.answer)
            && before.deadline == Some(e.began + EVAL_TIMEOUT) && e.ended == p.now
            && e.before == before.script && e.after == after.script
            && (a.Complete? ==> (e.after, e.answer) == script(before.script, p.queries[before.phase.id]))
            && (a.Interrupt? ==> e.answer == INTERRUPTED && e.began + EVAL_TIMEOUT <= e.ended && e.after == a.after)
  {
    BusyIsAccepted(p, a.w);
    assert WorkerInv(p, a.w);
    hide QueueInv, PastInv, Distinct;
  }

  /** Every run of a new pool whose evaluations all end in time: each answer of
      each worker is the one its script gives. */
  lemma AllAnswersAreTheScripts<J>(script: Script<J>, states: seq<J>, actions: seq<Action<J>>, q: Pool<J>, w: nat, k: nat)
    requires states != [] && Leads(script, Start(states), actions, q) && w < |states| == |q.workers|
    requires forall i :: 0 <= i < |q.workers[w].past| ==> InTime(q.workers[w].past[i])
    requires k < |q.workers[w].replied|
    ensures var id := q.workers[w].replied[k];
            && id < |q.queries| && id in q.answers && k <= |q.workers[w].past|
            && (forall i :: 0 <= i < |q.workers[w].past| ==> q.workers[w].past[i].id < |q.queries|)
            && q.answers[id] == script(StateAfterAll(script, states[w], QueriesOf(q, w, k)), q.queries[id]).1
  {
    FromStart(script, states, actions, q);
    PastIdsKnown(script, q, w);
    hide Inv, Leads, Start, StateAfterAll;
    AnswersAreTheScripts(script, q, w, k);
  }

  lemma PartsAreDisjoint(a: seq<nat>, b: seq<nat>, c: seq<nat>)
    requires Distinct(a + b + c)
    ensures forall x :: !(x in a && x in b) && !(x in a && x in c) && !(x in b && x in c)
    ensures forall x :: x in a + b + c <==> x in a || x in b || x in c
  {
    var s := a + b + c;
    assert forall i :: 0 <= i < |a| ==> s[i] == a[i];
    assert forall i :: 0 <= i < |b| ==> s[|a| + i] == b[i];
    assert forall i :: 0 <= i < |c| ==> s[|a| + |b| + i] == c[i];
  }

  /** First in, first out: what a worker has replied to is an initial part of
      what it accepted, and the request under way comes next. */
  lemma FirstInFirstOut<J>(script: Script<J>, p: Pool<J>, w: nat)
    requires Inv(script, p) && w < |p.workers|
    ensures var worker := p.workers[w];
            && worker.replied <= worker.accepted
            && (!worker.phase.Idle? ==>
                  |worker.replied| < |worker.accepted| && worker.accepted[|worker.replied|] == worker.phase.id)
            && |worker.queue| <= QUEUE_CAPACITY
  {
    hide PastInv, Distinct;
    assert WorkerInv(p, w);
  }

  /** The deadline is armed whenever the script runs and disarmed whenever the
      worker replies; an interruption only ends an evaluation that has run for
      the whole time limit. */
  lemma DeadlineGuardsEvaluation<J>(script: Script<J>, p: Pool<J>, w: nat)
    requires Inv(script, p) && w < |p.workers|
    ensures Enabled(p, Complete(w)) ==> p.workers[w].deadline.Some?
    ensures Enabled(p, Reply(w)) ==> p.workers[w].deadline.None?
    ensures Enabled(p, Receive(w)) ==> p.workers[w].deadline.None?
    ensures forall after :: Enabled(p, Interrupt(w, after)) ==> p.workers[w].phase.since + EVAL_TIMEOUT <= p.now
  {
    hide PastInv, Distinct;
    assert WorkerInv(p, w);
  }

  /** No interleaving gets stuck: while a request waits or is unanswered, some
      worker or some waiting caller can take a step. */
  lemma NeverStuck<J>(script: Script<J>, p: Pool<J>) returns (a: Action<J>)
    requires Inv(script, p)
    requires p.waiting != {} || exists w :: 0 <= w < |p.workers| && p.workers[w].replied != p.workers[w].accepted
    ensures Enabled(p, a) && !a.Submit? && !a.Abandon? && !a.Tick?
  {
    hide PastInv, Distinct;
    if w :| 0 <= w < |p.workers| && p.workers[w].replied != p.workers[w].accepted {
      a := NextOf(script, p, w);
    } else {
      var id :| id in p.waiting;
      var w := p.drawn[id];
      assert WorkerInv(p, w);
      if |p.workers[w].queue| < QUEUE_CAPACITY {
        a := Accept(id);
      } else {
        a := NextOf(script, p, w);
      }
    }
  }

  lemma NextOf<J>(script: Script<J>, p: Pool<J>, w: nat) returns (a: Action<J>)
    requires Inv(script, p) && w < |p.workers| && p.workers[w].replied != p.workers[w].accepted
    ensures Enabled(p, a) && !a.Submit? && !a.Abandon? && !a.Tick?
  {
    hide PastInv, Distinct;
    assert WorkerInv(p, w);
    match p.workers[w].phase
    case Idle => a := Receive(w);
    case Loaded(_) => a := Arm(w);
    case Running(_, _) => BusyIsAccepted(p, w); a := Complete(w);
    case Finished(_, _) => a := Disarm(w);
    case Disarmed(_, _) => a := Reply(w);
  }

  // ---- balance -------------------------------------------------------------

  /** How many of the first `k` draws went to worker `w`, of `n`. */
  function Load(k: nat, w: nat, n: nat): nat
    requires n > 0
  {
    if k == 0 then 0
    else Load(k - 1, w, n) + (if ((k - 1) % USIZE_LIMIT) % n == w then 1 else 0)
  }

  /** `Load` counts the requests assigned to the worker. */
  function CountOf(s: seq<nat>, w: nat): nat {
    if s == [] then 0 else CountOf(s[..|s| - 1], w) + (if s[|s| - 1] == w then 1 else 0)
  }

  lemma {:induction false} LoadCounts<J>(script: Script<J>, p: Pool<J>, w: nat, k: nat)
    requires Inv(script, p) && k <= |p.drawn|
    ensures CountOf(p.drawn[..k], w) == Load(k, w, |p.workers|)
  {
    hide WorkerInv, PastInv;
    if k > 0 {
      LoadCounts(script, p, w, k - 1);
      assert p.drawn[..k][..k - 1] == p.drawn[..k - 1];
    }
  }

  lemma DivModNext(k: nat, n: nat)
    requires n > 0
    ensures if k % n + 1 < n then (k + 1) / n == k / n && (k + 1) % n == k % n + 1
            else (k + 1) / n == k / n + 1 && (k + 1) % n == 0
  {
    var q, r := k / n, k % n;
    assert k == n * q + r;
    if r + 1 < n {
      DivModUnique(k + 1, n, q, r + 1);
    } else {
      assert n * (q + 1) == n * q + n;
      DivModUnique(k + 1, n, q + 1, 0);
    }
  }

  lemma DivModUnique(x: nat, n: nat, q: nat, r: nat)
    requires n > 0 && x == n * q + r && r < n
    ensures x / n == q && x % n == r
  {
    assert x == n * (x / n) + x % n;
    NextMultiple(n, q, x / n);
    NextMultiple(n, x / n, q);
  }

  lemma {:induction false} NextMultiple(n: nat, a: nat, b: nat)
    ensures a < b ==> n * a + n <= n * b
    decreases b
  {
    if a + 1 < b {
      NextMultiple(n, a, b - 1);
      assert n * b == n * (b - 1) + n;
    }
  }

  /** Before the counter wraps, worker `w` has had every `n`th draw. */
  lemma {:induction false} LoadBeforeWrap(k: nat, w: nat, n: nat)
    requires n > 0 && w < n && k <= USIZE_LIMIT
    ensures Load(k, w, n) == k / n + (if w < k % n then 1 else 0)
  {
    if k > 0 {
      LoadBeforeWrap(k - 1, w, n);
      DivModNext(k - 1, n);
      assert (k - 1) % USIZE_LIMIT == k - 1;
    } else {
      DivModUnique(0, n, 0, 0);
    }
  }

  /** Until the counter wraps, any two workers' loads differ by at most one. */
  lemma BalancedUntilWrap<J>(script: Script<J>, p: Pool<J>, v: nat, w: nat)
    requires Inv(script, p) && |p.drawn| <= USIZE_LIMIT && v < |p.workers| && w < |p.workers|
    ensures CountOf(p.drawn, v) <= CountOf(p.drawn, w) + 1
  {
    var k := |p.drawn|;
    CountIsLoad(script, p, v);
    CountIsLoad(script, p, w);
    LoadBeforeWrap(k, v, |p.workers|);
    LoadBeforeWrap(k, w, |p.workers|);
  }

  /** When the number of workers divides the counter's range, wrapping changes
      nothing: the loads stay within one of each other for ever. */
  lemma {:induction false} LoadWhenDividing(k: nat, w: nat, n: nat)
    requires n > 0 && w < n && USIZE_LIMIT % n == 0
    ensures Load(k, w, n) == k / n + (if w < k % n then 1 else 0)
  {
    if k > 0 {
      LoadWhenDividing(k - 1, w, n);
      DivModNext(k - 1, n);
      WrapKeepsRemainder(k - 1, n);
    } else {
      DivModUnique(0, n, 0, 0);
    }
  }

  lemma WrapKeepsRemainder(i: nat, n: nat)
    requires n > 0 && USIZE_LIMIT % n == 0
    ensures (i % USIZE_LIMIT) % n == i % n
  {
    var m, c, r := USIZE_LIMIT / n, i / USIZE_LIMIT, i % USIZE_LIMIT;
    var q, s := r / n, r % n;
    assert i == USIZE_LIMIT * c + r && USIZE_LIMIT == n * m && r == n * q + s;
    assert (n * m) * c == n * (m * c);
    assert n * (m * c) + n * q == n * (m * c + q);
    DivModUnique(i, n, m * c + q, s);
  }

  /** When it does not, the first draw after the wrap gives worker 0 two more
      than the last worker. */
  lemma UnbalancedAfterWrap(n: nat)
    requires n > 0 && USIZE_LIMIT % n != 0
    ensures Load(USIZE_LIMIT + 1, 0, n) == Load(USIZE_LIMIT + 1, n - 1, n) + 2
  {
    LoadBeforeWrap(USIZE_LIMIT, 0, n);
    LoadBeforeWrap(USIZE_LIMIT, n - 1, n);
    DivModUnique(0, n, 0, 0);
    DivModUnique(USIZE_LIMIT, 1, USIZE_LIMIT, 0);
    hide Load;
    LoadNext(USIZE_LIMIT, 0, n);
    LoadNext(USIZE_LIMIT, n - 1, n);
  }

  lemma LoadNext(k: nat, w: nat, n: nat)
    requires n > 0
    ensures Load(k + 1, w, n) == Load(k, w, n) + (if (k % USIZE_LIMIT) % n == w then 1 else 0)
  {
  }

  /** A run of any number of draws. */
  lemma {:induction false} Draws<J>(script: Script<J>, p: Pool<J>, k: nat)
    returns (actions: seq<Action<J>>, q: Pool<J>)
    requires |p.workers| > 0
    ensures Leads(script, p, actions, q) && |q.drawn| == |p.drawn| + k
    decreases k
  {
    actions, q := [], p;
    if k > 0 {
      var submit: Action<J> := Submit(Query("", ""));
      var next := Do(script, p, submit);
      actions, q := Draws(script, next, k - 1);
      actions := [submit] + actions;
      assert actions[1..] == actions[1..] && Leads(script, next, actions[1..], q);
    }
  }

  lemma CountIsLoad<J>(script: Script<J>, p: Pool<J>, w: nat)
    requires Inv(script, p)
    ensures CountOf(p.drawn, w) == Load(|p.drawn|, w, |p.workers|)
  {
    hide WorkerInv, PastInv;
    LoadCounts(script, p, w, |p.drawn|);
    assert p.drawn[..|p.drawn|] == p.drawn;
  }

  /** The loads of any two workers stay within one of each other at every point
      of every run exactly when the number of workers divides the counter's
      range. Of the numbers the program uses, one to four, only three does not. */
  lemma BalancedForeverExactlyWhen<J>(script: Script<J>, states: seq<J>)
    requires states != []
    ensures (forall actions, q, v: nat, w: nat ::
               Leads(script, Start(states), actions, q) && v < |states| && w < |states| ==>
                 CountOf(q.drawn, v) <= CountOf(q.drawn, w) + 1)
       <==> USIZE_LIMIT % |states| == 0
    ensures |states| <= 4 ==> (USIZE_LIMIT % |states| == 0 <==> |states| != 3)
  {
    var n := |states|;
    hide Inv, Leads, CountOf, Load, Start;
    assert |Start(states).workers| == n && |Start(states).drawn| == 0 by { StartSize(states); }
    if USIZE_LIMIT % n == 0 {
      forall actions, q, v: nat, w: nat | Leads(script, Start(states), actions, q) && v < n && w < n
        ensures CountOf(q.drawn, v) <= CountOf(q.drawn, w) + 1
      {
        FromStart(script, states, actions, q);
        CountIsLoad(script, q, v);
        CountIsLoad(script, q, w);
        LoadWhenDividing(|q.drawn|, v, n);
        LoadWhenDividing(|q.drawn|, w, n);
      }
    } else {
      var actions, q := Draws(script, Start(states), USIZE_LIMIT + 1);
      FromStart(script, states, actions, q);
      CountIsLoad(script, q, 0);
      CountIsLoad(script, q, n - 1);
      UnbalancedAfterWrap(n);
    }
  }

  lemma StartSize<J>(states: seq<J>)
    ensures |Start(states).workers| == |states| && Start(states).drawn == []
  {
  }
}

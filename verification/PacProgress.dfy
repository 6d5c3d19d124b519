/**
 Progress of the worker pool: once no more requests come in, every run comes to
 an end, and it ends with every request settled.
 */
module PacProgress {
  import opened PacPool

  /** The steps a worker still has to make for the request it is busy with. */
  function PhaseWork(phase: Phase): nat {
    match phase
    case Idle => 0
    case Loaded(_) => 4
    case Running(_, _) => 3
    case Finished(_, _) => 2
    case Disarmed(_, _) => 1
  }

  function WorkerWork<J>(worker: Worker<J>): nat {
    5 * |worker.queue| + PhaseWork(worker.phase)
  }

  function WorkOf<J>(workers: seq<Worker<J>>): nat {
    if workers == [] then 0 else WorkerWork(workers[0]) + WorkOf(workers[1..])
  }

  /** The steps the pool still has to make for the requests it knows of. */
  function Work<J>(p: Pool<J>): nat {
    6 * |p.waiting| + WorkOf(p.workers)
  }

  lemma {:induction false} WorkOfUpdate<J>(workers: seq<Worker<J>>, w: nat, worker: Worker<J>)
    requires w < |workers|
    ensures WorkOf(workers[w := worker]) + WorkerWork(workers[w]) == WorkOf(workers) + WorkerWork(worker)
  {
    hide WorkerWork;
    if w == 0 {
      assert workers[0 := worker][1..] == workers[1..];
    } else {
      assert workers[w := worker][1..] == workers[1..][w - 1 := worker];
      WorkOfUpdate(workers[1..], w - 1, worker);
    }
  }

  /** Every step but a new request and the passing of time brings the pool nearer
      to the end, whatever the scripts do. */
  lemma {:induction false} WorkFalls<J>(script: Script<J>, p: Pool<J>, a: Action<J>)
    requires Enabled(p, a) && !a.Submit? && !a.Tick?
    ensures Work(Do(script, p, a)) < Work(p)
  {
    hide WorkOf;
    var q := Do(script, p, a);
    match a
    case Accept(id) => WorkOfUpdate(p.workers, p.drawn[id], q.workers[p.drawn[id]]);
    case Abandon(_) =>
    case Receive(w) => WorkOfUpdate(p.workers, w, q.workers[w]);
    case Arm(w) => WorkOfUpdate(p.workers, w, q.workers[w]);
    case Complete(w) => WorkOfUpdate(p.workers, w, q.workers[w]);
    case Interrupt(w, _) => WorkOfUpdate(p.workers, w, q.workers[w]);
    case Disarm(w) => WorkOfUpdate(p.workers, w, q.workers[w]);
    case Reply(w) => WorkOfUpdate(p.workers, w, q.workers[w]);
  }

  /** The steps of a run other than the passing of time. */
  function Moves<J>(actions: seq<Action<J>>): nat {
    if actions == [] then 0 else (if actions[0].Tick? then 0 else 1) + Moves(actions[1..])
  }

  /** Nothing is waiting, queued or under way. */
  predicate Settled<J>(p: Pool<J>) {
    p.waiting == {} && forall w :: 0 <= w < |p.workers| ==> p.workers[w].replied == p.workers[w].accepted
  }

  lemma {:induction false} RunsAreBounded<J>(script: Script<J>, p: Pool<J>, actions: seq<Action<J>>, q: Pool<J>)
    requires Leads(script, p, actions, q) && forall a :: a in actions ==> !a.Submit?
    ensures Moves(actions) + Work(q) <= Work(p)
    decreases |actions|
  {
    hide Work;
    if actions != [] {
      var a := actions[0];
      assert a in actions;
      if a.Tick? {
        TimeIsFree(script, p, a);
      } else {
        hide Do, Enabled;
        WorkFalls(script, p, a);
      }
      RunsAreBounded(script, Do(script, p, a), actions[1..], q);
    }
  }

  lemma {:induction false} TimeIsFree<J>(script: Script<J>, p: Pool<J>, a: Action<J>)
    requires a.Tick?
    ensures Enabled(p, a) && Work(Do(script, p, a)) == Work(p)
  {
  }

  /** With no more requests coming in, every run makes at most `Work` steps, and
      when no worker and no waiting caller can go on, every request is settled:
      answered by its worker, or given up by its caller before it was accepted. */
  lemma {:induction false} EveryRunSettles<J>(script: Script<J>, p: Pool<J>, actions: seq<Action<J>>, q: Pool<J>)
    requires Inv(script, p) && Leads(script, p, actions, q) && forall a :: a in actions ==> !a.Submit?
    ensures Moves(actions) <= Work(p)
    ensures (forall a :: Enabled(q, a) ==> a.Submit? || a.Abandon? || a.Tick?) ==> Settled(q)
  {
    hide Inv, Enabled, Work;
    RunsAreBounded(script, p, actions, q);
    EveryRun(script, p, actions, q);
    if !Settled(q) {
      var a := NeverStuck(script, q);
    }
  }

  /** Callers are never held: one may submit at any time and give up whenever it
      waits for room, and then it waits no longer. */
  lemma CallersAreFree<J>(script: Script<J>, p: Pool<J>, query: Query, id: nat)
    requires Inv(script, p)
    ensures Enabled(p, Submit(query)) && |p.queries| in Do(script, p, Submit(query)).waiting
    ensures id in p.waiting ==> Enabled(p, Abandon(id)) && id !in Do(script, p, Abandon(id)).waiting
  {
    hide WorkerInv, PastInv;
  }

  /** A script that never returns does not hold its worker: once the time limit
      has passed, the evaluation can be interrupted. */
  lemma LimitFreesWorker<J>(script: Script<J>, p: Pool<J>, w: nat, elapsed: nat, after: J)
    requires Inv(script, p) && w < |p.workers| && p.workers[w].phase.Running?
    ensures elapsed >= EVAL_TIMEOUT ==> Enabled(Do(script, p, Tick(elapsed)), Interrupt(w, after))
    ensures Enabled(Do(script, p, Tick(elapsed)), Interrupt(w, after))
       <==> p.now + elapsed >= p.workers[w].phase.since + EVAL_TIMEOUT
  {
    hide PastInv, Distinct;
    assert WorkerInv(p, w);
  }

  /** And from every point the workers can bring all requests to their answers
      without a caller giving up and without waiting for time to pass. */
  lemma {:induction false} CanSettle<J>(script: Script<J>, p: Pool<J>) returns (actions: seq<Action<J>>, q: Pool<J>)
    requires Inv(script, p)
    ensures Leads(script, p, actions, q) && Settled(q) && q.queries == p.queries
    ensures forall a :: a in actions ==> !a.Submit? && !a.Abandon? && !a.Tick?
    decreases Work(p)
  {
    actions, q := [], p;
    if !Settled(p) {
      var a := NeverStuck(script, p);
      WorkFalls(script, p, a);
      StepKeeps(script, p, a);
      assert Do(script, p, a).queries == p.queries by { hide Inv; }
      hide Inv, Enabled, Do, Work, Settled;
      var rest: seq<Action<J>>;
      rest, q := CanSettle(script, Do(script, p, a));
      actions := [a] + rest;
      assert actions[1..] == rest;
    }
  }
}

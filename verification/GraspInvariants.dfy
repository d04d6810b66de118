/**
 What every run of the grasp engine keeps: the counters agree with each other
 and with the number of experiments, every target is handed out exactly once
 and in order, and an interference run counts successes consistently.
 */
module GraspInvariants {
  import opened GraspStatus
  import opened GraspStateMachine

  // ------------------------------------------------------------- one grasp

  /** How many of the statuses stand for a grasp that held the object. */
  function Good(stat: multiset<Status>): nat {
    stat[Success] + stat[ObjectSlipped]
  }

  function Marked(status: Status): nat {
    if status == Success || status == Interference then 1 else 0
  }

  predicate SameWorker(v: Worker, w: Worker) {
    v.target == w.target && v.task == w.task && v.cached == w.cached && v.stopped == w.stopped
    && v.fetching == w.fetching
  }

  /** Nothing is recorded while the grasp goes on; once it is over, one outcome and every double are. */
  predicate Recorded(b0: Book, b: Book) {
    && SameWorker(b0.w, b.w) && b0.w.state != NEW_GRASP
    && if b.w.state != NEW_GRASP then
         b.status == b0.status && b.stat == b0.stat && b.counters == b0.counters && b.doubles == b0.doubles
       else
         && b.status != UnInitialized && !b.status.OutOfRange? && b.doubles >= b0.doubles
         && |b.stat| == |b0.stat| + 1 + (b.doubles - b0.doubles)
         && Total(b.counters) == Total(b0.counters) + 1 + (b.doubles - b0.doubles)
  }

  /** So far only checks recorded anything, and checks never record a success. */
  predicate NothingGood(b0: Book, b: Book) {
    Good(b.stat) == Good(b0.stat)
    && (b.w.state == NEW_GRASP ==> Marked(b.status) == 0 && b.status != ObjectSlipped)
  }

  /** With a subclass that evaluates grasps, the statistics gain exactly what the target is marked with. */
  predicate GoodIsMarked(conf: Config, b0: Book, b: Book) {
    conf.kind != Plain && b.w.state == NEW_GRASP ==>
      Good(b.stat) == Good(b0.stat) + Marked(b.status) && b.status != ObjectSlipped
  }

  /** An outcome recorded for a grasp that is under way. */
  lemma FinishRecords(conf: Config, s: Sensors, b0: Book, b: Book, status: Status, counters: Counters)
    requires Recorded(b0, b) && Good(b.stat) == Good(b0.stat)
    requires b.w.state != NEW_GRASP && status != UnInitialized && status != Interference
    requires !status.OutOfRange? && Total(counters) == Total(b.counters) + 1
    ensures var f := Finish(conf, s, b, status, counters);
      && Recorded(b0, f) && GoodIsMarked(conf, b0, f)
      && (status != Success && status != ObjectSlipped ==> NothingGood(b0, f))
  {}

  lemma TimedOutRecords(conf: Config, s: Sensors, b0: Book, b: Book)
    requires Recorded(b0, b) && NothingGood(b0, b)
    ensures var b' := CheckTimeout(conf, s, b); Recorded(b0, b') && NothingGood(b0, b')
  {
    if b.w.state != NEW_GRASP {
      FinishRecords(conf, s, b0, b, TimeOut, b.counters.(timeout := b.counters.timeout + 1));
    }
  }

  lemma ErrorRecords(conf: Config, s: Sensors, b0: Book, b: Book)
    requires Recorded(b0, b) && NothingGood(b0, b)
    ensures var b' := CheckError(conf, s, b); Recorded(b0, b') && NothingGood(b0, b')
  {
    if b.w.state != NEW_GRASP {
      FinishRecords(conf, s, b0, b, SimulationFailure, b.counters.(simfailed := b.counters.simfailed + 1));
    }
  }

  lemma CollisionRecords(conf: Config, s: Sensors, b0: Book, b: Book)
    requires Recorded(b0, b) && NothingGood(b0, b)
    ensures var b' := CheckCollision(conf, s, b); Recorded(b0, b') && NothingGood(b0, b')
  {
    if b.w.state != NEW_GRASP {
      FinishRecords(conf, s, b0, b, CollisionDuringExecution, b.counters.(collision := b.counters.collision + 1));
    }
  }

  lemma ChecksRecord(conf: Config, s: Sensors, b: Book)
    requires b.w.state != NEW_GRASP
    ensures Recorded(b, Checks(conf, s, b)) && NothingGood(b, Checks(conf, s, b))
  {
    var b1 := CheckLimits(conf, s, b);
    FinishRecords(conf, s, b, b, TimeOut, b.counters.(timeout := b.counters.timeout + 1));
    assert Recorded(b, b1) && NothingGood(b, b1);
    TimedOutRecords(conf, s, b, b1);
    ErrorRecords(conf, s, b, CheckTimeout(conf, s, b1));
    CollisionRecords(conf, s, b, CheckError(conf, s, CheckTimeout(conf, s, b1)));
  }

  lemma CloseOnRecords(conf: Config, s: Sensors, b0: Book, b: Book)
    requires Recorded(b0, b) && NothingGood(b0, b) && b.w.state == GRASPING
    ensures var b' := CloseOn(conf, s, b); Recorded(b0, b') && NothingGood(b0, b')
  {
    FinishRecords(conf, s, b0, b, ObjectMissed, b.counters.(failed := b.counters.failed + 1));
  }

  /** Counting and timing the rest of the gripper records nothing. */
  lemma MoveRecords(b0: Book, b: Book, w: Worker)
    requires Recorded(b0, b) && NothingGood(b0, b) && SameWorker(b.w, w)
    requires w.state == NEW_GRASP <==> b.w.state == NEW_GRASP
    ensures Recorded(b0, b.(w := w)) && NothingGood(b0, b.(w := w))
  {}

  lemma GraspRecords(conf: Config, s: Sensors, b0: Book, b: Book)
    requires Recorded(b0, b) && NothingGood(b0, b)
    ensures var b' := Grasp(conf, s, b); Recorded(b0, b') && NothingGood(b0, b')
  {
    if b.w.state == GRASPING {
      if s.simTime > b.w.approachedTime + 0.5 {
        var rested := if s.resting then b.(w := b.w.(restCount := b.w.restCount + 1)) else b;
        MoveRecords(b0, b, rested.w);
        CloseOnRecords(conf, s, b0, rested);
        var held := CloseOn(conf, s, rested);
        MoveRecords(b0, held, held.w.(restingTime := s.simTime));
      } else {
        MoveRecords(b0, b, b.w.(restingTime := s.simTime));
      }
    }
  }

  lemma JudgeRecords(conf: Config, s: Sensors, b0: Book, b: Book)
    requires Recorded(b0, b) && NothingGood(b0, b) && b.w.state == LIFTING
    ensures var b' := Judge(conf, s, b); Recorded(b0, b') && GoodIsMarked(conf, b0, b')
  {
    var verdict := Verdict(conf, s);
    FinishRecords(conf, s, b0, b, verdict, CountVerdict(b.counters, verdict));
    FinishRecords(conf, s, b0, b.(w := b.w.(restCount := 0)), verdict, CountVerdict(b.counters, verdict));
  }

  lemma LiftRecords(conf: Config, s: Sensors, b0: Book, b: Book)
    requires Recorded(b0, b) && NothingGood(b0, b)
    ensures var b' := Lift(conf, s, b); Recorded(b0, b') && GoodIsMarked(conf, b0, b')
  {
    if b.w.state == LIFTING {
      JudgeRecords(conf, s, b0, b.(w := b.w.(restCount := b.w.restCount + 1)));
    }
  }

  /** One callback on a running grasp. */
  lemma StagesRecord(conf: Config, s: Sensors, b: Book)
    requires b.w.state != NEW_GRASP
    ensures Recorded(b, Stages(conf, s, b)) && GoodIsMarked(conf, b, Stages(conf, s, b))
  {
    ChecksRecord(conf, s, b);
    var approached := Approach(s, Checks(conf, s, b));
    assert Recorded(b, approached) && NothingGood(b, approached);
    GraspRecords(conf, s, b, approached);
    LiftRecords(conf, s, b, Grasp(conf, s, approached));
  }

  // ------------------------------------------------------------ the invariant

  function Active(w: Worker): nat {
    if w.state != NEW_GRASP then 1 else 0
  }

  /** Workers in APPROACH, GRASPING or LIFTING. */
  function ActiveCount(ws: seq<Worker>): nat {
    if ws == [] then 0 else Active(ws[0]) + ActiveCount(ws[1..])
  }

  lemma {:induction false} ActiveUpdate(ws: seq<Worker>, w: nat, x: Worker)
    requires w < |ws|
    ensures ActiveCount(ws[w := x]) + Active(ws[w]) == ActiveCount(ws) + Active(x)
  {
    if w == 0 {
      assert ws[0 := x][1..] == ws[1..];
    } else {
      ActiveUpdate(ws[1..], w - 1, x);
      assert ws[w := x][1..] == ws[1..][w - 1 := x];
    }
  }

  function PoppedTargets(ps: seq<Pop>): (r: seq<TargetId>)
    ensures |r| == |ps|
  {
    seq(|ps|, i requires 0 <= i < |ps| => ps[i].target)
  }

  ghost predicate Distinct(ts: seq<TargetId>) {
    forall i, j | 0 <= i < j < |ts| :: ts[i] != ts[j]
  }

  /** What was taken, followed by what is left, is the loaded queue. */
  ghost predicate InOrder(queue0: seq<TargetId>, sim: Sim) {
    PoppedTargets(sim.popped) + sim.queue == queue0 && sim.experiments == |sim.popped|
  }

  /** The statistics, the counters and the experiments under way account for each other. */
  ghost predicate Conserved(sim: Sim) {
    && |sim.stat| + sim.unlisted == Total(sim.counters)
    && Total(sim.counters) + ActiveCount(sim.workers) == sim.experiments + sim.doubles
  }

  ghost predicate TookIt(sim: Sim, w: nat, t: TargetId) {
    exists k :: 0 <= k < |sim.popped| && sim.popped[k] == Pop(w, t)
  }

  ghost predicate WorkerOk(conf: Config, sim: Sim, w: nat)
    requires w < |sim.workers|
  {
    var x := sim.workers[w];
    && (x.target.Some? ==> TookIt(sim, w, x.target.value) && x.task == Some(x.target.value.task))
    && (x.task.Some? ==> x.cached == Some(FieldsOf(conf, x.task.value)))
    && (x.state != NEW_GRASP ==> x.target.Some? && !x.stopped && !x.fetching)
    && (x.stopped ==> !x.fetching && sim.queue == [])
    && (x.target.Some? && x.state == NEW_GRASP ==> x.fetching || x.stopped)
  }

  /** Worker w is in the middle of a grasp on target t. */
  predicate Holds(sim: Sim, w: nat, t: TargetId) {
    w < |sim.workers| && sim.workers[w].state != NEW_GRASP && sim.workers[w].target == Some(t)
  }

  /** A popped target has an outcome, or the worker that took it is still at it. */
  ghost predicate Settled(sim: Sim, p: Pop) {
    p.target in sim.results && (sim.results[p.target] != UnInitialized || Holds(sim, p.worker, p.target))
  }

  /** Every loaded target has a result record, and every popped one is settled. */
  ghost predicate Accounted(queue0: seq<TargetId>, sim: Sim) {
    && (forall i | 0 <= i < |queue0| :: queue0[i] in sim.results)
    && (forall k | 0 <= k < |sim.popped| :: Settled(sim, sim.popped[k]))
  }

  ghost predicate Inv(conf: Config, queue0: seq<TargetId>, sim: Sim) {
    && InOrder(queue0, sim)
    && Conserved(sim)
    && (forall w | 0 <= w < |sim.workers| :: WorkerOk(conf, sim, w))
    && Accounted(queue0, sim)
  }

  /** A target is taken by one worker, once. */
  lemma TakenOnce(queue0: seq<TargetId>, sim: Sim, j: nat, k: nat)
    requires Distinct(queue0) && InOrder(queue0, sim)
    requires j < |sim.popped| && k < |sim.popped| && sim.popped[j].target == sim.popped[k].target
    ensures j == k
  {
    assert queue0[j] == PoppedTargets(sim.popped)[j] && queue0[k] == PoppedTargets(sim.popped)[k];
  }

  lemma StartedInv(conf: Config, queue0: seq<TargetId>, results: map<TargetId, Status>, n: nat)
    requires forall i | 0 <= i < |queue0| :: queue0[i] in results
    ensures Inv(conf, queue0, Started(queue0, results, n))
  {
    NobodyActive(n);
    assert PoppedTargets([]) + queue0 == queue0;
  }

  lemma {:induction false} NobodyActive(n: nat)
    ensures ActiveCount(seq(n, i => FRESH_WORKER)) == 0
  {
    if n > 0 {
      assert seq(n, i => FRESH_WORKER)[1..] == seq(n - 1, i => FRESH_WORKER);
      NobodyActive(n - 1);
    }
  }

  // --------------------------------------------------------------- callbacks

  /** The callback's result for a worker in the middle of a grasp. */
  lemma CallbackShape(conf: Config, queue0: seq<TargetId>, sim: Sim, w: nat, s: Sensors)
    requires Inv(conf, queue0, sim) && Enabled(conf, sim, Callback(w, s)) && !sim.stopRequested
    requires sim.workers[w].target.Some?
    ensures var b, b' := Get(sim, w), Stages(conf, s, Get(sim, w));
      && sim.workers[w].state != NEW_GRASP && Recorded(b, b') && GoodIsMarked(conf, b, b')
      && sim.workers[w].target.value in sim.results
      && b.status == sim.results[sim.workers[w].target.value]
      && DoCallback(conf, sim, w, s) == Put(sim, w, b'.(w := b'.w.(fetching := b'.w.state == NEW_GRASP)))
  {
    assert WorkerOk(conf, sim, w);
    var k :| 0 <= k < |sim.popped| && sim.popped[k] == Pop(w, sim.workers[w].target.value);
    StagesRecord(conf, s, Get(sim, w));
  }

  /** A worker that has no target yet only starts to look for one. */
  lemma IdleCallback(conf: Config, sim: Sim, w: nat, s: Sensors)
    requires Enabled(conf, sim, Callback(w, s)) && !sim.stopRequested && WorkerOk(conf, sim, w)
    requires sim.workers[w].target.None?
    ensures Stages(conf, s, Get(sim, w)) == Get(sim, w)
    ensures DoCallback(conf, sim, w, s) == sim.(workers := sim.workers[w := sim.workers[w].(fetching := true)])
  {
    var b := Get(sim, w);
    assert b.w.state == NEW_GRASP;
    assert Checks(conf, s, b) == b;
  }

  lemma CallbackConserves(conf: Config, queue0: seq<TargetId>, sim: Sim, w: nat, s: Sensors)
    requires Inv(conf, queue0, sim) && Enabled(conf, sim, Callback(w, s))
    ensures Conserved(DoCallback(conf, sim, w, s))
  {
    var sim' := DoCallback(conf, sim, w, s);
    if !sim.stopRequested {
      ActiveUpdate(sim.workers, w, sim'.workers[w]);
      assert WorkerOk(conf, sim, w);
      if sim.workers[w].target.Some? {
        CallbackShape(conf, queue0, sim, w, s);
      } else {
        IdleCallback(conf, sim, w, s);
      }
    }
  }

  lemma CallbackKeepsWorkers(conf: Config, queue0: seq<TargetId>, sim: Sim, w: nat, s: Sensors)
    requires Inv(conf, queue0, sim) && Enabled(conf, sim, Callback(w, s))
    ensures var sim' := DoCallback(conf, sim, w, s);
      && |sim'.workers| == |sim.workers|
      && forall v | 0 <= v < |sim'.workers| :: WorkerOk(conf, sim', v)
  {
    var sim' := DoCallback(conf, sim, w, s);
    assert sim'.popped == sim.popped && sim'.queue == sim.queue;
    forall v | 0 <= v < |sim'.workers| ensures WorkerOk(conf, sim', v) {
      assert WorkerOk(conf, sim, v);
      if v == w && !sim.stopRequested {
        if sim.workers[w].target.Some? {
          CallbackShape(conf, queue0, sim, w, s);
        } else {
          IdleCallback(conf, sim, w, s);
        }
      }
      assert forall t :: TookIt(sim, v, t) ==> TookIt(sim', v, t);
    }
  }

  lemma CallbackKeepsAccounts(conf: Config, queue0: seq<TargetId>, sim: Sim, w: nat, s: Sensors)
    requires Inv(conf, queue0, sim) && Enabled(conf, sim, Callback(w, s)) && Distinct(queue0)
    ensures Accounted(queue0, DoCallback(conf, sim, w, s))
  {
    var sim' := DoCallback(conf, sim, w, s);
    if !sim.stopRequested && sim.workers[w].target.Some? {
      CallbackShape(conf, queue0, sim, w, s);
      var t := sim.workers[w].target.value;
      assert WorkerOk(conf, sim, w);
      var kw :| 0 <= kw < |sim.popped| && sim.popped[kw] == Pop(w, t);
      forall k | 0 <= k < |sim'.popped|
        ensures var p := sim'.popped[k];
          p.target in sim'.results && (sim'.results[p.target] != UnInitialized || Holds(sim', p.worker, p.target))
      {
        if sim.popped[k].target == t {
          TakenOnce(queue0, sim, k, kw);
        }
      }
    } else if !sim.stopRequested {
      assert WorkerOk(conf, sim, w);
      IdleCallback(conf, sim, w, s);
    }
  }

  lemma CallbackKeepsInv(conf: Config, queue0: seq<TargetId>, sim: Sim, w: nat, s: Sensors)
    requires Inv(conf, queue0, sim) && Enabled(conf, sim, Callback(w, s)) && Distinct(queue0)
    ensures Inv(conf, queue0, DoCallback(conf, sim, w, s))
  {
    CallbackConserves(conf, queue0, sim, w, s);
    CallbackKeepsWorkers(conf, queue0, sim, w, s);
    CallbackKeepsAccounts(conf, queue0, sim, w, s);
  }

  // ----------------------------------------------------------------- fetching

  lemma FetchKeepsOrder(conf: Config, queue0: seq<TargetId>, sim: Sim, w: nat, setup: Setup)
    requires w < |sim.workers| && InOrder(queue0, sim)
    ensures InOrder(queue0, DoFetch(conf, sim, w, setup))
  {
    if sim.queue != [] {
      var sim' := DoFetch(conf, sim, w, setup);
      assert PoppedTargets(sim'.popped) == PoppedTargets(sim.popped) + [sim.queue[0]];
    }
  }

  lemma DecideConserves(conf: Config, sim: Sim, w: nat, t: TargetId, setup: Setup)
    requires w < |sim.workers| && sim.workers[w].state == NEW_GRASP && Conserved(sim)
    ensures Conserved(Decide(conf, sim, w, t, setup))
  {
    ActiveUpdate(sim.workers, w, Begin(sim, w).workers[w]);
  }

  lemma FetchConserves(conf: Config, queue0: seq<TargetId>, sim: Sim, w: nat, setup: Setup)
    requires Inv(conf, queue0, sim) && Enabled(conf, sim, Fetch(w, setup))
    ensures Conserved(DoFetch(conf, sim, w, setup))
  {
    assert WorkerOk(conf, sim, w);
    ActiveUpdate(sim.workers, w, Retire(sim, w).workers[w]);
    if sim.queue != [] {
      var taken := Take(conf, sim, w);
      ActiveUpdate(sim.workers, w, taken.workers[w]);
      DecideConserves(conf, taken, w, sim.queue[0], setup);
    }
  }

  /** A worker that does not move stays in order while the others do. */
  lemma OthersStayOk(conf: Config, sim: Sim, sim': Sim, v: nat)
    requires v < |sim.workers| && v < |sim'.workers| && sim'.workers[v] == sim.workers[v] && WorkerOk(conf, sim, v)
    requires sim.popped <= sim'.popped && (sim.queue == [] ==> sim'.queue == [])
    ensures WorkerOk(conf, sim', v)
  {
    forall t | TookIt(sim, v, t) ensures TookIt(sim', v, t) {
      var k :| 0 <= k < |sim.popped| && sim.popped[k] == Pop(v, t);
      assert sim'.popped[k] == Pop(v, t);
    }
  }

  lemma FetcherIsOk(conf: Config, sim: Sim, w: nat, setup: Setup)
    requires Enabled(conf, sim, Fetch(w, setup)) && WorkerOk(conf, sim, w)
    ensures WorkerOk(conf, DoFetch(conf, sim, w, setup), w)
  {
    var sim' := DoFetch(conf, sim, w, setup);
    if sim.queue == [] {
      assert forall t :: TookIt(sim, w, t) ==> TookIt(sim', w, t);
    } else {
      assert sim'.popped[|sim.popped|] == Pop(w, sim.queue[0]);
      assert TookIt(sim', w, sim.queue[0]);
    }
  }

  lemma FetchKeepsWorkers(conf: Config, queue0: seq<TargetId>, sim: Sim, w: nat, setup: Setup)
    requires Inv(conf, queue0, sim) && Enabled(conf, sim, Fetch(w, setup))
    ensures var sim' := DoFetch(conf, sim, w, setup);
      && |sim'.workers| == |sim.workers|
      && forall v | 0 <= v < |sim'.workers| :: WorkerOk(conf, sim', v)
  {
    var sim' := DoFetch(conf, sim, w, setup);
    assert WorkerOk(conf, sim, w);
    FetcherIsOk(conf, sim, w, setup);
    forall v | 0 <= v < |sim'.workers| && v != w ensures WorkerOk(conf, sim', v) {
      assert WorkerOk(conf, sim, v);
      OthersStayOk(conf, sim, sim', v);
    }
  }

  /** The target just taken has an outcome now, or its worker is at it; nothing else loses an outcome. */
  lemma DecideSettles(conf: Config, sim: Sim, w: nat, t: TargetId, setup: Setup)
    requires w < |sim.workers| && sim.workers[w].target == Some(t) && t in sim.results
    ensures var sim' := Decide(conf, sim, w, t, setup);
      && t in sim'.results && (sim'.results[t] != UnInitialized || Holds(sim', w, t))
      && forall u | u in sim.results :: u in sim'.results && (u != t ==> sim'.results[u] == sim.results[u])
  {}

  lemma NextIsNew(queue0: seq<TargetId>, sim: Sim, k: nat)
    requires InOrder(queue0, sim) && Distinct(queue0) && k < |sim.popped| && sim.queue != []
    ensures sim.popped[k].target != sim.queue[0] && sim.queue[0] in queue0
  {
    assert queue0[k] == PoppedTargets(sim.popped)[k] && queue0[|sim.popped|] == sim.queue[0];
  }

  lemma OldPopStaysSettled(conf: Config, queue0: seq<TargetId>, sim: Sim, w: nat, setup: Setup, k: nat)
    requires Inv(conf, queue0, sim) && Enabled(conf, sim, Fetch(w, setup)) && Distinct(queue0)
    requires sim.queue != [] && k < |sim.popped|
    ensures Settled(DoFetch(conf, sim, w, setup), sim.popped[k])
  {
    var sim', p := DoFetch(conf, sim, w, setup), sim.popped[k];
    assert WorkerOk(conf, sim, w);
    NextIsNew(queue0, sim, k);
    assert Settled(sim, p);
    assert sim'.results[p.target] == sim.results[p.target];
  }

  lemma FetchKeepsAccounts(conf: Config, queue0: seq<TargetId>, sim: Sim, w: nat, setup: Setup)
    requires Inv(conf, queue0, sim) && Enabled(conf, sim, Fetch(w, setup)) && Distinct(queue0)
    ensures Accounted(queue0, DoFetch(conf, sim, w, setup))
  {
    var sim' := DoFetch(conf, sim, w, setup);
    assert WorkerOk(conf, sim, w);
    if sim.queue != [] {
      var t, taken := sim.queue[0], Take(conf, sim, w);
      assert t == queue0[|sim.popped|];
      DecideSettles(conf, taken, w, t, setup);
      forall k | 0 <= k < |sim'.popped| ensures Settled(sim', sim'.popped[k]) {
        if k < |sim.popped| {
          OldPopStaysSettled(conf, queue0, sim, w, setup, k);
        } else {
          assert sim'.popped[k] == Pop(w, t);
        }
      }
    } else {
      forall k | 0 <= k < |sim.popped| ensures Settled(sim', sim.popped[k]) {
        assert Settled(sim, sim.popped[k]);
      }
    }
  }

  lemma FetchKeepsInv(conf: Config, queue0: seq<TargetId>, sim: Sim, w: nat, setup: Setup)
    requires Inv(conf, queue0, sim) && Enabled(conf, sim, Fetch(w, setup)) && Distinct(queue0)
    ensures Inv(conf, queue0, DoFetch(conf, sim, w, setup))
  {
    FetchKeepsOrder(conf, queue0, sim, w, setup);
    FetchConserves(conf, queue0, sim, w, setup);
    FetchKeepsWorkers(conf, queue0, sim, w, setup);
    FetchKeepsAccounts(conf, queue0, sim, w, setup);
  }

  // ------------------------------------------------------------------ all runs

  lemma ApplyKeepsInv(conf: Config, queue0: seq<TargetId>, sim: Sim, a: Action)
    requires Inv(conf, queue0, sim) && Enabled(conf, sim, a) && Distinct(queue0)
    ensures Inv(conf, queue0, Apply(conf, sim, a)) && |Apply(conf, sim, a).workers| == |sim.workers|
  {
    match a
    case Callback(w, s) => CallbackKeepsInv(conf, queue0, sim, w, s);
    case Fetch(w, setup) => FetchKeepsInv(conf, queue0, sim, w, setup);
    case _ =>
      var sim' := Apply(conf, sim, a);
      forall v | 0 <= v < |sim'.workers| ensures WorkerOk(conf, sim', v) {
        assert WorkerOk(conf, sim, v);
        assert forall t :: TookIt(sim, v, t) ==> TookIt(sim', v, t);
      }
      assert forall v, t :: Holds(sim, v, t) ==> Holds(sim', v, t);
  }

  lemma {:induction false} ExecKeepsInv(conf: Config, queue0: seq<TargetId>, sim: Sim, run: seq<Action>)
    requires Inv(conf, queue0, sim) && Possible(conf, sim, run) && Distinct(queue0)
    ensures Inv(conf, queue0, Exec(conf, sim, run)) && |Exec(conf, sim, run).workers| == |sim.workers|
    decreases |run|
  {
    if run != [] {
      ApplyKeepsInv(conf, queue0, sim, run[0]);
      ExecKeepsInv(conf, queue0, Apply(conf, sim, run[0]), run[1..]);
    }
  }
}

/**
 Which event leads to which outcome: the law of one step of the grasp engine,
 event by event, in terms of what the sensors report and of the fields a step
 leaves. `Stages` is the part of a step that handles a worker's running grasp,
 `DoFetch` one pass of the loop that fetches its next target.
 */
module GraspEvents {
  import opened LinearAlgebra
  import opened GraspStatus
  import opened GraspStateMachine

  // --------------------------------------------------------- what is recorded

  lemma {:induction false} InterferenceIsSum(xs: seq<real>)
    ensures SumOf(xs) == Sum(xs)
  {
    if xs != [] {
      var n := |xs| - 1;
      InterferenceIsSum(xs[..n]);
      SumSplit(xs[..n], [xs[n]]);
      assert xs == xs[..n] + [xs[n]];
    }
  }

  /** What a target with this outcome is marked with: simulators that evaluate grasps have their own view of success. */
  ghost predicate IsMark(kind: Kind, s: Sensors, outcome: Status, mark: Status) {
    match kind
    case Plain => mark == outcome
    case Basic => mark == if outcome == ObjectSlipped then Success else outcome
    case Interfering(limit) =>
      if outcome == Success || outcome == ObjectSlipped then
        mark == if Sum(s.objectInterference) > limit then Interference else Success
      else mark == outcome
  }

  lemma EvaluatedIsMark(kind: Kind, s: Sensors, outcome: Status)
    requires outcome != Interference
    ensures IsMark(kind, s, outcome, Evaluated(kind, s, outcome))
  {
    InterferenceIsSum(s.objectInterference);
  }

  /** The grasp ends with this outcome, which is recorded once, and the counters become these. */
  ghost predicate EndsWith(conf: Config, s: Sensors, b: Book, b': Book, outcome: Status, counters: Counters) {
    && b'.w.state == NEW_GRASP && b'.stat == b.stat + multiset{outcome} && b'.counters == counters
    && b'.doubles == b.doubles && IsMark(conf.kind, s, outcome, b'.status)
  }

  /** The grasp goes on, nothing is recorded, and only the worker's own fields may change. */
  ghost predicate GoesOn(b: Book, b': Book, w: Worker) {
    b' == Book(w, b.status, b.stat, b.counters, b.doubles)
  }

  predicate OverTime(conf: Config, s: Sensors) {
    (s.wallTime > conf.wallTimeLimit && s.simTime > conf.simTimeLimit) || s.simTime > 5.0
  }

  /** None of the checks a running grasp is put through first fires. */
  predicate Undisturbed(conf: Config, s: Sensors) {
    !OverTime(conf, s) && !s.inError && !s.collision
  }

  lemma EndedStays(conf: Config, s: Sensors, b: Book)
    requires b.w.state == NEW_GRASP
    ensures Lift(conf, s, Grasp(conf, s, Approach(s, b))) == b
  {
  }

  // ----------------------------------------------------------------- checks

  /** Too much time ends a running grasp, unless it collides in the same step. */
  lemma TimeEndsGrasp(conf: Config, s: Sensors, b: Book)
    requires b.w.state != NEW_GRASP && OverTime(conf, s) && !s.collision
    ensures EndsWith(conf, s, b, Stages(conf, s, b), TimeOut, b.counters.(timeout := b.counters.timeout + 1))
  {
    EvaluatedIsMark(conf.kind, s, TimeOut);
    EndedStays(conf, s, Checks(conf, s, b));
  }

  /** An error of the simulator ends it if there is time. */
  lemma ErrorEndsGrasp(conf: Config, s: Sensors, b: Book)
    requires b.w.state != NEW_GRASP && !OverTime(conf, s) && s.inError && !s.collision
    ensures EndsWith(conf, s, b, Stages(conf, s, b), SimulationFailure,
                     b.counters.(simfailed := b.counters.simfailed + 1))
  {
    EvaluatedIsMark(conf.kind, s, SimulationFailure);
    EndedStays(conf, s, Checks(conf, s, b));
  }

  /** A collision ends it. */
  lemma CollisionEndsGrasp(conf: Config, s: Sensors, b: Book)
    requires b.w.state != NEW_GRASP && !OverTime(conf, s) && !s.inError && s.collision
    ensures EndsWith(conf, s, b, Stages(conf, s, b), CollisionDuringExecution,
                     b.counters.(collision := b.counters.collision + 1))
  {
    EvaluatedIsMark(conf.kind, s, CollisionDuringExecution);
    EndedStays(conf, s, Checks(conf, s, b));
  }

  /** The three checks before the one for collisions. */
  function FirstChecks(conf: Config, s: Sensors, b: Book): Book {
    CheckError(conf, s, CheckTimeout(conf, s, CheckLimits(conf, s, b)))
  }

  lemma FirstChecksEnd(conf: Config, s: Sensors, b: Book)
    requires b.w.state != NEW_GRASP && (OverTime(conf, s) || s.inError)
    ensures var b', c := FirstChecks(conf, s, b), b.counters;
      && b'.w.state == NEW_GRASP && b'.doubles == b.doubles
      && b'.stat == b.stat + multiset{if OverTime(conf, s) then TimeOut else SimulationFailure}
      && b'.counters == if OverTime(conf, s) then c.(timeout := c.timeout + 1) else c.(simfailed := c.simfailed + 1)
  {
  }

  /** A collision on top of one of these is recorded as well, and its mark remains. */
  lemma LateCollisionIsRecorded(conf: Config, s: Sensors, b: Book)
    requires b.w.state != NEW_GRASP && (OverTime(conf, s) || s.inError) && s.collision
    ensures var b', c := Stages(conf, s, b), b.counters;
      && b'.w.state == NEW_GRASP && b'.doubles == b.doubles + 1
      && b'.status == CollisionDuringExecution
      && b'.stat == b.stat + multiset{if OverTime(conf, s) then TimeOut else SimulationFailure}
                    + multiset{CollisionDuringExecution}
      && b'.counters == if OverTime(conf, s) then c.(timeout := c.timeout + 1, collision := c.collision + 1)
                        else c.(simfailed := c.simfailed + 1, collision := c.collision + 1)
  {
    FirstChecksEnd(conf, s, b);
    var b' := CheckCollision(conf, s, FirstChecks(conf, s, b));
    assert b' == Checks(conf, s, b);
    EvaluatedIsMark(conf.kind, s, CollisionDuringExecution);
    EndedStays(conf, s, b');
  }

  lemma UndisturbedPasses(conf: Config, s: Sensors, b: Book)
    requires Undisturbed(conf, s)
    ensures Checks(conf, s, b) == b
  {
  }

  // --------------------------------------------------------------- approaching

  /** The gripper is closed as soon as the approach is reached, and the clock for its rest starts. */
  lemma ApproachLaw(conf: Config, s: Sensors, b: Book)
    requires b.w.state == APPROACH && Undisturbed(conf, s)
    ensures GoesOn(b, Stages(conf, s, b),
                   if s.approachReached then
                     b.w.(state := GRASPING, approachedTime := s.simTime, restingTime := s.simTime, restCount := 0)
                   else b.w)
  {
    UndisturbedPasses(conf, s, b);
  }

  // ------------------------------------------------------------------ grasping

  /** For half a second after the approach the clock for the gripper's rest is held back. */
  lemma JustClosingLaw(conf: Config, s: Sensors, b: Book)
    requires b.w.state == GRASPING && Undisturbed(conf, s) && s.simTime <= b.w.approachedTime + 0.5
    ensures GoesOn(b, Stages(conf, s, b), b.w.(restingTime := s.simTime))
  {
    UndisturbedPasses(conf, s, b);
  }

  function RestCount(s: Sensors, w: Worker): int {
    if s.resting then w.restCount + 1 else w.restCount
  }

  /**
   A finger gripper is at rest when it was seen resting more than five times, a
   suction cup when it is closed. It is time to lift after one and a half
   seconds of that; the step's five-second limit leaves no room for the
   eight-second one of this stage.
   */
  predicate TimeToLift(conf: Config, s: Sensors, w: Worker) {
    (if conf.suctionCup then s.suctionClosed else RestCount(s, w) > 5) && s.simTime - w.restingTime > 1.5
  }

  /** Until then the rests are counted, and the third one starts the clock again. */
  lemma ClosingLaw(conf: Config, s: Sensors, b: Book)
    requires b.w.state == GRASPING && Undisturbed(conf, s) && s.simTime > b.w.approachedTime + 0.5
    requires !TimeToLift(conf, s, b.w)
    ensures GoesOn(b, Stages(conf, s, b),
                   b.w.(restCount := RestCount(s, b.w),
                        restingTime := if RestCount(s, b.w) == 3 then s.simTime else b.w.restingTime))
  {
    UndisturbedPasses(conf, s, b);
  }

  /** A finger gripper that touches nothing when it is time to lift has missed the object. */
  lemma MissedLaw(conf: Config, s: Sensors, b: Book)
    requires b.w.state == GRASPING && Undisturbed(conf, s) && s.simTime > b.w.approachedTime + 0.5
    requires TimeToLift(conf, s, b.w) && !conf.suctionCup && !s.contact
    ensures EndsWith(conf, s, b, Stages(conf, s, b), ObjectMissed, b.counters.(failed := b.counters.failed + 1))
  {
    UndisturbedPasses(conf, s, b);
    EvaluatedIsMark(conf.kind, s, ObjectMissed);
  }

  function Lifted(conf: Config, s: Sensors): bool {
    if conf.suctionCup then s.suctionClosed else s.retractReached
  }

  /** Otherwise it lifts, and the lift is looked at in the same step for the first time. */
  lemma StartLiftLaw(conf: Config, s: Sensors, b: Book)
    requires b.w.state == GRASPING && Undisturbed(conf, s) && s.simTime > b.w.approachedTime + 0.5
    requires TimeToLift(conf, s, b.w) && (conf.suctionCup || s.contact)
    ensures GoesOn(b, Stages(conf, s, b),
                   b.w.(state := LIFTING, restCount := if Lifted(conf, s) then 1 else 0))
  {
    UndisturbedPasses(conf, s, b);
  }

  // ------------------------------------------------------------------- lifting

  /** A lift ends when the gripper was seen lifted more than five times; until then this is counted. */
  predicate LiftEnds(conf: Config, s: Sensors, w: Worker) {
    Lifted(conf, s) && w.restCount + 1 > 5
  }

  lemma LiftingLaw(conf: Config, s: Sensors, b: Book)
    requires b.w.state == LIFTING && Undisturbed(conf, s) && !LiftEnds(conf, s, b.w)
    ensures GoesOn(b, Stages(conf, s, b),
                   b.w.(restCount := if Lifted(conf, s) then b.w.restCount + 1 else b.w.restCount))
  {
    UndisturbedPasses(conf, s, b);
  }

  /**
   The verdict on a lift. The object was dropped exactly if a finger gripper
   touches nothing (or a suction cup is open); the lift was a success exactly if
   it was not and the gripper is a suction cup or the object slipped by less
   than a centimetre; everything else is a slip.
   */
  lemma VerdictLaw(conf: Config, s: Sensors, b: Book)
    requires b.w.state == LIFTING && Undisturbed(conf, s) && LiftEnds(conf, s, b.w)
    ensures var b', c := Stages(conf, s, b), b.counters;
      var dropped := if conf.suctionCup then !s.suctionClosed else !s.contact;
      if dropped then EndsWith(conf, s, b, b', ObjectDropped, c.(failed := c.failed + 1))
      else if conf.suctionCup || s.slippage < 0.01 then
        EndsWith(conf, s, b, b', Success, c.(success := c.success + 1))
      else EndsWith(conf, s, b, b', ObjectSlipped, c.(slipped := c.slipped + 1))
  {
    UndisturbedPasses(conf, s, b);
    EvaluatedIsMark(conf.kind, s, ObjectDropped);
    EvaluatedIsMark(conf.kind, s, Success);
    EvaluatedIsMark(conf.kind, s, ObjectSlipped);
  }

  // ----------------------------------------------------------------- the engine

  /** A step changes the engine by what it does to the worker's grasp; one that has ended makes it look for a target. */
  lemma CallbackLaw(conf: Config, sim: Sim, w: nat, s: Sensors)
    requires w < |sim.workers| && sim.workers[w].target.Some? && sim.workers[w].target.value in sim.results
    ensures var t, sim' := sim.workers[w].target.value, DoCallback(conf, sim, w, s);
      var b := Book(sim.workers[w], sim.results[t], sim.stat, sim.counters, sim.doubles);
      var b' := Stages(conf, s, b);
      if sim.stopRequested then sim' == sim
      else
        && sim'.stat == b'.stat && sim'.counters == b'.counters && sim'.doubles == b'.doubles
        && sim'.workers == sim.workers[w := b'.w.(fetching := b'.w.state == NEW_GRASP)]
        && sim'.queue == sim.queue && sim'.experiments == sim.experiments && sim'.popped == sim.popped
        && sim'.unlisted == sim.unlisted && !sim'.stopRequested
        && sim'.results == sim.results[t := b'.status]
  {
    var b := Book(sim.workers[w], sim.results[sim.workers[w].target.value], sim.stat, sim.counters, sim.doubles);
    StagesKeepTarget(conf, s, b);
  }

  predicate SameHold(v: Worker, w: Worker) {
    v.target == w.target && v.task == w.task && v.cached == w.cached && v.stopped == w.stopped
  }

  lemma ChecksKeepTarget(conf: Config, s: Sensors, b: Book)
    ensures SameHold(b.w, Checks(conf, s, b).w)
  {
    var b1 := CheckLimits(conf, s, b);
    assert SameHold(b.w, b1.w);
    var b2 := CheckTimeout(conf, s, b1);
    assert SameHold(b.w, b2.w);
    var b3 := CheckError(conf, s, b2);
    assert SameHold(b.w, b3.w);
  }

  lemma GraspKeepsTarget(conf: Config, s: Sensors, b: Book)
    ensures SameHold(b.w, Grasp(conf, s, b).w)
  {
    var rested := if s.resting then b.(w := b.w.(restCount := b.w.restCount + 1)) else b;
    assert SameHold(b.w, CloseOn(conf, s, rested).w);
  }

  lemma LiftKeepsTarget(conf: Config, s: Sensors, b: Book)
    ensures SameHold(b.w, Lift(conf, s, b).w)
  {
  }

  /** No stage exchanges the target or what is cached about it. */
  lemma StagesKeepTarget(conf: Config, s: Sensors, b: Book)
    ensures SameHold(b.w, Stages(conf, s, b).w)
  {
    var b1 := Checks(conf, s, b);
    ChecksKeepTarget(conf, s, b);
    var b2 := Approach(s, b1);
    assert SameHold(b1.w, b2.w);
    GraspKeepsTarget(conf, s, b2);
    LiftKeepsTarget(conf, s, Grasp(conf, s, b2));
  }

  // ------------------------------------------------------------------- fetching

  /** A worker that finds no more targets stops, and nothing else changes. */
  lemma LastFetchLaw(conf: Config, sim: Sim, w: nat, setup: Setup)
    requires w < |sim.workers| && sim.queue == []
    ensures DoFetch(conf, sim, w, setup) ==
            sim.(workers := sim.workers[w := sim.workers[w].(stopped := true, fetching := false)])
  {
  }

  /** The target at the front is taken out of the queue and held by the worker, with its own subtask's fields. */
  ghost predicate TakesFront(conf: Config, sim: Sim, sim': Sim, w: nat)
    requires w < |sim.workers| && sim.queue != []
  {
    var t := sim.queue[0];
    && sim'.queue == sim.queue[1..] && sim'.experiments == sim.experiments + 1
    && sim'.popped == sim.popped + [Pop(w, t)] && sim'.doubles == sim.doubles
    && sim'.stopRequested == sim.stopRequested && |sim'.workers| == |sim.workers|
    && (forall v | 0 <= v < |sim.workers| && v != w :: sim'.workers[v] == sim.workers[v])
    && sim'.workers[w].target == Some(t) && sim'.workers[w].task == Some(t.task)
    && (sim.workers[w].task != Some(t.task) && t.task < |conf.tasks| ==>
          sim'.workers[w].cached == Some(conf.tasks[t.task].fields))
    && (sim.workers[w].task == Some(t.task) ==> sim'.workers[w].cached == sim.workers[w].cached)
  }

  /** Whether targets that have an outcome are skipped. */
  predicate IsSkipped(conf: Config, sim: Sim, t: TargetId)
    requires t in sim.results
  {
    !conf.forceSimulateAll && sim.results[t] != UnInitialized
  }

  /**
   What becomes of a target taken from the queue: one that has an outcome
   already is skipped, and counted under that outcome if there is an entry for
   it; one whose object or environment collides at the start has that outcome;
   any other is approached, and nothing is recorded for it yet.
   */
  lemma FetchLaw(conf: Config, sim: Sim, w: nat, setup: Setup)
    requires w < |sim.workers| && sim.queue != [] && sim.queue[0] in sim.results
    ensures var t, c, sim' := sim.queue[0], sim.counters, DoFetch(conf, sim, w, setup);
      && TakesFront(conf, sim, sim', w)
      && (IsSkipped(conf, sim, t) ==>
            sim'.results == sim.results && sim'.counters == c.(skipped := c.skipped + 1)
            && (if sim.results[t].OutOfRange? then sim'.stat == sim.stat && sim'.unlisted == sim.unlisted + 1
                else sim'.stat == sim.stat + multiset{sim.results[t]} && sim'.unlisted == sim.unlisted))
      && (!IsSkipped(conf, sim, t) && setup == ObjectCollides ==>
            sim'.results == sim.results[t := CollisionObjectInitially]
            && sim'.stat == sim.stat + multiset{CollisionObjectInitially})
      && (!IsSkipped(conf, sim, t) && setup == EnvironmentCollides ==>
            sim'.results == sim.results[t := CollisionEnvironmentInitially]
            && sim'.stat == sim.stat + multiset{CollisionEnvironmentInitially})
      && (!IsSkipped(conf, sim, t) && setup != Free ==>
            sim'.counters == c.(collision := c.collision + 1) && sim'.unlisted == sim.unlisted)
      && (IsSkipped(conf, sim, t) || setup != Free ==>
            sim'.workers[w].state == sim.workers[w].state && sim'.workers[w].fetching == sim.workers[w].fetching)
      && (!IsSkipped(conf, sim, t) && setup == Free ==>
            sim'.results == sim.results && sim'.stat == sim.stat && sim'.counters == c
            && sim'.unlisted == sim.unlisted && sim'.workers[w].state == APPROACH
            && !sim'.workers[w].fetching && sim'.workers[w].restingTime == 0.0)
  {
  }
}

/**
 The grasp simulation engine (src/simulation/GraspTaskSimulator.cpp) as a state
 machine: several workers share a queue of targets, the results and the
 statistics. One action is the part of a step callback that handles a worker's
 current grasp, or one pass of its loop that fetches the next target, so that
 workers interleave at the queue's lock. Physics, contacts and collisions are
 arbitrary inputs to each action.
 */
module GraspStateMachine {
  import opened GraspStatus

  datatype Option<T> = None | Some(value: T)

  datatype TargetId = TargetId(task: nat, index: nat)

  /** The fields a worker caches from a subtask; frames and poses are only names here. */
  datatype TaskFields = TaskFields(refFrame: nat, offset: nat, approach: nat, retract: nat)

  datatype SubTask = SubTask(fields: TaskFields, nTargets: nat)

  /** Which subclass of the simulator runs, deciding what happens when a grasp has finished. */
  datatype Kind = Plain | Basic | Interfering(limit: real)

  datatype Config = Config(tasks: seq<SubTask>, kind: Kind, forceSimulateAll: bool, suctionCup: bool,
                           wallTimeLimit: real, simTimeLimit: real)

  datatype StepState = GRASPING | LIFTING | NEW_GRASP | APPROACH

  /** `fetching` marks a worker inside the loop that looks for its next target. */
  datatype Worker = Worker(state: StepState, fetching: bool, stopped: bool,
                           task: Option<nat>, target: Option<TargetId>, cached: Option<TaskFields>,
                           restCount: int, restingTime: real, approachedTime: real)

  datatype Counters = Counters(success: nat, slipped: nat, failed: nat, collision: nat, timeout: nat,
                               simfailed: nat, skipped: nat)

  /** What a worker's simulator and sensors report in one step. */
  datatype Sensors = Sensors(wallTime: real, simTime: real, inError: bool, collision: bool,
                             approachReached: bool, resting: bool, suctionClosed: bool, contact: bool,
                             retractReached: bool, slippage: real, objectInterference: seq<real>)

  /** What the collision detector reports for the initial setup of a target. */
  datatype Setup = Free | ObjectCollides | EnvironmentCollides

  /** Worker `worker` took `target` from the queue. */
  datatype Pop = Pop(worker: nat, target: TargetId)

  /**
   The engine. The statistics vector, a count for every status, is a multiset.
   `popped`, `doubles` (collisions recorded for a grasp that had already
   finished in the same step) and `unlisted` (skipped targets whose status the
   statistics have no entry for) are history.
   */
  datatype Sim = Sim(queue: seq<TargetId>, workers: seq<Worker>, results: map<TargetId, Status>,
                     stat: multiset<Status>, counters: Counters, experiments: nat, stopRequested: bool,
                     popped: seq<Pop>, doubles: nat, unlisted: nat)

  function Total(c: Counters): nat {
    c.success + c.slipped + c.failed + c.collision + c.timeout + c.simfailed + c.skipped
  }

  // ------------------------------------------------------- one worker's grasp

  /** What a callback sees and changes before it looks for a new target. */
  datatype Book = Book(w: Worker, status: Status, stat: multiset<Status>, counters: Counters, doubles: nat)

  function SumOf(xs: seq<real>): real {
    if xs == [] then 0.0 else SumOf(xs[..|xs| - 1]) + xs[|xs| - 1]
  }

  /** The status after graspFinished: slippage counts as success, too much interference does not. */
  function Evaluated(kind: Kind, s: Sensors, status: Status): Status {
    var basic := if status == ObjectSlipped then Success else status;
    match kind
    case Plain => status
    case Basic => basic
    case Interfering(limit) =>
      if basic == Success && SumOf(s.objectInterference) > limit then Interference else basic
  }

  /** Record an outcome, bump its counter and let the worker look for a new grasp. */
  function Finish(conf: Config, s: Sensors, b: Book, status: Status, counters: Counters): Book {
    b.(w := b.w.(state := NEW_GRASP), status := Evaluated(conf.kind, s, status),
       stat := b.stat + multiset{status}, counters := counters)
  }

  function TimedOut(conf: Config, s: Sensors, b: Book): Book {
    Finish(conf, s, b, TimeOut, b.counters.(timeout := b.counters.timeout + 1))
  }

  predicate BothLimitsExceeded(conf: Config, s: Sensors) {
    s.wallTime > conf.wallTimeLimit && s.simTime > conf.simTimeLimit
  }

  function CheckLimits(conf: Config, s: Sensors, b: Book): Book {
    if BothLimitsExceeded(conf, s) then TimedOut(conf, s, b) else b
  }

  function CheckTimeout(conf: Config, s: Sensors, b: Book): Book {
    if s.simTime > 5.0 && b.w.state != NEW_GRASP then TimedOut(conf, s, b) else b
  }

  function CheckError(conf: Config, s: Sensors, b: Book): Book {
    if s.inError && b.w.state != NEW_GRASP then
      Finish(conf, s, b, SimulationFailure, b.counters.(simfailed := b.counters.simfailed + 1))
    else b
  }

  /** The one check that does not ask whether the grasp is already over. */
  function CheckCollision(conf: Config, s: Sensors, b: Book): Book {
    if s.collision then
      var f := Finish(conf, s, b, CollisionDuringExecution, b.counters.(collision := b.counters.collision + 1));
      f.(doubles := if b.w.state == NEW_GRASP then b.doubles + 1 else b.doubles)
    else b
  }

  function Approach(s: Sensors, b: Book): Book {
    if b.w.state == APPROACH && s.approachReached then
      b.(w := b.w.(state := GRASPING, approachedTime := s.simTime, restingTime := s.simTime, restCount := 0))
    else b
  }

  /** Once at rest for long enough, or after eight seconds, a held object is lifted. */
  function CloseOn(conf: Config, s: Sensors, b: Book): Book {
    var isResting := if conf.suctionCup then s.suctionClosed else b.w.restCount > 5;
    if !((isResting && s.simTime - b.w.restingTime > 1.5) || s.simTime > 8.0) then b
    else if !s.contact && !conf.suctionCup then
      Finish(conf, s, b, ObjectMissed, b.counters.(failed := b.counters.failed + 1))
    else b.(w := b.w.(state := LIFTING, restCount := 0))
  }

  function Grasp(conf: Config, s: Sensors, b: Book): Book {
    if b.w.state != GRASPING then b
    else if s.simTime > b.w.approachedTime + 0.5 then
      var held := CloseOn(conf, s, if s.resting then b.(w := b.w.(restCount := b.w.restCount + 1)) else b);
      if held.w.restCount == 3 then held.(w := held.w.(restingTime := s.simTime)) else held
    else b.(w := b.w.(restingTime := s.simTime))
  }

  function LiftResult(slippage: real): real {
    if slippage <= 0.02 then (0.02 - slippage) * 50.0 else 0.0
  }

  /** The verdict on a lift that has ended. */
  function Verdict(conf: Config, s: Sensors): Status {
    if (!s.contact && !conf.suctionCup) || (conf.suctionCup && !s.suctionClosed) then ObjectDropped
    else if conf.suctionCup || LiftResult(s.slippage) > 0.50 then Success
    else ObjectSlipped
  }

  function CountVerdict(c: Counters, verdict: Status): Counters {
    match verdict
    case ObjectDropped => c.(failed := c.failed + 1)
    case Success => c.(success := c.success + 1)
    case _ => c.(slipped := c.slipped + 1)
  }

  function Judge(conf: Config, s: Sensors, b: Book): Book {
    var verdict := Verdict(conf, s);
    Finish(conf, s, if verdict == ObjectDropped then b else b.(w := b.w.(restCount := 0)),
           verdict, CountVerdict(b.counters, verdict))
  }

  function Lift(conf: Config, s: Sensors, b: Book): Book {
    if b.w.state != LIFTING then b
    else
      var isLifted := if conf.suctionCup then s.suctionClosed else s.retractReached;
      var lifted := if isLifted then b.(w := b.w.(restCount := b.w.restCount + 1)) else b;
      if isLifted && lifted.w.restCount > 5 then Judge(conf, s, lifted) else lifted
  }

  /** The four checks a running grasp is put through first. */
  function Checks(conf: Config, s: Sensors, b: Book): Book {
    CheckCollision(conf, s, CheckError(conf, s, CheckTimeout(conf, s, CheckLimits(conf, s, b))))
  }

  function Stages(conf: Config, s: Sensors, b: Book): Book {
    Lift(conf, s, Grasp(conf, s, Approach(s, Checks(conf, s, b))))
  }

  // -------------------------------------------------------------- the actions

  datatype Action = Callback(w: nat, sensors: Sensors) | Fetch(w: nat, setup: Setup) | Pause | Resume

  /** The worker's own part of the engine. */
  function Get(sim: Sim, w: nat): Book
    requires w < |sim.workers|
  {
    var t := sim.workers[w].target;
    Book(sim.workers[w], if t.Some? && t.value in sim.results then sim.results[t.value] else UnInitialized,
         sim.stat, sim.counters, sim.doubles)
  }

  function Put(sim: Sim, w: nat, b: Book): Sim
    requires w < |sim.workers|
  {
    sim.(workers := sim.workers[w := b.w],
         results := if b.w.target.Some? then sim.results[b.w.target.value := b.status] else sim.results,
         stat := b.stat, counters := b.counters, doubles := b.doubles)
  }

  /** A worker that took no target yet has no grasp to time out or to collide. */
  predicate SensorsPossible(conf: Config, w: Worker, s: Sensors) {
    w.target.None? ==> !BothLimitsExceeded(conf, s) && !s.collision
  }

  predicate Enabled(conf: Config, sim: Sim, a: Action) {
    match a
    case Callback(w, s) =>
      w < |sim.workers| && !sim.workers[w].stopped && !sim.workers[w].fetching
      && SensorsPossible(conf, sim.workers[w], s)
    case Fetch(w, _) => w < |sim.workers| && sim.workers[w].fetching
    case Pause => true
    case Resume => true
  }

  /** The callback up to the loop that fetches a target; it does nothing while a pause is requested. */
  function DoCallback(conf: Config, sim: Sim, w: nat, s: Sensors): Sim
    requires w < |sim.workers|
  {
    if sim.stopRequested then sim
    else
      var b' := Stages(conf, s, Get(sim, w));
      Put(sim, w, b'.(w := b'.w.(fetching := b'.w.state == NEW_GRASP)))
  }

  function FieldsOf(conf: Config, task: nat): TaskFields {
    if task < |conf.tasks| then conf.tasks[task].fields else TaskFields(0, 0, 0, 0)
  }

  /** The worker after taking target t: the cached fields change only with the subtask. */
  function Took(conf: Config, w: Worker, t: TargetId): Worker {
    if w.task == Some(t.task) then w.(target := Some(t))
    else w.(target := Some(t), task := Some(t.task), cached := Some(FieldsOf(conf, t.task)))
  }

  /** getNextTarget on a queue that is not empty. */
  function Take(conf: Config, sim: Sim, w: nat): Sim
    requires w < |sim.workers| && sim.queue != []
  {
    var t := sim.queue[0];
    sim.(queue := sim.queue[1..], workers := sim.workers[w := Took(conf, sim.workers[w], t)],
         popped := sim.popped + [Pop(w, t)])
  }

  /** A target that already has an outcome: the statistics take it over if they have an entry for it. */
  function Skip(sim: Sim, status: Status): Sim {
    sim.(stat := if status.OutOfRange? then sim.stat else sim.stat + multiset{status},
         unlisted := if status.OutOfRange? then sim.unlisted + 1 else sim.unlisted,
         counters := sim.counters.(skipped := sim.counters.skipped + 1),
         experiments := sim.experiments + 1)
  }

  /** A target whose initial setup collides. */
  function Refuse(sim: Sim, t: TargetId, setup: Setup): Sim {
    var found := if setup == ObjectCollides then CollisionObjectInitially else CollisionEnvironmentInitially;
    sim.(results := sim.results[t := found], stat := sim.stat + multiset{found},
         counters := sim.counters.(collision := sim.counters.collision + 1),
         experiments := sim.experiments + 1)
  }

  function Begin(sim: Sim, w: nat): Sim
    requires w < |sim.workers|
  {
    sim.(workers := sim.workers[w := sim.workers[w].(state := APPROACH, fetching := false, restingTime := 0.0)],
         experiments := sim.experiments + 1)
  }

  function StatusOf(sim: Sim, t: TargetId): Status {
    if t in sim.results then sim.results[t] else UnInitialized
  }

  function Decide(conf: Config, sim: Sim, w: nat, t: TargetId, setup: Setup): Sim
    requires w < |sim.workers|
  {
    if !conf.forceSimulateAll && StatusOf(sim, t) != UnInitialized then Skip(sim, StatusOf(sim, t))
    else if setup != Free then Refuse(sim, t, setup)
    else Begin(sim, w)
  }

  function Retire(sim: Sim, w: nat): Sim
    requires w < |sim.workers|
  {
    sim.(workers := sim.workers[w := sim.workers[w].(stopped := true, fetching := false)])
  }

  /** One pass of the fetching loop. */
  function DoFetch(conf: Config, sim: Sim, w: nat, setup: Setup): Sim
    requires w < |sim.workers|
  {
    if sim.queue == [] then Retire(sim, w)
    else Decide(conf, Take(conf, sim, w), w, sim.queue[0], setup)
  }

  function Apply(conf: Config, sim: Sim, a: Action): Sim
    requires Enabled(conf, sim, a)
  {
    match a
    case Callback(w, s) => DoCallback(conf, sim, w, s)
    case Fetch(w, setup) => DoFetch(conf, sim, w, setup)
    case Pause => sim.(stopRequested := true)
    case Resume => sim.(stopRequested := false)
  }

  /** Every action of the run is enabled when its turn comes. */
  predicate Possible(conf: Config, sim: Sim, run: seq<Action>)
    decreases |run|
  {
    run == [] || (Enabled(conf, sim, run[0]) && Possible(conf, Apply(conf, sim, run[0]), run[1..]))
  }

  function Exec(conf: Config, sim: Sim, run: seq<Action>): Sim
    requires Possible(conf, sim, run)
    decreases |run|
  {
    if run == [] then sim else Exec(conf, Apply(conf, sim, run[0]), run[1..])
  }

  // --------------------------------------------------------------- the start

  /** All targets, subtask by subtask, from subtask i and its target j on. */
  function TargetsFrom(conf: Config, i: nat, j: nat): seq<TargetId>
    decreases |conf.tasks| - i, if i < |conf.tasks| then conf.tasks[i].nTargets - j else 0
  {
    if i >= |conf.tasks| then []
    else if j < conf.tasks[i].nTargets then [TargetId(i, j)] + TargetsFrom(conf, i, j + 1)
    else TargetsFrom(conf, i + 1, 0)
  }

  function AllTargets(conf: Config): seq<TargetId> {
    TargetsFrom(conf, 0, 0)
  }

  const FRESH_WORKER := Worker(NEW_GRASP, false, false, None, None, None, 0, 0.0, 0.0)

  /** The engine right after startSimulation with n workers on a loaded queue. */
  function Started(queue: seq<TargetId>, results: map<TargetId, Status>, n: nat): Sim {
    Sim(queue, seq(n, i => FRESH_WORKER), results, multiset{}, Counters(0, 0, 0, 0, 0, 0, 0), 0, false, [], 0, 0)
  }
}

/**
 The simulator object itself. Its methods update the queue, the workers'
 states, the results and the statistics step by step; each is proved to make
 exactly the move of the state machine in GraspStateMachine, so that everything
 proved about runs holds of the object.
 */
module GraspTaskSimulators {
  import opened GraspStatus
  import opened GraspStateMachine
  import opened GraspInvariants
  import Runs = GraspRuns

  /** Only worker w, its target's result and the tallies differ. */
  ghost predicate OnlyBook(was: Sim, now: Sim, w: nat) {
    && w < |was.workers| == |now.workers|
    && now.workers[w].target == was.workers[w].target
    && (forall v | 0 <= v < |was.workers| && v != w :: now.workers[v] == was.workers[v])
    && now.results.Keys == was.results.Keys
    && (forall t | t in was.results && Some(t) != was.workers[w].target :: now.results[t] == was.results[t])
    && now.queue == was.queue && now.experiments == was.experiments && now.stopRequested == was.stopRequested
    && now.popped == was.popped && now.unlisted == was.unlisted
  }

  /** So the new state is the old one with the worker's new book put in. */
  lemma OnlyBookIsPut(was: Sim, now: Sim, w: nat)
    requires OnlyBook(was, now, w)
    requires was.workers[w].target.Some? ==> was.workers[w].target.value in was.results
    ensures now == Put(was, w, Get(now, w))
  {
    var b := Get(now, w);
    assert now.workers == was.workers[w := b.w];
    assert now.results == Put(was, w, b).results;
  }

  /** The fetching loop ends: each pass takes a target or leaves the loop. */
  lemma FetchProgress(conf: Config, sim: Sim, w: nat, setup: Setup)
    requires w < |sim.workers|
    ensures var sim' := DoFetch(conf, sim, w, setup);
      |sim'.workers| == |sim.workers|
      && (|sim'.queue| < |sim.queue| || (sim'.queue == [] && !sim'.workers[w].fetching))
  {}

  class GraspTaskSimulator {
    const nrOfThreads: nat
    var conf: Config
    var taskQueue: seq<TargetId>
    var totalNrOfExperiments: nat
    var simStates: seq<Worker>
    var results: map<TargetId, Status>
    var stat: multiset<Status>
    var counters: Counters
    var nrOfExperiments: nat
    var requestSimulationStop: bool
    ghost var popped: seq<Pop>
    ghost var doubles: nat
    ghost var unlisted: nat
    /** What the simulation was started with, and everything that has happened since. */
    ghost var queue0: seq<TargetId>
    ghost var results0: map<TargetId, Status>
    ghost var history: seq<Action>

    ghost function Abs(): Sim
      reads this
    {
      Sim(taskQueue, simStates, results, stat, counters, nrOfExperiments, requestSimulationStop,
          popped, doubles, unlisted)
    }

    /** The object is in a state that the state machine reaches by the recorded run. */
    ghost predicate Valid()
      reads this
    {
      Runs.Reached(conf, queue0, results0, |simStates|, history, Abs())
    }

    /** Worker w has a target with a result record to write to. */
    predicate Holding(w: nat)
      reads this
    {
      w < |simStates| && simStates[w].target.Some? && simStates[w].target.value in results
    }

    // ------------------------------------------------------ loading, starting

    constructor (c: Config, threads: nat)
      ensures Valid() && conf == c && totalNrOfExperiments == 0 && simStates == []
      ensures nrOfThreads == if 0 < threads < 20 then threads else 1
    {
      nrOfThreads := if 0 < threads < 20 then threads else 1;
      conf, taskQueue, totalNrOfExperiments, simStates, results := c, [], 0, [], map[];
      stat, counters, nrOfExperiments := multiset{}, Counters(0, 0, 0, 0, 0, 0, 0), 0;
      requestSimulationStop := false;
      popped, doubles, unlisted := [], 0, 0;
      queue0, results0, history := [], map[], [];
    }

    /** generateTaskList fills a stack backwards, so that it empties forwards. */
    method GenerateTaskList() returns (queue: seq<TargetId>, count: nat)
      ensures queue == AllTargets(conf) && count == |queue|
    {
      queue, count := [], 0;
      var i: nat := |conf.tasks|;
      while i > 0
        invariant i <= |conf.tasks| && queue == TargetsFrom(conf, i, 0) && count == |queue|
      {
        i := i - 1;
        var j: nat := conf.tasks[i].nTargets;
        while j > 0
          invariant j <= conf.tasks[i].nTargets && queue == TargetsFrom(conf, i, j) && count == |queue|
        {
          j := j - 1;
          queue := [TargetId(i, j)] + queue;
          count := count + 1;
        }
      }
    }

    /** Load a task whose targets carry the outcomes in `given`. */
    method Load(task: Config, given: map<TargetId, Status>)
      requires forall i: nat, j: nat | i < |task.tasks| && j < task.tasks[i].nTargets :: TargetId(i, j) in given
      modifies this`conf, this`taskQueue, this`totalNrOfExperiments, this`results
      ensures conf == task && results == given && taskQueue == AllTargets(task)
      ensures totalNrOfExperiments == |taskQueue| && Runs.Loaded(taskQueue, results)
    {
      conf := task;
      results := given;
      var queue, nrOfTargets := GenerateTaskList();
      taskQueue, totalNrOfExperiments := queue, nrOfTargets;
      Runs.AllTargetsOnce(conf);
      forall k | 0 <= k < |taskQueue| ensures taskQueue[k] in results {
        assert taskQueue[k] in AllTargets(conf);
      }
    }

    method NewSimStates() returns (made: seq<Worker>)
      ensures made == seq(nrOfThreads, i => FRESH_WORKER)
    {
      made := [];
      for i := 0 to nrOfThreads
        invariant made == seq(i, k => FRESH_WORKER)
      {
        made := made + [FRESH_WORKER];
      }
    }

    method ResetAll()
      modifies this`simStates, this`stat, this`counters, this`nrOfExperiments, this`requestSimulationStop,
               this`popped, this`doubles, this`unlisted
      ensures Abs() == Started(taskQueue, results, nrOfThreads)
    {
      nrOfExperiments := 0;
      requestSimulationStop := false;
      counters := Counters(0, 0, 0, 0, 0, 0, 0);
      stat := multiset{};
      simStates := NewSimStates();
      popped, doubles, unlisted := [], 0, 0;
    }

    /** No simulation has been started yet. */
    ghost predicate Unstarted()
      reads this
    {
      Abs() == Started(taskQueue, results, 0).(stopRequested := requestSimulationStop)
    }

    /**
     With something to do, every counter and worker is reset; the queue is left
     as it is, freshly loaded or with what an earlier run has left of it. With
     nothing to do a stop is requested and whatever an earlier run left in the
     counters stays there.
     */
    method StartSimulation()
      requires Valid() || Runs.Loaded(taskQueue, results)
      modifies this`simStates, this`stat, this`counters, this`nrOfExperiments, this`requestSimulationStop,
               this`popped, this`doubles, this`unlisted, this`queue0, this`results0, this`history
      ensures Runs.Loaded(taskQueue, results)
      ensures totalNrOfExperiments == 0 ==>
        Abs() == old(Abs()).(experiments := 0, stopRequested := true) && Runs.IsFinished(Abs(), totalNrOfExperiments)
      ensures totalNrOfExperiments == 0 && old(Unstarted()) ==> Valid() && history == [Pause]
      ensures totalNrOfExperiments == 0 && old(Valid()) && old(nrOfExperiments) == 0 && !old(Unstarted()) ==>
        Valid() && history == old(history) + [Pause]
      ensures totalNrOfExperiments > 0 ==>
        Valid() && Abs() == Started(taskQueue, results, nrOfThreads)
        && queue0 == taskQueue && results0 == results && history == []
    {
      if !Runs.Loaded(taskQueue, results) {
        Runs.ReachedIsLoaded(conf, queue0, results0, |simStates|, history, Abs());
      }
      if totalNrOfExperiments == 0 {
        StartNothing();
        return;
      }
      ResetAll();
      queue0, results0, history := taskQueue, results, [];
      Runs.ReachedAtStart(conf, queue0, results0, nrOfThreads);
    }

    method StartNothing()
      requires Runs.Loaded(taskQueue, results)
      modifies this`nrOfExperiments, this`requestSimulationStop, this`queue0, this`results0, this`history
      ensures Abs() == old(Abs()).(experiments := 0, stopRequested := true)
      ensures old(Unstarted()) ==> Valid() && history == [Pause]
      ensures old(Valid()) && old(nrOfExperiments) == 0 && !old(Unstarted()) ==>
        Valid() && history == old(history) + [Pause]
    {
      if Unstarted() {
        queue0, results0, history := taskQueue, results, [] + [Pause];
        var start := Started(queue0, results0, 0);
        Runs.ReachedAtStart(conf, queue0, results0, 0);
        Runs.ReachedNext(conf, queue0, results0, 0, [], start, Pause);
      } else if Valid() && nrOfExperiments == 0 {
        Runs.ReachedNext(conf, queue0, results0, |simStates|, history, Abs(), Pause);
        history := history + [Pause];
      }
      nrOfExperiments := 0;
      requestSimulationStop := true;
    }

    method PauseSimulation()
      requires Valid()
      modifies this`requestSimulationStop, this`history
      ensures Valid() && history == old(history) + [Pause] && requestSimulationStop
    {
      Runs.ReachedNext(conf, queue0, results0, |simStates|, history, Abs(), Pause);
      requestSimulationStop := true;
      history := history + [Pause];
    }

    method ResumeSimulation()
      requires Valid()
      modifies this`requestSimulationStop, this`history
      ensures Valid() && history == old(history) + [Resume] && !requestSimulationStop
    {
      Runs.ReachedNext(conf, queue0, results0, |simStates|, history, Abs(), Resume);
      requestSimulationStop := false;
      history := history + [Resume];
    }

    method IsRunning() returns (running: bool)
      ensures running == Runs.IsRunning(Abs())
    {
      if requestSimulationStop { return false; }
      for w := 0 to |simStates|
        invariant forall v | 0 <= v < w :: simStates[v].stopped
      {
        if !simStates[w].stopped { return true; }
      }
      return false;
    }

    method IsFinished() returns (finished: bool)
      ensures finished == Runs.IsFinished(Abs(), totalNrOfExperiments)
    {
      var running := IsRunning();
      finished := totalNrOfExperiments == nrOfExperiments && !running;
    }

    // -------------------------------------------------------- step callback

    /** calculateSceneInterference adds up what every object of the scene reports. */
    method CalculateSceneInterference(objectInterference: seq<real>) returns (interference: real)
      ensures interference == SumOf(objectInterference)
    {
      interference := 0.0;
      for i := 0 to |objectInterference|
        invariant interference == SumOf(objectInterference[..i])
      {
        assert objectInterference[..i + 1][..i] == objectInterference[..i];
        interference := interference + objectInterference[i];
      }
      assert objectInterference[..|objectInterference|] == objectInterference;
    }

    method EvaluateGrasp(w: nat, s: Sensors)
      requires Holding(w)
      modifies this`results
      ensures results == old(results)[simStates[w].target.value :=
        Evaluated(conf.kind, s, old(results)[simStates[w].target.value])]
    {
      var t := simStates[w].target.value;
      if !conf.kind.Plain? && results[t] == ObjectSlipped {
        results := results[t := Success];
      }
      if conf.kind.Interfering? && results[t] == Success {
        var interference := CalculateSceneInterference(s.objectInterference);
        if interference > conf.kind.limit {
          results := results[t := Interference];
        }
      }
    }

    /** Write an outcome, count it, end the grasp and let the subclass evaluate it. */
    method Record(w: nat, s: Sensors, status: Status, counted: Counters)
      requires Holding(w)
      modifies this`simStates, this`results, this`stat, this`counters
      ensures OnlyBook(old(Abs()), Abs(), w)
      ensures Get(Abs(), w) == Finish(conf, s, Get(old(Abs()), w), status, counted)
    {
      var t := simStates[w].target.value;
      results := results[t := status];
      stat := stat + multiset{status};
      counters := counted;
      simStates := simStates[w := simStates[w].(state := NEW_GRASP)];
      EvaluateGrasp(w, s);
    }

    method CheckTimeLimits(w: nat, s: Sensors)
      requires w < |simStates| && (BothLimitsExceeded(conf, s) || simStates[w].state != NEW_GRASP ==> Holding(w))
      modifies this`simStates, this`results, this`stat, this`counters
      ensures OnlyBook(old(Abs()), Abs(), w)
      ensures Get(Abs(), w) == CheckTimeout(conf, s, CheckLimits(conf, s, Get(old(Abs()), w)))
    {
      if s.wallTime > conf.wallTimeLimit && s.simTime > conf.simTimeLimit {
        Record(w, s, TimeOut, counters.(timeout := counters.timeout + 1));
      }
      if s.simTime > 5.0 && simStates[w].state != NEW_GRASP {
        Record(w, s, TimeOut, counters.(timeout := counters.timeout + 1));
      }
    }

    method CheckSimulatorError(w: nat, s: Sensors)
      requires w < |simStates| && (simStates[w].state != NEW_GRASP ==> Holding(w))
      modifies this`simStates, this`results, this`stat, this`counters
      ensures OnlyBook(old(Abs()), Abs(), w)
      ensures Get(Abs(), w) == CheckError(conf, s, Get(old(Abs()), w))
    {
      if s.inError && simStates[w].state != NEW_GRASP {
        Record(w, s, SimulationFailure, counters.(simfailed := counters.simfailed + 1));
      }
    }

    method CheckRuntimeCollision(w: nat, s: Sensors)
      requires w < |simStates| && (s.collision ==> Holding(w))
      modifies this`simStates, this`results, this`stat, this`counters, this`doubles
      ensures OnlyBook(old(Abs()), Abs(), w)
      ensures Get(Abs(), w) == CheckCollision(conf, s, Get(old(Abs()), w))
    {
      if s.collision {
        ghost var over := simStates[w].state == NEW_GRASP;
        Record(w, s, CollisionDuringExecution, counters.(collision := counters.collision + 1));
        if over {
          doubles := doubles + 1;
        }
      }
    }

    method StepApproach(w: nat, s: Sensors)
      requires w < |simStates|
      modifies this`simStates
      ensures OnlyBook(old(Abs()), Abs(), w)
      ensures Get(Abs(), w) == Approach(s, Get(old(Abs()), w))
    {
      if simStates[w].state == APPROACH && s.approachReached {
        simStates := simStates[w := simStates[w].(state := GRASPING, approachedTime := s.simTime,
                                                  restingTime := s.simTime, restCount := 0)];
      }
    }

    method CloseOnObject(w: nat, s: Sensors)
      requires Holding(w)
      modifies this`simStates, this`results, this`stat, this`counters
      ensures OnlyBook(old(Abs()), Abs(), w)
      ensures Get(Abs(), w) == CloseOn(conf, s, Get(old(Abs()), w))
    {
      var isResting := simStates[w].restCount > 5;
      if conf.suctionCup {
        isResting := s.suctionClosed;
      }
      if (isResting && s.simTime - simStates[w].restingTime > 1.5) || s.simTime > 8.0 {
        if !s.contact && !conf.suctionCup {
          Record(w, s, ObjectMissed, counters.(failed := counters.failed + 1));
        } else {
          simStates := simStates[w := simStates[w].(state := LIFTING, restCount := 0)];
        }
      }
    }

    method StepGrasping(w: nat, s: Sensors)
      requires w < |simStates| && (simStates[w].state != NEW_GRASP ==> Holding(w))
      modifies this`simStates, this`results, this`stat, this`counters
      ensures OnlyBook(old(Abs()), Abs(), w)
      ensures Get(Abs(), w) == Grasp(conf, s, Get(old(Abs()), w))
    {
      if simStates[w].state == GRASPING {
        if s.simTime > simStates[w].approachedTime + 0.5 {
          if s.resting {
            simStates := simStates[w := simStates[w].(restCount := simStates[w].restCount + 1)];
          }
          CloseOnObject(w, s);
          if simStates[w].restCount == 3 {
            simStates := simStates[w := simStates[w].(restingTime := s.simTime)];
          }
        } else {
          simStates := simStates[w := simStates[w].(restingTime := s.simTime)];
        }
      }
    }

    method VerdictOnLift(s: Sensors) returns (status: Status)
      ensures status == Verdict(conf, s)
    {
      if (!s.contact && !conf.suctionCup) || (conf.suctionCup && !s.suctionClosed) {
        return ObjectDropped;
      }
      var liftResult := 1.0;
      if !conf.suctionCup {
        liftResult := if s.slippage <= 0.02 then (0.02 - s.slippage) * 50.0 else 0.0;
      }
      if liftResult > 0.50 { return Success; }
      return ObjectSlipped;
    }

    method JudgeLift(w: nat, s: Sensors)
      requires Holding(w)
      modifies this`simStates, this`results, this`stat, this`counters
      ensures OnlyBook(old(Abs()), Abs(), w)
      ensures Get(Abs(), w) == Judge(conf, s, Get(old(Abs()), w))
    {
      var status := VerdictOnLift(s);
      if status != ObjectDropped {
        simStates := simStates[w := simStates[w].(restCount := 0)];
      }
      Record(w, s, status, CountVerdict(counters, status));
    }

    method StepLifting(w: nat, s: Sensors)
      requires w < |simStates| && (simStates[w].state != NEW_GRASP ==> Holding(w))
      modifies this`simStates, this`results, this`stat, this`counters
      ensures OnlyBook(old(Abs()), Abs(), w)
      ensures Get(Abs(), w) == Lift(conf, s, Get(old(Abs()), w))
    {
      if simStates[w].state == LIFTING {
        var isLifted := s.retractReached;
        if conf.suctionCup {
          isLifted := s.suctionClosed;
        }
        if isLifted {
          simStates := simStates[w := simStates[w].(restCount := simStates[w].restCount + 1)];
        }
        if isLifted && simStates[w].restCount > 5 {
          JudgeLift(w, s);
        }
      }
    }

    /** All the stages on worker w's grasp, in the order of the callback. */
    method StepStages(w: nat, s: Sensors)
      requires w < |simStates| && SensorsPossible(conf, simStates[w], s)
      requires simStates[w].state != NEW_GRASP || simStates[w].target.Some? ==> Holding(w)
      modifies this`simStates, this`results, this`stat, this`counters, this`doubles
      ensures OnlyBook(old(Abs()), Abs(), w)
      ensures Get(Abs(), w) == Stages(conf, s, Get(old(Abs()), w))
    {
      CheckTimeLimits(w, s);
      CheckSimulatorError(w, s);
      CheckRuntimeCollision(w, s);
      StepApproach(w, s);
      StepGrasping(w, s);
      StepLifting(w, s);
    }

    /** The callback up to its fetching loop. */
    method StepGrasp(w: nat, s: Sensors)
      requires Enabled(conf, Abs(), Callback(w, s))
      requires simStates[w].state != NEW_GRASP || simStates[w].target.Some? ==> Holding(w)
      modifies this`simStates, this`results, this`stat, this`counters, this`doubles
      ensures Abs() == DoCallback(conf, old(Abs()), w, s)
    {
      if requestSimulationStop { return; }
      StepStages(w, s);
      simStates := simStates[w := simStates[w].(fetching := simStates[w].state == NEW_GRASP)];
      OnlyBookIsPut(old(Abs()), Abs(), w);
    }

    method HandleGrasp(w: nat, s: Sensors)
      requires Valid() && Enabled(conf, Abs(), Callback(w, s))
      modifies this`simStates, this`results, this`stat, this`counters, this`doubles, this`history
      ensures Valid() && history == old(history) + [Callback(w, s)] && |simStates| == old(|simStates|)
    {
      Runs.ReachedNext(conf, queue0, results0, |simStates|, history, Abs(), Callback(w, s));
      Runs.ReachedHasRecords(conf, queue0, results0, |simStates|, history, Abs());
      history := history + [Callback(w, s)];
      StepGrasp(w, s);
    }

    method GetNextTarget(w: nat) returns (found: bool)
      requires w < |simStates|
      modifies this`taskQueue, this`simStates, this`popped
      ensures found == (old(taskQueue) != [])
      ensures Abs() == if found then Take(conf, old(Abs()), w) else old(Abs())
    {
      if taskQueue == [] { return false; }
      var t := taskQueue[0];
      taskQueue := taskQueue[1..];
      popped := popped + [Pop(w, t)];
      simStates := simStates[w := simStates[w].(target := Some(t))];
      if simStates[w].task != Some(t.task) {
        simStates := simStates[w := simStates[w].(task := Some(t.task), cached := Some(FieldsOf(conf, t.task)))];
      }
      return true;
    }

    method SkipTarget(t: TargetId)
      requires t in results
      modifies this`stat, this`counters, this`nrOfExperiments, this`unlisted
      ensures Abs() == Skip(old(Abs()), results[t])
    {
      if results[t].OutOfRange? {
        unlisted := unlisted + 1;
      } else {
        stat := stat + multiset{results[t]};
      }
      counters := counters.(skipped := counters.skipped + 1);
      nrOfExperiments := nrOfExperiments + 1;
    }

    method RefuseTarget(t: TargetId, setup: Setup)
      modifies this`results, this`stat, this`counters, this`nrOfExperiments
      ensures Abs() == Refuse(old(Abs()), t, setup)
    {
      var status := if setup == ObjectCollides then CollisionObjectInitially else CollisionEnvironmentInitially;
      results := results[t := status];
      stat := stat + multiset{status};
      counters := counters.(collision := counters.collision + 1);
      nrOfExperiments := nrOfExperiments + 1;
    }

    /** One pass of the fetching loop. */
    method FetchOnce(w: nat, setup: Setup)
      requires w < |simStates| && (taskQueue != [] ==> taskQueue[0] in results)
      modifies this`taskQueue, this`simStates, this`popped, this`results, this`stat, this`counters,
               this`nrOfExperiments, this`unlisted
      ensures Abs() == DoFetch(conf, old(Abs()), w, setup)
    {
      var found := GetNextTarget(w);
      if !found {
        simStates := simStates[w := simStates[w].(stopped := true, fetching := false)];
        return;
      }
      var t := simStates[w].target.value;
      if !conf.forceSimulateAll && results[t] != UnInitialized {
        SkipTarget(t);
      } else if setup != Free {
        RefuseTarget(t, setup);
      } else {
        nrOfExperiments := nrOfExperiments + 1;
        simStates := simStates[w := simStates[w].(state := APPROACH, fetching := false, restingTime := 0.0)];
      }
    }

    method FetchTarget(w: nat, setup: Setup)
      requires Valid() && Enabled(conf, Abs(), Fetch(w, setup))
      modifies this`taskQueue, this`simStates, this`popped, this`results, this`stat, this`counters,
               this`nrOfExperiments, this`unlisted, this`history
      ensures Valid() && history == old(history) + [Fetch(w, setup)] && |simStates| == old(|simStates|)
      ensures |taskQueue| < |old(taskQueue)| || (taskQueue == [] && !simStates[w].fetching)
    {
      Runs.ReachedNext(conf, queue0, results0, |simStates|, history, Abs(), Fetch(w, setup));
      Runs.ReachedHasRecords(conf, queue0, results0, |simStates|, history, Abs());
      history := history + [Fetch(w, setup)];
      FetchProgress(conf, Abs(), w, setup);
      FetchOnce(w, setup);
    }

    /**
     One whole callback with no other worker in between. `setups` says how each
     target's initial setup collides.
     */
    method StepCallback(w: nat, s: Sensors, setups: TargetId -> Setup)
      requires Valid() && Enabled(conf, Abs(), Callback(w, s))
      modifies this`taskQueue, this`simStates, this`popped, this`results, this`stat, this`counters,
               this`nrOfExperiments, this`doubles, this`unlisted, this`history
      ensures Valid() && |simStates| == old(|simStates|) && !simStates[w].fetching
      ensures |history| > |old(history)| && history[..|old(history)| + 1] == old(history) + [Callback(w, s)]
      ensures forall k | |old(history)| < k < |history| :: history[k].Fetch? && history[k].w == w
    {
      HandleGrasp(w, s);
      while simStates[w].fetching
        invariant Valid() && |simStates| == old(|simStates|)
        invariant |history| > |old(history)| && history[..|old(history)| + 1] == old(history) + [Callback(w, s)]
        invariant forall k | |old(history)| < k < |history| :: history[k].Fetch? && history[k].w == w
        decreases |taskQueue|, simStates[w].fetching
      {
        FetchTarget(w, if taskQueue == [] then Free else setups(taskQueue[0]));
      }
    }
  }
}

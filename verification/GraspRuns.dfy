/**
 The main results about the grasp engine: statements over every run, that is
 over every interleaving of the workers' actions, from the moment the
 simulation is started.
 */
module GraspRuns {
  import opened GraspStatus
  import opened GraspStateMachine
  import opened GraspInvariants

  /** A queue whose targets differ and all have a result record to write to. */
  ghost predicate Loaded(queue0: seq<TargetId>, results: map<TargetId, Status>) {
    Distinct(queue0) && forall i | 0 <= i < |queue0| :: queue0[i] in results
  }

  /** The state after a run of n workers. */
  ghost predicate Reached(conf: Config, queue0: seq<TargetId>, results: map<TargetId, Status>, n: nat,
                          run: seq<Action>, sim: Sim)
  {
    var start := Started(queue0, results, n);
    Loaded(queue0, results) && Possible(conf, start, run) && sim == Exec(conf, start, run)
  }

  lemma ReachedInv(conf: Config, queue0: seq<TargetId>, results: map<TargetId, Status>, n: nat,
                   run: seq<Action>, sim: Sim)
    requires Reached(conf, queue0, results, n, run, sim)
    ensures Inv(conf, queue0, sim) && |sim.workers| == n
  {
    StartedInv(conf, queue0, results, n);
    ExecKeepsInv(conf, queue0, Started(queue0, results, n), run);
  }

  lemma {:induction false} ExecNext(conf: Config, sim: Sim, run: seq<Action>, a: Action)
    requires Possible(conf, sim, run) && Enabled(conf, Exec(conf, sim, run), a)
    ensures Possible(conf, sim, run + [a])
    ensures Exec(conf, sim, run + [a]) == Apply(conf, Exec(conf, sim, run), a)
    decreases |run|
  {
    if run == [] {
      var now := Apply(conf, sim, a);
      assert ([] + [a])[1..] == [] && Possible(conf, now, []) && Exec(conf, now, []) == now;
    } else {
      assert (run + [a])[1..] == run[1..] + [a];
      ExecNext(conf, Apply(conf, sim, run[0]), run[1..], a);
    }
  }

  lemma ReachedAtStart(conf: Config, queue0: seq<TargetId>, results: map<TargetId, Status>, n: nat)
    requires Loaded(queue0, results)
    ensures Reached(conf, queue0, results, n, [], Started(queue0, results, n))
  {}

  /** One more action that is enabled leads to a state that is reached again. */
  lemma ReachedNext(conf: Config, queue0: seq<TargetId>, results: map<TargetId, Status>, n: nat,
                    run: seq<Action>, sim: Sim, a: Action)
    requires Reached(conf, queue0, results, n, run, sim) && Enabled(conf, sim, a)
    ensures Reached(conf, queue0, results, n, run + [a], Apply(conf, sim, a))
  {
    ExecNext(conf, Started(queue0, results, n), run, a);
  }

  /** Both the targets workers hold and those that wait have result records. */
  lemma ReachedHasRecords(conf: Config, queue0: seq<TargetId>, results: map<TargetId, Status>, n: nat,
                          run: seq<Action>, sim: Sim)
    requires Reached(conf, queue0, results, n, run, sim)
    ensures |sim.workers| == n
    ensures forall i | 0 <= i < |sim.queue| :: sim.queue[i] in sim.results
    ensures forall w | 0 <= w < n ::
      (sim.workers[w].state != NEW_GRASP ==> sim.workers[w].target.Some?)
      && (sim.workers[w].target.Some? ==> sim.workers[w].target.value in sim.results)
  {
    ReachedInv(conf, queue0, results, n, run, sim);
    forall i | 0 <= i < |sim.queue| ensures sim.queue[i] in sim.results {
      WaitingOrPopped(queue0, sim, |sim.popped| + i);
    }
    forall w | 0 <= w < n
      ensures (sim.workers[w].state != NEW_GRASP ==> sim.workers[w].target.Some?)
        && (sim.workers[w].target.Some? ==> sim.workers[w].target.value in sim.results)
    {
      assert WorkerOk(conf, sim, w);
      if sim.workers[w].target.Some? {
        var k :| 0 <= k < |sim.popped| && sim.popped[k] == Pop(w, sim.workers[w].target.value);
      }
    }
  }

  /** What is left of the queue can be started again. */
  lemma ReachedIsLoaded(conf: Config, queue0: seq<TargetId>, results: map<TargetId, Status>, n: nat,
                        run: seq<Action>, sim: Sim)
    requires Reached(conf, queue0, results, n, run, sim)
    ensures Loaded(sim.queue, sim.results)
  {
    ReachedHasRecords(conf, queue0, results, n, run, sim);
    ReachedInv(conf, queue0, results, n, run, sim);
    forall i, j | 0 <= i < j < |sim.queue| ensures sim.queue[i] != sim.queue[j] {
      WaitingOrPopped(queue0, sim, |sim.popped| + i);
      WaitingOrPopped(queue0, sim, |sim.popped| + j);
    }
  }

  // ------------------------------------------------------------- the queue

  lemma {:induction false} TargetsFromIsOrdered(conf: Config, i: nat, j: nat, k: nat)
    requires k < |TargetsFrom(conf, i, j)|
    ensures var t := TargetsFrom(conf, i, j)[k];
      t.task < |conf.tasks| && t.index < conf.tasks[t.task].nTargets
      && (t.task > i || (t.task == i && t.index >= j))
    decreases |conf.tasks| - i, if i < |conf.tasks| then conf.tasks[i].nTargets - j else 0
  {
    if i < |conf.tasks| {
      if j < conf.tasks[i].nTargets {
        if k > 0 { TargetsFromIsOrdered(conf, i, j + 1, k - 1); }
      } else {
        TargetsFromIsOrdered(conf, i + 1, 0, k);
      }
    }
  }

  predicate Before(t: TargetId, u: TargetId) {
    t.task < u.task || (t.task == u.task && t.index < u.index)
  }

  ghost predicate Ascending(ts: seq<TargetId>) {
    forall k, l | 0 <= k < l < |ts| :: Before(ts[k], ts[l])
  }

  lemma {:induction false} TargetsFromIsAscending(conf: Config, i: nat, j: nat)
    ensures Ascending(TargetsFrom(conf, i, j))
    decreases |conf.tasks| - i, if i < |conf.tasks| then conf.tasks[i].nTargets - j else 0
  {
    if i < |conf.tasks| {
      if j < conf.tasks[i].nTargets {
        var rest := TargetsFrom(conf, i, j + 1);
        TargetsFromIsAscending(conf, i, j + 1);
        forall k | 0 <= k < |rest| ensures Before(TargetId(i, j), rest[k]) {
          TargetsFromIsOrdered(conf, i, j + 1, k);
        }
      } else {
        TargetsFromIsAscending(conf, i + 1, 0);
      }
    }
  }

  lemma {:induction false} TargetsFromIsComplete(conf: Config, i: nat, j: nat, t: TargetId)
    requires t.task < |conf.tasks| && t.index < conf.tasks[t.task].nTargets
    requires t.task > i || (t.task == i && t.index >= j)
    ensures t in TargetsFrom(conf, i, j)
    decreases |conf.tasks| - i, if i < |conf.tasks| then conf.tasks[i].nTargets - j else 0
  {
    if j < conf.tasks[i].nTargets {
      if t != TargetId(i, j) { TargetsFromIsComplete(conf, i, j + 1, t); }
    } else {
      TargetsFromIsComplete(conf, i + 1, 0, t);
    }
  }

  /** The generated list holds exactly the grasp task's targets, each once, in the order of the file. */
  lemma AllTargetsOnce(conf: Config)
    ensures Ascending(AllTargets(conf)) && Distinct(AllTargets(conf))
    ensures forall t: TargetId :: t in AllTargets(conf) <==>
      t.task < |conf.tasks| && t.index < conf.tasks[t.task].nTargets
  {
    TargetsFromIsAscending(conf, 0, 0);
    forall t: TargetId
      ensures t in AllTargets(conf) <==> t.task < |conf.tasks| && t.index < conf.tasks[t.task].nTargets
    {
      if t in AllTargets(conf) {
        var k :| 0 <= k < |AllTargets(conf)| && AllTargets(conf)[k] == t;
        TargetsFromIsOrdered(conf, 0, 0, k);
      } else if t.task < |conf.tasks| && t.index < conf.tasks[t.task].nTargets {
        TargetsFromIsComplete(conf, 0, 0, t);
      }
    }
  }

  // ------------------------------------------------------------ conservation

  ghost predicate InRange(results: map<TargetId, Status>) {
    forall t | t in results :: !results[t].OutOfRange?
  }

  lemma ApplyKeepsRange(conf: Config, queue0: seq<TargetId>, sim: Sim, a: Action)
    requires Inv(conf, queue0, sim) && Enabled(conf, sim, a)
    requires InRange(sim.results) && sim.unlisted == 0
    ensures InRange(Apply(conf, sim, a).results) && Apply(conf, sim, a).unlisted == 0
  {
    if a.Callback? && !sim.stopRequested {
      assert WorkerOk(conf, sim, a.w);
      if sim.workers[a.w].target.Some? {
        CallbackShape(conf, queue0, sim, a.w, a.sensors);
      } else {
        IdleCallback(conf, sim, a.w, a.sensors);
      }
    }
  }

  lemma {:induction false} ExecKeepsRange(conf: Config, queue0: seq<TargetId>, sim: Sim, run: seq<Action>)
    requires Inv(conf, queue0, sim) && Distinct(queue0) && Possible(conf, sim, run)
    requires InRange(sim.results) && sim.unlisted == 0
    ensures InRange(Exec(conf, sim, run).results) && Exec(conf, sim, run).unlisted == 0
    decreases |run|
  {
    if run != [] {
      ApplyKeepsRange(conf, queue0, sim, run[0]);
      ApplyKeepsInv(conf, queue0, sim, run[0]);
      ExecKeepsRange(conf, queue0, Apply(conf, sim, run[0]), run[1..]);
    }
  }

  /** The step reports a collision of a grasp that one of the earlier checks of the same step has ended. */
  predicate LateCollision(conf: Config, s: Sensors) {
    s.collision && (BothLimitsExceeded(conf, s) || s.simTime > 5.0 || s.inError)
  }

  /** The first three checks end a grasp exactly on these reports. */
  lemma ChecksBeforeCollision(conf: Config, s: Sensors, b: Book)
    requires b.w.state != NEW_GRASP
    ensures var b' := CheckError(conf, s, CheckTimeout(conf, s, CheckLimits(conf, s, b)));
      && b'.doubles == b.doubles
      && (b'.w.state == NEW_GRASP <==> BothLimitsExceeded(conf, s) || s.simTime > 5.0 || s.inError)
  {
    var b1 := CheckLimits(conf, s, b);
    assert b1.doubles == b.doubles && (b1.w.state == NEW_GRASP <==> BothLimitsExceeded(conf, s));
    var b2 := CheckTimeout(conf, s, b1);
    assert b2.doubles == b.doubles && (b2.w.state == NEW_GRASP <==> BothLimitsExceeded(conf, s) || s.simTime > 5.0);
  }

  lemma LateStagesKeepDoubles(conf: Config, s: Sensors, b: Book)
    ensures var b' := Lift(conf, s, Grasp(conf, s, Approach(s, b)));
      b'.doubles == b.doubles && (b.w.state == NEW_GRASP ==> b' == b)
  {
    var b1 := Approach(s, b);
    var b2 := Grasp(conf, s, b1);
    assert b2.doubles == b1.doubles;
  }

  /** A grasp is counted twice in one step exactly on a late collision; any collision ends it. */
  lemma StagesDoubleIffLate(conf: Config, s: Sensors, b: Book)
    requires b.w.state != NEW_GRASP
    ensures Stages(conf, s, b).doubles == b.doubles + if LateCollision(conf, s) then 1 else 0
    ensures s.collision ==> Stages(conf, s, b).w.state == NEW_GRASP
  {
    ChecksBeforeCollision(conf, s, b);
    LateStagesKeepDoubles(conf, s, Checks(conf, s, b));
  }

  /** A step of a worker in the middle of a grasp that reports a late collision. */
  predicate IsLate(conf: Config, sim: Sim, a: Action) {
    a.Callback? && a.w < |sim.workers| && !sim.stopRequested && sim.workers[a.w].state != NEW_GRASP
    && LateCollision(conf, a.sensors)
  }

  function LateCollisions(conf: Config, sim: Sim, run: seq<Action>): nat
    requires Possible(conf, sim, run)
    decreases |run|
  {
    if run == [] then 0
    else (if IsLate(conf, sim, run[0]) then 1 else 0) + LateCollisions(conf, Apply(conf, sim, run[0]), run[1..])
  }

  lemma ApplyDoublesIffLate(conf: Config, queue0: seq<TargetId>, sim: Sim, a: Action)
    requires Inv(conf, queue0, sim) && Enabled(conf, sim, a)
    ensures Apply(conf, sim, a).doubles == sim.doubles + if IsLate(conf, sim, a) then 1 else 0
  {
    if a.Callback? && !sim.stopRequested {
      assert WorkerOk(conf, sim, a.w);
      if sim.workers[a.w].target.Some? {
        StagesDoubleIffLate(conf, a.sensors, Get(sim, a.w));
      } else {
        IdleCallback(conf, sim, a.w, a.sensors);
      }
    }
  }

  lemma {:induction false} ExecDoublesCountLate(conf: Config, queue0: seq<TargetId>, sim: Sim, run: seq<Action>)
    requires Inv(conf, queue0, sim) && Distinct(queue0) && Possible(conf, sim, run)
    ensures Exec(conf, sim, run).doubles == sim.doubles + LateCollisions(conf, sim, run)
    decreases |run|
  {
    if run != [] {
      ApplyDoublesIffLate(conf, queue0, sim, run[0]);
      ApplyKeepsInv(conf, queue0, sim, run[0]);
      ExecDoublesCountLate(conf, queue0, Apply(conf, sim, run[0]), run[1..]);
    }
  }

  /**
   The statistics and the counters agree, and together with the grasps under
   way they account for every experiment; each late collision of the run
   counts once more.
   */
  lemma CountersConserved(conf: Config, queue0: seq<TargetId>, results: map<TargetId, Status>, n: nat,
                          run: seq<Action>, sim: Sim)
    requires Reached(conf, queue0, results, n, run, sim)
    ensures |sim.stat| + sim.unlisted == Total(sim.counters)
    ensures Total(sim.counters) == sim.experiments - ActiveCount(sim.workers) + sim.doubles
    ensures sim.doubles == LateCollisions(conf, Started(queue0, results, n), run)
    ensures InRange(results) ==> |sim.stat| == Total(sim.counters)
  {
    ReachedInv(conf, queue0, results, n, run, sim);
    StartedInv(conf, queue0, results, n);
    ExecDoublesCountLate(conf, queue0, Started(queue0, results, n), run);
    if InRange(results) {
      ExecKeepsRange(conf, queue0, Started(queue0, results, n), run);
    }
  }

  /** A step in which nothing is reported. */
  function Calm(conf: Config): Sensors {
    Sensors(conf.wallTimeLimit, 0.0, false, false, false, false, false, false, false, 0.0, [])
  }

  /** A run to the middle of the only grasp. */
  lemma OneGraspUnderWay(conf: Config) returns (run: seq<Action>, sim: Sim)
    ensures Reached(conf, [TargetId(0, 0)], map[TargetId(0, 0) := UnInitialized], 1, run, sim)
    ensures |sim.workers| == 1 && sim.workers[0].state == APPROACH && !sim.workers[0].stopped
    ensures sim.workers[0].target == Some(TargetId(0, 0)) && !sim.workers[0].fetching
    ensures sim.experiments == 1 && !sim.stopRequested && sim.doubles == 0 && sim.queue == []
    ensures TargetId(0, 0) in sim.results && sim.results[TargetId(0, 0)] == UnInitialized
  {
    var t := TargetId(0, 0);
    var results := map[t := UnInitialized];
    var s0 := Started([t], results, 1);
    assert [t][0] == t;
    StartedInv(conf, [t], results, 1);
    ReachedAtStart(conf, [t], results, 1);
    assert WorkerOk(conf, s0, 0);
    IdleCallback(conf, s0, 0, Calm(conf));
    ReachedNext(conf, [t], results, 1, [], s0, Callback(0, Calm(conf)));
    var s1 := DoCallback(conf, s0, 0, Calm(conf));
    ReachedNext(conf, [t], results, 1, [] + [Callback(0, Calm(conf))], s1, Fetch(0, Free));
    run := [] + [Callback(0, Calm(conf))] + [Fetch(0, Free)];
    sim := DoFetch(conf, s1, 0, Free);
  }

  /** Late collisions do happen: one grasp, in error and in collision, is counted twice. */
  lemma LateCollisionHappens(conf: Config)
    ensures exists run, sim ::
      Reached(conf, [TargetId(0, 0)], map[TargetId(0, 0) := UnInitialized], 1, run, sim)
      && sim.doubles == 1 && sim.experiments == 1 && Total(sim.counters) == 2
  {
    var t, results := TargetId(0, 0), map[TargetId(0, 0) := UnInitialized];
    var run, sim := OneGraspUnderWay(conf);
    var bad := Calm(conf).(inError := true, collision := true);
    ReachedInv(conf, [t], results, 1, run, sim);
    ReachedNext(conf, [t], results, 1, run, sim, Callback(0, bad));
    var sim' := DoCallback(conf, sim, 0, bad);
    StagesDoubleIffLate(conf, bad, Get(sim, 0));
    CountersConserved(conf, [t], results, 1, run + [Callback(0, bad)], sim');
    NoneActive(sim'.workers);
  }

  // ------------------------------------------------------------ exactly once

  /** The targets are handed out in the loaded order, and no two workers hold the same one. */
  lemma HandedOutOnce(conf: Config, queue0: seq<TargetId>, results: map<TargetId, Status>, n: nat,
                      run: seq<Action>, sim: Sim)
    requires Reached(conf, queue0, results, n, run, sim)
    ensures PoppedTargets(sim.popped) + sim.queue == queue0
    ensures |sim.workers| == n && forall v, w | 0 <= v < n && 0 <= w < n && v != w ::
      sim.workers[v].target.Some? ==> sim.workers[v].target != sim.workers[w].target
  {
    ReachedInv(conf, queue0, results, n, run, sim);
    forall v, w | 0 <= v < n && 0 <= w < n && v != w && sim.workers[v].target.Some?
      ensures sim.workers[v].target != sim.workers[w].target
    {
      if sim.workers[v].target == sim.workers[w].target {
        assert WorkerOk(conf, sim, v) && WorkerOk(conf, sim, w);
        var t := sim.workers[v].target.value;
        var j :| 0 <= j < |sim.popped| && sim.popped[j] == Pop(v, t);
        var k :| 0 <= k < |sim.popped| && sim.popped[k] == Pop(w, t);
        TakenOnce(queue0, sim, j, k);
      }
    }
  }

  /** A worker's cached frames and poses are those of the subtask its target belongs to. */
  lemma CachedFieldsAreCurrent(conf: Config, queue0: seq<TargetId>, results: map<TargetId, Status>, n: nat,
                               run: seq<Action>, sim: Sim, w: nat)
    requires Reached(conf, queue0, results, n, run, sim)
    requires w < |sim.workers| && sim.workers[w].target.Some?
    ensures sim.workers[w].cached == Some(FieldsOf(conf, sim.workers[w].target.value.task))
    ensures var task := sim.workers[w].target.value.task;
      task < |conf.tasks| ==> sim.workers[w].cached == Some(conf.tasks[task].fields)
  {
    ReachedInv(conf, queue0, results, n, run, sim);
    assert WorkerOk(conf, sim, w);
  }

  // -------------------------------------------------------------- completion

  ghost predicate AllStopped(sim: Sim) {
    forall w | 0 <= w < |sim.workers| :: sim.workers[w].stopped
  }

  ghost predicate AllSettled(queue0: seq<TargetId>, sim: Sim) {
    forall i | 0 <= i < |queue0| :: queue0[i] in sim.results && sim.results[queue0[i]] != UnInitialized
  }

  /** Stopping a simulation stops its threads; otherwise they run until the queue is empty. */
  ghost predicate IsRunning(sim: Sim) {
    !sim.stopRequested && !AllStopped(sim)
  }

  ghost predicate IsFinished(sim: Sim, total: nat) {
    sim.experiments == total && !IsRunning(sim)
  }

  lemma {:induction false} NoneActive(ws: seq<Worker>)
    ensures ActiveCount(ws) == 0 <==> forall w | 0 <= w < |ws| :: ws[w].state == NEW_GRASP
  {
    if ws != [] {
      NoneActive(ws[1..]);
      if ActiveCount(ws) == 0 {
        forall w | 0 <= w < |ws| ensures ws[w].state == NEW_GRASP {
          if w > 0 { assert ws[1..][w - 1] == ws[w]; }
        }
      }
    }
  }

  /** Every target of queue0 is waiting in the queue or was popped. */
  lemma WaitingOrPopped(queue0: seq<TargetId>, sim: Sim, i: nat)
    requires InOrder(queue0, sim) && i < |queue0|
    ensures if i < |sim.popped| then sim.popped[i].target == queue0[i]
            else sim.queue[i - |sim.popped|] == queue0[i]
  {
    assert queue0[i] == (PoppedTargets(sim.popped) + sim.queue)[i];
  }

  /**
   When all workers have stopped, every loaded target has been handed out and
   has an outcome, nothing is counted as still under way, and the simulation
   reports itself finished exactly if the queue it was started with was full.
   */
  lemma StoppedMeansDone(conf: Config, queue0: seq<TargetId>, results: map<TargetId, Status>, n: nat,
                         run: seq<Action>, sim: Sim, total: nat)
    requires Reached(conf, queue0, results, n, run, sim)
    requires n > 0 && AllStopped(sim)
    ensures sim.queue == [] && sim.experiments == |queue0| && AllSettled(queue0, sim)
    ensures Total(sim.counters) == |queue0| + sim.doubles
    ensures IsFinished(sim, total) <==> |queue0| == total
  {
    ReachedInv(conf, queue0, results, n, run, sim);
    assert WorkerOk(conf, sim, 0);
    assert forall w | 0 <= w < n :: WorkerOk(conf, sim, w) && sim.workers[w].state == NEW_GRASP;
    NoneActive(sim.workers);
    forall i | 0 <= i < |queue0| ensures queue0[i] in sim.results && sim.results[queue0[i]] != UnInitialized {
      WaitingOrPopped(queue0, sim, i);
      assert !Holds(sim, sim.popped[i].worker, queue0[i]);
    }
  }

  /** Started again on a queue that was partly used up, the simulation never reports itself finished. */
  lemma RestartNeverFinishes(conf: Config, queue0: seq<TargetId>, results: map<TargetId, Status>, n: nat,
                             run: seq<Action>, sim: Sim, total: nat)
    requires Reached(conf, queue0, results, n, run, sim)
    ensures IsFinished(sim, total) ==> total <= |queue0|
    ensures queue0 == [] && total > 0 ==> !IsFinished(sim, total)
  {
    ReachedInv(conf, queue0, results, n, run, sim);
  }

  /** A run in which one worker has turned down the first k targets. */
  lemma {:induction false} FirstTargetsRefused(conf: Config, queue0: seq<TargetId>, results: map<TargetId, Status>,
                                               n: nat, k: nat)
    returns (run: seq<Action>, sim: Sim)
    requires Loaded(queue0, results) && n > 0 && k <= |queue0|
    ensures Reached(conf, queue0, results, n, run, sim)
    ensures |sim.workers| == n && sim.workers[0].fetching && sim.experiments == k
  {
    if k == 0 {
      var start := Started(queue0, results, n);
      StartedInv(conf, queue0, results, n);
      ReachedAtStart(conf, queue0, results, n);
      assert WorkerOk(conf, start, 0);
      IdleCallback(conf, start, 0, Calm(conf));
      ReachedNext(conf, queue0, results, n, [], start, Callback(0, Calm(conf)));
      run, sim := [] + [Callback(0, Calm(conf))], DoCallback(conf, start, 0, Calm(conf));
    } else {
      var run', sim' := FirstTargetsRefused(conf, queue0, results, n, k - 1);
      ReachedInv(conf, queue0, results, n, run', sim');
      ReachedNext(conf, queue0, results, n, run', sim', Fetch(0, ObjectCollides));
      run, sim := run' + [Fetch(0, ObjectCollides)], DoFetch(conf, sim', 0, ObjectCollides);
      assert sim'.queue != [];
    }
  }

  /** A simulation can come to report itself finished if and only if the queue it starts on is long enough. */
  lemma CanFinishIff(conf: Config, queue0: seq<TargetId>, results: map<TargetId, Status>, n: nat, total: nat)
    requires Loaded(queue0, results) && n > 0
    ensures (exists run, sim :: Reached(conf, queue0, results, n, run, sim) && IsFinished(sim, total)) <==>
            total <= |queue0|
  {
    if total <= |queue0| {
      var run, sim := FirstTargetsRefused(conf, queue0, results, n, total);
      ReachedNext(conf, queue0, results, n, run, sim, Pause);
      var paused := sim.(stopRequested := true);
      assert Reached(conf, queue0, results, n, run + [Pause], paused) && IsFinished(paused, total);
    }
    forall run, sim | Reached(conf, queue0, results, n, run, sim) && IsFinished(sim, total) ensures total <= |queue0| {
      RestartNeverFinishes(conf, queue0, results, n, run, sim, total);
    }
  }

  // ----------------------------------------------------- grasps under way

  /** Grasps under way are on targets that have no outcome yet. */
  ghost predicate Pending(sim: Sim) {
    forall w | 0 <= w < |sim.workers| && sim.workers[w].state != NEW_GRASP ::
      var t := sim.workers[w].target; t.Some? && t.value in sim.results && sim.results[t.value] == UnInitialized
  }

  /** No waiting target has an outcome. */
  ghost predicate Untouched(sim: Sim) {
    forall i | 0 <= i < |sim.queue| :: sim.queue[i] in sim.results && sim.results[sim.queue[i]] == UnInitialized
  }

  lemma CallbackKeepsPending(conf: Config, queue0: seq<TargetId>, sim: Sim, w: nat, s: Sensors)
    requires Inv(conf, queue0, sim) && Distinct(queue0) && Enabled(conf, sim, Callback(w, s)) && Pending(sim)
    ensures Pending(DoCallback(conf, sim, w, s))
  {
    var sim' := DoCallback(conf, sim, w, s);
    if !sim.stopRequested {
      assert WorkerOk(conf, sim, w);
      if sim.workers[w].target.None? {
        IdleCallback(conf, sim, w, s);
        return;
      }
      CallbackShape(conf, queue0, sim, w, s);
      var t := sim.workers[w].target.value;
      assert WorkerOk(conf, sim, w);
      var k :| 0 <= k < |sim.popped| && sim.popped[k] == Pop(w, t);
      forall v | 0 <= v < |sim.workers| && v != w && sim.workers[v].state != NEW_GRASP
        ensures sim.workers[v].target != Some(t)
      {
        assert WorkerOk(conf, sim, v);
        if sim.workers[v].target == Some(t) {
          var j :| 0 <= j < |sim.popped| && sim.popped[j] == Pop(v, t);
          TakenOnce(queue0, sim, j, k);
        }
      }
    }
  }

  /** A target that waits in the queue is not the one a worker took. */
  lemma WaitingIsNotTaken(conf: Config, queue0: seq<TargetId>, sim: Sim, v: nat, i: nat)
    requires Inv(conf, queue0, sim) && Distinct(queue0)
    requires v < |sim.workers| && i < |sim.queue|
    ensures sim.workers[v].target != Some(sim.queue[i])
  {
    assert WorkerOk(conf, sim, v);
    if sim.workers[v].target == Some(sim.queue[i]) {
      var k :| 0 <= k < |sim.popped| && sim.popped[k] == Pop(v, sim.queue[i]);
      WaitingOrPopped(queue0, sim, k);
      WaitingOrPopped(queue0, sim, |sim.popped| + i);
    }
  }

  lemma FetchKeepsPending(conf: Config, queue0: seq<TargetId>, sim: Sim, w: nat, setup: Setup)
    requires Inv(conf, queue0, sim) && Distinct(queue0) && Enabled(conf, sim, Fetch(w, setup)) && Pending(sim)
    requires !conf.forceSimulateAll || Untouched(sim)
    ensures Pending(DoFetch(conf, sim, w, setup))
  {
    if sim.queue != [] {
      assert sim.queue[0] == queue0[|sim.popped|];
      assert WorkerOk(conf, sim, w);
      forall v | 0 <= v < |sim.workers| ensures sim.workers[v].target != Some(sim.queue[0]) {
        WaitingIsNotTaken(conf, queue0, sim, v, 0);
      }
    }
  }

  lemma CallbackKeepsUntouched(conf: Config, queue0: seq<TargetId>, sim: Sim, w: nat, s: Sensors)
    requires Inv(conf, queue0, sim) && Distinct(queue0) && Enabled(conf, sim, Callback(w, s)) && Untouched(sim)
    ensures Untouched(DoCallback(conf, sim, w, s))
  {
    if !sim.stopRequested {
      assert WorkerOk(conf, sim, w);
      if sim.workers[w].target.None? {
        IdleCallback(conf, sim, w, s);
        return;
      }
      CallbackShape(conf, queue0, sim, w, s);
      forall i | 0 <= i < |sim.queue| ensures sim.workers[w].target.value != sim.queue[i] {
        WaitingIsNotTaken(conf, queue0, sim, w, i);
      }
    }
  }

  lemma FetchKeepsUntouched(conf: Config, queue0: seq<TargetId>, sim: Sim, w: nat, setup: Setup)
    requires InOrder(queue0, sim) && Distinct(queue0) && w < |sim.workers| && Untouched(sim)
    ensures Untouched(DoFetch(conf, sim, w, setup))
  {
    if sim.queue != [] {
      forall i | 0 <= i < |sim.queue[1..]| ensures sim.queue[1..][i] != sim.queue[0] {
        WaitingOrPopped(queue0, sim, |sim.popped|);
        WaitingOrPopped(queue0, sim, |sim.popped| + 1 + i);
      }
    }
  }

  lemma ApplyKeepsUntouched(conf: Config, queue0: seq<TargetId>, sim: Sim, a: Action)
    requires Inv(conf, queue0, sim) && Distinct(queue0) && Enabled(conf, sim, a) && Untouched(sim)
    ensures Untouched(Apply(conf, sim, a))
  {
    match a
    case Callback(w, s) => CallbackKeepsUntouched(conf, queue0, sim, w, s);
    case Fetch(w, setup) => FetchKeepsUntouched(conf, queue0, sim, w, setup);
    case _ =>
  }

  lemma ApplyKeepsPending(conf: Config, queue0: seq<TargetId>, sim: Sim, a: Action)
    requires Inv(conf, queue0, sim) && Distinct(queue0) && Enabled(conf, sim, a) && Pending(sim)
    requires !conf.forceSimulateAll || Untouched(sim)
    ensures Pending(Apply(conf, sim, a))
  {
    match a
    case Callback(w, s) => CallbackKeepsPending(conf, queue0, sim, w, s);
    case Fetch(w, setup) => FetchKeepsPending(conf, queue0, sim, w, setup);
    case _ =>
  }

  lemma {:induction false} ExecKeepsPending(conf: Config, queue0: seq<TargetId>, sim: Sim, run: seq<Action>)
    requires Inv(conf, queue0, sim) && Distinct(queue0) && Possible(conf, sim, run) && Pending(sim)
    requires !conf.forceSimulateAll
    ensures Pending(Exec(conf, sim, run))
    decreases |run|
  {
    if run != [] {
      ApplyKeepsPending(conf, queue0, sim, run[0]);
      ApplyKeepsInv(conf, queue0, sim, run[0]);
      ExecKeepsPending(conf, queue0, Apply(conf, sim, run[0]), run[1..]);
    }
  }

  /** When everything was handed out and no worker is in the middle of a grasp, every target has an outcome. */
  lemma IdleIsSettled(conf: Config, queue0: seq<TargetId>, results: map<TargetId, Status>, n: nat,
                      run: seq<Action>, sim: Sim)
    requires Reached(conf, queue0, results, n, run, sim)
    requires sim.experiments == |queue0| && ActiveCount(sim.workers) == 0
    ensures AllSettled(queue0, sim)
  {
    ReachedInv(conf, queue0, results, n, run, sim);
    NoneActive(sim.workers);
    forall i | 0 <= i < |queue0| ensures queue0[i] in sim.results && sim.results[queue0[i]] != UnInitialized {
      WaitingOrPopped(queue0, sim, i);
      assert !Holds(sim, sim.popped[i].worker, queue0[i]);
    }
  }

  /** A grasp under way that is not simulated by force is on a target without an outcome. */
  lemma UnderWayIsNotSettled(conf: Config, queue0: seq<TargetId>, results: map<TargetId, Status>, n: nat,
                             run: seq<Action>, sim: Sim)
    requires Reached(conf, queue0, results, n, run, sim) && !conf.forceSimulateAll
    requires ActiveCount(sim.workers) != 0
    ensures !AllSettled(queue0, sim)
  {
    StartedInv(conf, queue0, results, n);
    ExecKeepsPending(conf, queue0, Started(queue0, results, n), run);
    ReachedInv(conf, queue0, results, n, run, sim);
    NoneActive(sim.workers);
    var w :| 0 <= w < |sim.workers| && sim.workers[w].state != NEW_GRASP;
    assert WorkerOk(conf, sim, w);
    var k :| 0 <= k < |sim.popped| && sim.popped[k] == Pop(w, sim.workers[w].target.value);
    WaitingOrPopped(queue0, sim, k);
  }

  /**
   A simulation may report itself finished while it is paused in the middle of
   its last grasps. If no worker is in the middle of a grasp, the report means
   that every target has an outcome; and, unless targets are simulated by force
   whatever outcome they had before, only then.
   */
  lemma FinishedIsSettledIffIdle(conf: Config, queue0: seq<TargetId>, results: map<TargetId, Status>, n: nat,
                                 run: seq<Action>, sim: Sim)
    requires Reached(conf, queue0, results, n, run, sim) && IsFinished(sim, |queue0|)
    ensures ActiveCount(sim.workers) == 0 ==> AllSettled(queue0, sim)
    ensures !conf.forceSimulateAll ==> (AllSettled(queue0, sim) <==> ActiveCount(sim.workers) == 0)
  {
    if ActiveCount(sim.workers) == 0 {
      IdleIsSettled(conf, queue0, results, n, run, sim);
    } else if !conf.forceSimulateAll {
      UnderWayIsNotSettled(conf, queue0, results, n, run, sim);
    }
  }

  /** The other case does happen: pausing during the only grasp. */
  lemma PausedLooksFinished(conf: Config)
    ensures exists run, sim ::
      Reached(conf, [TargetId(0, 0)], map[TargetId(0, 0) := UnInitialized], 1, run, sim)
      && IsFinished(sim, 1) && !AllSettled([TargetId(0, 0)], sim)
  {
    var run, sim := OneGraspUnderWay(conf);
    ReachedNext(conf, [TargetId(0, 0)], map[TargetId(0, 0) := UnInitialized], 1, run, sim, Pause);
    assert [TargetId(0, 0)][0] == TargetId(0, 0);
  }

  lemma ApplyKeepsOutcomes(conf: Config, queue0: seq<TargetId>, sim: Sim, a: Action)
    requires Inv(conf, queue0, sim) && Enabled(conf, sim, a) && Pending(sim) && !conf.forceSimulateAll
    ensures forall t | t in sim.results && sim.results[t] != UnInitialized ::
      t in Apply(conf, sim, a).results && Apply(conf, sim, a).results[t] == sim.results[t]
  {
    if a.Callback? && !sim.stopRequested {
      assert WorkerOk(conf, sim, a.w);
      if sim.workers[a.w].target.Some? {
        CallbackShape(conf, queue0, sim, a.w, a.sensors);
      } else {
        IdleCallback(conf, sim, a.w, a.sensors);
      }
    }
  }

  lemma {:induction false} ExecKeepsOutcomes(conf: Config, queue0: seq<TargetId>, sim: Sim, run: seq<Action>)
    requires Inv(conf, queue0, sim) && Distinct(queue0) && Possible(conf, sim, run) && Pending(sim)
    requires !conf.forceSimulateAll
    ensures forall t | t in sim.results && sim.results[t] != UnInitialized ::
      t in Exec(conf, sim, run).results && Exec(conf, sim, run).results[t] == sim.results[t]
    decreases |run|
  {
    if run != [] {
      ApplyKeepsOutcomes(conf, queue0, sim, run[0]);
      ApplyKeepsPending(conf, queue0, sim, run[0]);
      ApplyKeepsInv(conf, queue0, sim, run[0]);
      ExecKeepsOutcomes(conf, queue0, Apply(conf, sim, run[0]), run[1..]);
    }
  }

  /** Unless all targets are simulated by force, an outcome once recorded is never changed. */
  lemma OutcomesAreFinal(conf: Config, queue0: seq<TargetId>, results: map<TargetId, Status>, n: nat,
                         run: seq<Action>, sim: Sim, more: seq<Action>)
    requires Reached(conf, queue0, results, n, run, sim) && Possible(conf, sim, more) && !conf.forceSimulateAll
    ensures forall t | t in sim.results && sim.results[t] != UnInitialized ::
      t in Exec(conf, sim, more).results && Exec(conf, sim, more).results[t] == sim.results[t]
  {
    StartedInv(conf, queue0, results, n);
    ExecKeepsPending(conf, queue0, Started(queue0, results, n), run);
    ReachedInv(conf, queue0, results, n, run, sim);
    ExecKeepsOutcomes(conf, queue0, sim, more);
  }

  // ---------------------------------------------------------- counter by counter

  /** Each counter stands for its own outcomes in the statistics, and nothing was skipped. */
  ghost predicate Itemised(stat: multiset<Status>, c: Counters) {
    && stat[Success] == c.success && stat[ObjectSlipped] == c.slipped
    && stat[ObjectMissed] + stat[ObjectDropped] == c.failed
    && stat[CollisionObjectInitially] + stat[CollisionEnvironmentInitially] + stat[CollisionDuringExecution]
         == c.collision
    && stat[TimeOut] == c.timeout && stat[SimulationFailure] == c.simfailed && c.skipped == 0
    && stat[Interference] == 0 && stat[UnInitialized] == 0
  }

  lemma ChecksItemise(conf: Config, s: Sensors, b: Book)
    requires Itemised(b.stat, b.counters)
    ensures Itemised(Checks(conf, s, b).stat, Checks(conf, s, b).counters)
  {
    var b1 := CheckLimits(conf, s, b);
    assert Itemised(b1.stat, b1.counters);
    var b2 := CheckTimeout(conf, s, b1);
    assert Itemised(b2.stat, b2.counters);
    var b3 := CheckError(conf, s, b2);
    assert Itemised(b3.stat, b3.counters);
  }

  lemma GraspItemises(conf: Config, s: Sensors, b: Book)
    requires Itemised(b.stat, b.counters)
    ensures Itemised(Grasp(conf, s, b).stat, Grasp(conf, s, b).counters)
  {
    if b.w.state == GRASPING && s.simTime > b.w.approachedTime + 0.5 {
      var rested := if s.resting then b.(w := b.w.(restCount := b.w.restCount + 1)) else b;
      var held := CloseOn(conf, s, rested);
      assert Itemised(held.stat, held.counters);
    }
  }

  lemma LiftItemises(conf: Config, s: Sensors, b: Book)
    requires Itemised(b.stat, b.counters)
    ensures Itemised(Lift(conf, s, b).stat, Lift(conf, s, b).counters)
  {
    var verdict := Verdict(conf, s);
    assert Itemised(b.stat + multiset{verdict}, CountVerdict(b.counters, verdict));
  }

  lemma StagesItemise(conf: Config, s: Sensors, b: Book)
    requires Itemised(b.stat, b.counters)
    ensures Itemised(Stages(conf, s, b).stat, Stages(conf, s, b).counters)
  {
    ChecksItemise(conf, s, b);
    var b1 := Approach(s, Checks(conf, s, b));
    assert Itemised(b1.stat, b1.counters);
    GraspItemises(conf, s, b1);
    LiftItemises(conf, s, Grasp(conf, s, b1));
  }

  lemma ApplyItemises(conf: Config, sim: Sim, a: Action)
    requires Enabled(conf, sim, a) && Itemised(sim.stat, sim.counters) && Untouched(sim)
    ensures Itemised(Apply(conf, sim, a).stat, Apply(conf, sim, a).counters)
  {
    if a.Callback? {
      StagesItemise(conf, a.sensors, Get(sim, a.w));
    }
  }

  lemma {:induction false} ExecItemises(conf: Config, queue0: seq<TargetId>, sim: Sim, run: seq<Action>)
    requires Inv(conf, queue0, sim) && Distinct(queue0) && Possible(conf, sim, run)
    requires Itemised(sim.stat, sim.counters) && Untouched(sim)
    ensures Itemised(Exec(conf, sim, run).stat, Exec(conf, sim, run).counters)
    decreases |run|
  {
    if run != [] {
      ApplyItemises(conf, sim, run[0]);
      ApplyKeepsUntouched(conf, queue0, sim, run[0]);
      ApplyKeepsInv(conf, queue0, sim, run[0]);
      ExecItemises(conf, queue0, Apply(conf, sim, run[0]), run[1..]);
    }
  }

  /** In a run on fresh targets the statistics can be read off the counters outcome by outcome. */
  lemma FreshRunIsItemised(conf: Config, queue0: seq<TargetId>, results: map<TargetId, Status>, n: nat,
                           run: seq<Action>, sim: Sim)
    requires Reached(conf, queue0, results, n, run, sim)
    requires forall t | t in results :: results[t] == UnInitialized
    ensures Itemised(sim.stat, sim.counters)
  {
    StartedInv(conf, queue0, results, n);
    ExecItemises(conf, queue0, Started(queue0, results, n), run);
  }

  // ------------------------------------------------------------ interference

  /** The targets marked Success or Interference. */
  function MarkedTargets(results: map<TargetId, Status>): set<TargetId> {
    set t | t in results && Marked(results[t]) == 1
  }

  /** Nothing is left marked as slipped, and the statistics count what is marked. */
  ghost predicate Tallied(sim: Sim) {
    Good(sim.stat) == |MarkedTargets(sim.results)|
    && forall t | t in sim.results :: sim.results[t] != ObjectSlipped
  }

  lemma MarkOne(results: map<TargetId, Status>, t: TargetId, status: Status)
    requires t in results && Marked(results[t]) == 0
    ensures |MarkedTargets(results[t := status])| == |MarkedTargets(results)| + Marked(status)
  {
    var was, now := MarkedTargets(results), MarkedTargets(results[t := status]);
    if Marked(status) == 1 {
      assert now == was + {t};
    } else {
      assert now == was;
    }
  }

  lemma CallbackKeepsTally(conf: Config, queue0: seq<TargetId>, sim: Sim, w: nat, s: Sensors)
    requires Inv(conf, queue0, sim) && Enabled(conf, sim, Callback(w, s)) && Pending(sim)
    requires conf.kind != Plain && Tallied(sim)
    ensures Tallied(DoCallback(conf, sim, w, s))
  {
    if !sim.stopRequested {
      assert WorkerOk(conf, sim, w);
      if sim.workers[w].target.None? {
        IdleCallback(conf, sim, w, s);
        return;
      }
      CallbackShape(conf, queue0, sim, w, s);
      var b' := Stages(conf, s, Get(sim, w));
      MarkOne(sim.results, sim.workers[w].target.value, b'.status);
    }
  }

  lemma FetchKeepsTally(conf: Config, queue0: seq<TargetId>, sim: Sim, w: nat, setup: Setup)
    requires Inv(conf, queue0, sim) && Enabled(conf, sim, Fetch(w, setup)) && Untouched(sim) && Tallied(sim)
    ensures Tallied(DoFetch(conf, sim, w, setup))
  {
    if sim.queue != [] && setup != Free {
      var sim' := DoFetch(conf, sim, w, setup);
      var t := sim.queue[0];
      MarkOne(sim.results, t, sim'.results[t]);
    }
  }

  lemma {:induction false} ExecKeepsTally(conf: Config, queue0: seq<TargetId>, sim: Sim, run: seq<Action>)
    requires Inv(conf, queue0, sim) && Distinct(queue0) && Possible(conf, sim, run)
    requires Pending(sim) && Untouched(sim) && conf.kind != Plain && Tallied(sim)
    ensures Tallied(Exec(conf, sim, run))
    decreases |run|
  {
    if run != [] {
      match run[0] {
        case Callback(w, s) => CallbackKeepsTally(conf, queue0, sim, w, s);
        case Fetch(w, setup) => FetchKeepsTally(conf, queue0, sim, w, setup);
        case _ =>
      }
      ApplyKeepsPending(conf, queue0, sim, run[0]);
      ApplyKeepsUntouched(conf, queue0, sim, run[0]);
      ApplyKeepsInv(conf, queue0, sim, run[0]);
      ExecKeepsTally(conf, queue0, Apply(conf, sim, run[0]), run[1..]);
    }
  }

  /**
   A run on fresh targets that evaluates its grasps: the successes and slips in
   the statistics are as many as the targets now marked Success or
   Interference, and no target is left marked as slipped.
   */
  lemma SuccessesAreMarked(conf: Config, queue0: seq<TargetId>, results: map<TargetId, Status>, n: nat,
                           run: seq<Action>, sim: Sim)
    requires Reached(conf, queue0, results, n, run, sim) && conf.kind != Plain
    requires forall t | t in results :: results[t] == UnInitialized
    ensures sim.stat[Success] + sim.stat[ObjectSlipped] == |MarkedTargets(sim.results)|
    ensures forall t | t in sim.results :: sim.results[t] != ObjectSlipped
  {
    var start := Started(queue0, results, n);
    StartedInv(conf, queue0, results, n);
    assert MarkedTargets(results) == {};
    ExecKeepsTally(conf, queue0, start, run);
  }
}

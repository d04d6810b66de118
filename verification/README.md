# A verified model of the gripper-design library

This project models, in Dafny, the parts of a gripper-design and grasp-simulation
library that are hardest to get right, and proves what they promise.

| part | files |
|---|---|
| derivative-free optimizers (Nelder-Mead, Powell variant, coordinate descent, simulated annealing) and the manager that stacks mapping, constraint, sign reversal and logging around them | `Arithmetic`, `LinearAlgebra`, `Objectives`, `StdSort`, `Runs`, `LineProbe`, `SimplexOptimizer`, `SimplexGeometry`, `SimplexSearch`, `PowellOptimizer`, `CoordinateDescentOptimizer`, `SimulatedAnnealingOptimizer`, `OptimizationManager`, `BoxSafety` |
| the multi-worker grasp simulation engine | `GraspStatus`, `GraspStateMachine`, `GraspEvents`, `GraspInvariants`, `GraspRuns`, `GraspTaskSimulator` |
| dlib's introspective array sort | `Sorting` |
| alignment by greedy clustering | `ClusteringAlignment` |
| dlib's portable serialization | `IntegerCodec`, `FloatDetails`, `Serialization` |
| dlib's integer square root and RGB/HSL conversion | `SquareRoot`, `Colour` |

How it is built. Code that changes state step by step is modelled by methods with
loops, arrays and objects; each is proved equal to a function or to a step relation,
and the theorems are about that function or about all runs of that relation.

- **Optimizers.** Each `Minimize` is the imperative optimizer. It returns, besides its
  answer, the run it made, and is proved to make a complete run of the optimizer's
  `Loop` (an initial condition, a step and a loop condition). Theorems named `Run...`
  are about every run, in every dimension, for every objective. Numbers are reals; the
  objective is a deterministic total function whose decorators only append to a log.
- **Simulation engine.** `GraspStateMachine` splits every step callback at the queue's
  lock into a part that handles the worker's grasp and passes of the loop that fetches
  the next target. A run is any interleaving of these by any number of workers. Sensor
  readings, contacts and collisions are arbitrary inputs of every action. The class
  `GraspTaskSimulators.GraspTaskSimulator` is the object whose fields are updated in
  place: its `Valid()` says that the object is in a state the state machine reaches by
  the recorded history, every method keeps it, so every theorem of `GraspRuns` is a
  theorem about the object. `GraspEvents` says which event leads to which outcome.
- **Sort.** The three sorts work in place on a sub-range of an array, for any strict
  weak order.
- **Serialization.** `Encode`/`Decode` and `Ser`/`Deser` are the format; the stream loops
  are proved to write and read exactly it.

## Findings

Places where the code does less than its documentation or its caller would expect.
The code is modelled as it is; each point is proved.

- `HSL2RGB` followed by `RGB2HSL` gives a coloured triple back exactly if its hue is below
  300 degrees; from 300 on, 300 itself included, the hue comes back a full turn lower
  (`Colour.HslRoundTripIff`, `Colour.HslRoundTrip`).
- The eight-second limit for closing the gripper is never what starts a lift: the
  five-second limit has ended the grasp before (`GraspEvents.ClosingLaw`,
  `GraspEvents.TimeEndsGrasp`).
- `RGB2HSL` returns a negative hue exactly when green < blue <= red, and there
  `HSL2RGB` does not give the colour back; everywhere else in the unit cube it does
  (`Colour.RoundTrip`).
- The default value 0 of the constrained function is not neutral. From a guess inside
  the box, coordinate descent, the Powell variant and annealing always answer inside the
  box if and only if the value at the guess, signed by the direction, is at most 0; the
  simplex optimizer, whose sort may break ties either way, if and only if it is below 0
  (`BoxSafety.AnswersInsideIff`). Minimizing the constant 1 over [0, 1] from 0.5 may
  answer -1.5 (`BoxSafety.ConstantOneLeavesBox`).
- `isFinished` can hold while grasps are still under way, when the simulation is paused
  during its last grasps (`GraspRuns.PausedLooksFinished`). If no worker is in the middle
  of a grasp, the report means that every target has an outcome; unless targets are
  simulated by force, whatever outcome they had before, only then
  (`GraspRuns.FinishedIsSettledIffIdle`).
- `startSimulation` does not refill the queue, so a simulation started again after it
  has used up some of its targets never reports itself finished: it can if and only if
  the queue it starts on has at least as many targets as were loaded
  (`GraspRuns.RestartNeverFinishes`, `GraspRuns.CanFinishIff`).
- A collision reported in the same step in which the grasp has already timed out or
  failed is counted again, because the collision branch is the only one that does not ask
  whether the grasp is over. It happens exactly when the step of a running grasp reports a
  collision together with both limits exceeded, more than five seconds of simulated time,
  or a simulator error (`GraspRuns.StagesDoubleIffLate`); the counters of a run exceed its
  finished experiments by the number of such steps (`GraspRuns.CountersConserved`), and
  such a run exists (`GraspRuns.LateCollisionHappens`).
- The comment of `qsort_array` says that element i comes before element i+1; with equal
  elements the code gives, and the model states, "does not come after".
- The reduction step of the simplex optimizer moves every vertex to the opposite side
  of the best one, at half the distance (`SimplexGeometry.ReductionHalvesEdges`).
- Reading a vector of chars directly does not look at the stream's state: truncated input
  is accepted and the missing characters come back as zeros. The overload is declared
  after the bodies of pair, map, set and the general vector, so inside these a vector of
  chars is read char by char, and there the same cut of the same bytes is rejected. Over
  everything that can be asked for, a cut value is accepted exactly if it is a vector of
  chars asked for directly and only characters are missing (`Serialization.TruncatedIff`,
  `Serialization.TruncatedCharVector`, `Serialization.TruncatedInsideIsRejected`).
- The header comment of the serialization format puts a float's exponent before its
  mantissa; the code writes and reads the mantissa first, and so does the model.

## Model

| member | source | states |
|---|---|---|
| LinearAlgebra.Exchange | src/optimization/PowellOptimizer.cpp:94-125 | Overwriting one vector of a basis by a combination in which it has a nonzero weight leaves a basis, in any dimension: independent and spanning |
| LinearAlgebra.Reordered | src/optimization/PowellOptimizer.cpp:113-114 | Any permutation of a basis is a basis |
| StdSort.SortBy | src/optimization/SimplexOptimizer.cpp:90 | The library sort as its callers may rely on it: some permutation in ascending order of the key, ties in any order |
| Objectives.IsMetBy | src/math/BoxConstraint.cpp:22-34 | The early-return loop answers true exactly when every parameter lies in its closed range |
| Objectives.MapParameterIsAffine | src/math/ParameterMapping.cpp:24-32 | The mapping takes the ends of one range to the ends of the other and keeps proportions |
| Objectives.MapParameterRoundTrip | src/math/ParameterMapping.cpp:24-32 | Mapping a parameter between two nondegenerate ranges and back gives it back |
| Objectives.MappingRoundTrip | src/math/ParameterMapping.cpp:35-60 | map and unmap are inverse to each other in both orders |
| Objectives.EvaluateLayer | src/math/ConstrainedFunction.cpp:25-31 | Evaluating a stack of decorators returns its composed value and appends to the log exactly what its callbacks report: nothing where the constraint stops the call |
| Objectives.ObjectiveFunction.Evaluate | src/math/CallbackFunction.cpp:24-32 | Every evaluation returns f(x) and extends the history of calls; the log always is what those calls append, in order |
| LineProbe.ProbeBothWays | src/optimization/PowellOptimizer.cpp:64-90 | Both trial points start from the point before the probe, the backward one is evaluated first, and the forward one must beat whatever is best by then |
| LineProbe.ProbeLaw | src/optimization/PowellOptimizer.cpp:64-90 | The points one step back and one step forth are asked for in this order; the search moves to the forth one if that beats the old best and the back one, else to the back one if that beats the old best, else nowhere |
| LineProbe.ProbeKeepsBest | src/optimization/CoordinateDescentOptimizer.cpp:53-77 | A probe keeps "the current point is the minimum of everything evaluated", succeeds exactly on improvement and otherwise stays put |
| SimplexOptimizer.BuildSimplex | src/optimization/SimplexOptimizer.cpp:35-50 | The start and one corner per coordinate, moved by the size |
| SimplexOptimizer.GetCentroid | src/optimization/SimplexOptimizer.cpp:58-69 | The mean of all vertices but one, in dim coordinates |
| SimplexOptimizer.Pass | src/optimization/SimplexOptimizer.cpp:100-146 | The loop body before the sort makes exactly the move of the specification and evaluates exactly its points, in order |
| SimplexOptimizer.PassIsLawful | src/optimization/SimplexOptimizer.cpp:105-146 | Branch by branch, with coefficients 1, 2 and -1/2: below the best the better of the expanded and the reflected point, below the second worst the reflected one, else the contracted one if that beats the worst, else the reduction; and in each branch the points asked for, in order |
| SimplexOptimizer.Reduce | src/optimization/SimplexOptimizer.cpp:138-143 | The in-place reduction loop re-evaluates and overwrites every vertex but the best |
| SimplexOptimizer.Minimize | src/optimization/SimplexOptimizer.cpp:72-167 | The optimizer makes a complete run of the loop, evaluates exactly the run's points and returns the first vertex of its last state |
| SimplexGeometry.ProbesOnLine | src/optimization/SimplexOptimizer.cpp:101-132 | Reflection mirrors the worst vertex in the mean of the others, expansion goes twice as far, contraction stops half-way |
| SimplexGeometry.ReductionHalvesEdges | src/optimization/SimplexOptimizer.cpp:139-143 | Reduction keeps the best vertex, halves every edge and reverses its direction |
| SimplexGeometry.ProbeKeepsFull | src/optimization/SimplexOptimizer.cpp:102-136 | Replacing the worst vertex by any probed point with nonzero coefficient keeps the simplex full-dimensional |
| SimplexGeometry.ShrinkKeepsFull | src/optimization/SimplexOptimizer.cpp:139-143 | So does the reduction, after each of its iterations |
| SimplexGeometry.MoveKeepsFull | src/optimization/SimplexOptimizer.cpp:100-146 | No branch of a pass collapses the simplex |
| SimplexGeometry.RunStaysNondegenerate | src/optimization/SimplexOptimizer.cpp:72-163 | With a nonzero initial size, in every state of every run, the dim + 1 vertices are affinely independent and every point has barycentric coordinates in them |
| SimplexSearch.MoveCoversAsked | src/optimization/SimplexOptimizer.cpp:100-146 | A pass keeps the best vertex, leaves only old or just evaluated vertices, discards no point that beats all it leaves, and strictly improves the worst vertex unless neither reflecting nor contracting helps: then it reduces |
| SimplexSearch.RunFindsBest | src/optimization/SimplexOptimizer.cpp:86-166 | In every state of every run the first vertex is the minimum of everything evaluated and every stored value is the objective at its point |
| SimplexSearch.RunStartsAtCorners | src/optimization/SimplexOptimizer.cpp:35-50 | Every run starts from the guess and one corner per coordinate, evaluated in this order and sorted by value |
| SimplexSearch.RunMakesLawfulPasses | src/optimization/SimplexOptimizer.cpp:96-149 | Every pass of every run obeys the law of a pass and leaves its vertices sorted by value |
| SimplexSearch.RunStopsInTime | src/optimization/SimplexOptimizer.cpp:159-163 | A run goes on after a pass exactly while best and worst vertex are further apart than the final size and evaluations are left |
| SimplexSearch.RunWithinBudget | src/optimization/SimplexOptimizer.cpp:85-163 | A complete run evaluates between dim + 2 and max(maxN - 1, dim + 1) + dim + 2 points |
| PowellOptimizer.NewCycle | src/optimization/PowellOptimizer.cpp:113-125 | In some order by length, the longest direction gives way to the mean of all of them |
| PowellOptimizer.Minimize | src/optimization/PowellOptimizer.cpp:32-144 | The optimizer makes a complete run of the loop, evaluates exactly the run's points and returns the last current guess |
| PowellOptimizer.ScalingKeepsBasis | src/optimization/PowellOptimizer.cpp:94-99 | Rescaling the current direction by a nonzero factor keeps the directions a basis |
| PowellOptimizer.MeanKeepsBasis | src/optimization/PowellOptimizer.cpp:116-125 | Replacing a direction by the mean of all keeps the directions a basis |
| PowellOptimizer.RunKeepsBasis | src/optimization/PowellOptimizer.cpp:46-131 | With nonzero initial length and factors, in every state of every run there are exactly dim directions, independent and spanning |
| PowellOptimizer.RunFindsBest | src/optimization/PowellOptimizer.cpp:58-143 | In every state of every run the current guess is the minimum of everything evaluated and its stored value is right |
| PowellOptimizer.RunStartsAlongAxes | src/optimization/PowellOptimizer.cpp:38-57 | Every run starts at the guess with one direction along each axis |
| PowellOptimizer.RunPassLaw | src/optimization/PowellOptimizer.cpp:58-131 | Pass i probes along direction i modulo dim and multiplies it, coordinate by coordinate, by the factor for success exactly if the best value improved, by the other factor otherwise; rho times dim is the sum of the lengths; at the end of a cycle, in some order by length, the last direction gives way to one that times dim is the sum of all |
| PowellOptimizer.RunStopsInTime | src/optimization/PowellOptimizer.cpp:133-139 | A run goes on after a pass exactly while rho is not below its final value and the evaluations are not above the limit |
| PowellOptimizer.RunWithinBudget | src/optimization/PowellOptimizer.cpp:133-139 | A complete run evaluates the objective an odd number of times, at most max(maxN, 1) + 2 |
| CoordinateDescentOptimizer.Minimize | src/optimization/CoordinateDescentOptimizer.cpp:31-106 | The optimizer makes a complete run of the loop, evaluates exactly the run's points and returns the last current point |
| CoordinateDescentOptimizer.RunFindsBest | src/optimization/CoordinateDescentOptimizer.cpp:47-105 | In every state of every run the current point is the minimum of everything evaluated |
| CoordinateDescentOptimizer.RunCyclesThroughCoordinates | src/optimization/CoordinateDescentOptimizer.cpp:48-101 | Pass i changes coordinate i modulo dim only, by plus or minus its step size or not at all, at two evaluations a pass |
| CoordinateDescentOptimizer.RunPassLaw | src/optimization/CoordinateDescentOptimizer.cpp:47-101 | Pass i probes by the step size of coordinate i modulo dim and multiplies that step size by the factor for success exactly if the best value improved, by the other factor otherwise; all others stay |
| CoordinateDescentOptimizer.RunStartsAndStops | src/optimization/CoordinateDescentOptimizer.cpp:34-98 | How every run starts, and that it goes on exactly while the step sizes are long enough and evaluations are left |
| CoordinateDescentOptimizer.RunWithinBudget | src/optimization/CoordinateDescentOptimizer.cpp:92-98 | A complete run evaluates the objective at most max(limit, 1) + 2 times, where a negative limit counts as the unsigned integer the comparison makes of it |
| SimulatedAnnealingOptimizer.AcceptanceProbability | src/optimization/SimulatedAnnealingOptimizer.cpp:46-54 | A probability; certain for improvements |
| SimulatedAnnealingOptimizer.Minimize | src/optimization/SimulatedAnnealingOptimizer.cpp:57-98 | The optimizer makes a complete run of the loop, evaluates exactly the run's points and returns the last best state |
| SimulatedAnnealingOptimizer.RunFindsBest | src/optimization/SimulatedAnnealingOptimizer.cpp:66-97 | In every state of every run the best state is the minimum of everything evaluated, accepted or rejected |
| SimulatedAnnealingOptimizer.RunPassLaw | src/optimization/SimulatedAnnealingOptimizer.cpp:33-94 | In every pass of every run an improvement is accepted, a worsening by d exactly if the temperature is positive and the draw is below exp(-d / temperature); the best state follows the current one exactly when that is strictly better |
| SimulatedAnnealingOptimizer.RunCoolsLinearly | src/optimization/SimulatedAnnealingOptimizer.cpp:61-95 | The temperature falls linearly and is positive after pass i exactly if i is below maxN |
| SimulatedAnnealingOptimizer.RunEvaluationCount | src/optimization/SimulatedAnnealingOptimizer.cpp:61-95 | A complete run evaluates the objective exactly max(2, maxN) times |
| OptimizationManager.MinimizeWith | src/optimization/OptimizationManager.cpp:72 | Whichever optimizer runs, it makes one of its runs: it asks for exactly that run's points, the guess first, within the optimizer's budget, and its answer is that run's and the minimum of everything it asked for |
| OptimizationManager.StackMeaning | src/optimization/OptimizationManager.cpp:43-69 | The stack of decorators computes the signed objective in user coordinates inside the box and 0 outside, and logs exactly the inside evaluations |
| OptimizationManager.StackLog | src/optimization/OptimizationManager.cpp:78-84 | Over any sequence of evaluations the log is the inside ones, in order, in user coordinates, with unreversed values |
| OptimizationManager.UserCoordinate | src/optimization/OptimizationManager.cpp:56-69 | With ranges the unit interval of a coordinate is stretched over its range, without ranges nothing is mapped |
| OptimizationManager.EntriesInOrder | src/optimization/OptimizationManager.cpp:78-84 | The log of evaluations one after the other is their logs one after the other, and that of a single one is the point with its true value if it is inside |
| OptimizationManager.Manager.Optimize | src/optimization/OptimizationManager.cpp:36-75 | It throws exactly when the sizes disagree. Otherwise one and the same run of the optimizer gives the answer and the points asked for; the log is exactly the inside ones of these points, in order, in user coordinates and with unreversed values; nothing asked for beats the answer; the evaluations and so the log stay within the optimizer's budget; and from a guess inside the box whose signed value is below 0, or without a constraint, the answer is inside, in the log with its true value, and best there |
| OptimizationManager.AnswerIsBestOfLog | src/optimization/OptimizationManager.cpp:36-84 | If the guess, or any point asked for, is inside and beats the default value, the answer is inside the box, is in the log with its true value, and no logged value is better |
| BoxSafety.AnswersInsideIff | src/math/ConstrainedFunction.cpp:25-31 | From a guess in the box, every configuration and run of coordinate descent, Powell and annealing answers inside the box if and only if the signed value at the guess is at most 0; for the simplex if and only if it is below 0 |
| BoxSafety.SafeStartAnswersInside | src/optimization/OptimizationManager.cpp:43-75 | From such a guess any answer an optimizer can give is inside |
| BoxSafety.UnsafeStartLeaves | src/optimization/OptimizationManager.cpp:43-75 | From any other guess in the box each optimizer has a configuration and a run whose answer is outside, for every norm and acceptance function |
| BoxSafety.NelderMeadLeaves | src/optimization/SimplexOptimizer.cpp:85-163 | With edges of four unit widths per dimension and a guess value of at least 0, one pass of the simplex leaves only vertices outside |
| BoxSafety.ConstantOneLeavesBox | src/math/ConstrainedFunction.cpp:25-31 | Coordinate descent on the constant 1 over [0, 1] from 0.5 may answer -1.5 |
| GraspInvariants.StagesRecord | src/simulation/GraspTaskSimulator.cpp:370-630 | Handling a grasp for one step changes no record while the grasp goes on; when it ends, one outcome is recorded, plus one for every late collision, and the successes and slips recorded match the mark the target is left with |
| GraspEvents.TimeEndsGrasp | src/simulation/GraspTaskSimulator.cpp:370-389 | Both limits exceeded, or more than five seconds, without a collision end a running grasp with one TimeOut |
| GraspEvents.ErrorEndsGrasp | src/simulation/GraspTaskSimulator.cpp:391-404 | A simulator error in time and without a collision ends it with one SimulationFailure |
| GraspEvents.CollisionEndsGrasp | src/simulation/GraspTaskSimulator.cpp:422-442 | A collision ends it with one CollisionDuringExecution |
| GraspEvents.LateCollisionIsRecorded | src/simulation/GraspTaskSimulator.cpp:370-442 | A collision on top of a timeout or an error is recorded as well as that, and its mark remains |
| GraspEvents.ApproachLaw | src/simulation/GraspTaskSimulator.cpp:444-458 | The gripper starts to close exactly when the approach is reached |
| GraspEvents.JustClosingLaw | src/simulation/GraspTaskSimulator.cpp:512-514 | For half a second the clock for the rest is held back |
| GraspEvents.ClosingLaw | src/simulation/GraspTaskSimulator.cpp:462-511 | Until it is time to lift, rests are counted and the third one restarts the clock |
| GraspEvents.MissedLaw | src/simulation/GraspTaskSimulator.cpp:478-496 | A finger gripper without contact when it is time to lift gains one ObjectMissed |
| GraspEvents.StartLiftLaw | src/simulation/GraspTaskSimulator.cpp:497-530 | Any other starts to lift, and this is looked at in the same step |
| GraspEvents.LiftingLaw | src/simulation/GraspTaskSimulator.cpp:517-533 | A lift goes on until the gripper was seen lifted more than five times |
| GraspEvents.VerdictLaw | src/simulation/GraspTaskSimulator.cpp:533-628 | A lift that ends gains one ObjectDropped exactly if a finger gripper has no contact or a suction cup is open, otherwise one Success exactly if it is a suction cup or the slippage is below 0.01, otherwise one ObjectSlipped, each with its counter |
| GraspEvents.EvaluatedIsMark | src/simulation/InterferenceSimulator.cpp:42-65 | What a target is marked with: a slip counts as a success, and a success with a summed interference above the limit as an interference |
| GraspEvents.CallbackLaw | src/simulation/GraspTaskSimulator.cpp:341-632 | A step does to the engine exactly what it does to its worker's grasp, nothing while a stop is requested, and a grasp that ended makes the worker look for a target |
| GraspEvents.LastFetchLaw | src/simulation/GraspTaskSimulator.cpp:640-651 | A worker that finds no target stops, and nothing else changes |
| GraspEvents.FetchLaw | src/simulation/GraspTaskSimulator.cpp:653-759 | A target with an outcome is skipped and counted under it unless all are simulated by force; one whose object or environment collides at the start has that outcome; any other is approached with nothing recorded |
| GraspInvariants.CallbackKeepsInv | src/simulation/GraspTaskSimulator.cpp:341-630 | Handling one worker's grasp keeps order, counters, every worker's state and the outcome of every popped target in step |
| GraspInvariants.FetchKeepsInv | src/simulation/GraspTaskSimulator.cpp:637-743 | So does every pass of the fetching loop |
| GraspInvariants.ExecKeepsInv | src/simulation/GraspTaskSimulator.cpp:341-761 | So does every interleaving of any number of workers, with pauses and resumptions anywhere |
| GraspRuns.AllTargetsOnce | src/simulation/GraspTaskSimulator.cpp:128-146 | The generated list holds exactly the grasp task's targets, each once, ordered by subtask and by position in it |
| GraspRuns.StagesDoubleIffLate | src/simulation/GraspTaskSimulator.cpp:370-442 | A step counts a running grasp twice if and only if it reports a collision together with both limits exceeded, more than five seconds or an error; any collision ends the grasp |
| GraspRuns.CountersConserved | src/simulation/GraspTaskSimulator.cpp:370-442 | In every reachable state the statistics sum to the counters (up to skipped targets whose status has no entry), and the counters to the experiments minus the grasps under way plus the number of late collisions in the run |
| GraspRuns.LateCollisionHappens | src/simulation/GraspTaskSimulator.cpp:391-442 | A concrete run in which one grasp is counted twice |
| GraspRuns.FreshRunIsItemised | src/simulation/GraspTaskSimulator.cpp:370-739 | In a run on fresh targets each counter equals its own outcomes in the statistics and nothing is skipped |
| GraspRuns.HandedOutOnce | src/simulation/GraspTaskSimulator.cpp:897-926 | In every reachable state the targets popped by all workers, followed by the queue, are the loaded list in order, and no two workers hold the same target |
| GraspRuns.CachedFieldsAreCurrent | src/simulation/GraspTaskSimulator.cpp:912-924 | A worker's cached subtask fields are those of the subtask its target belongs to |
| GraspRuns.StoppedMeansDone | src/simulation/GraspTaskSimulator.cpp:632-761 | Once all workers have stopped, every target has an outcome, the experiments equal the targets loaded, and isFinished holds exactly if the queue was full at the start |
| GraspRuns.RestartNeverFinishes | src/simulation/GraspTaskSimulator.cpp:203-220 | No reachable state reports itself finished with more targets than the queue it started on |
| GraspRuns.CanFinishIff | src/simulation/GraspTaskSimulator.cpp:203-320 | Some reachable state reports itself finished if and only if the queue at the start has at least as many targets as the total |
| GraspRuns.FinishedIsSettledIffIdle | src/simulation/GraspTaskSimulator.cpp:318-320 | When isFinished holds and no worker is in the middle of a grasp, every target has an outcome; unless targets are simulated by force, only then |
| GraspRuns.PausedLooksFinished | src/simulation/GraspTaskSimulator.cpp:291-320 | A concrete run in which isFinished holds and a target has no outcome |
| GraspRuns.OutcomesAreFinal | src/simulation/GraspTaskSimulator.cpp:653-665 | Unless all targets are simulated by force, an outcome once recorded is never changed |
| GraspRuns.SuccessesAreMarked | src/simulation/InterferenceSimulator.cpp:42-54 | In every reachable state of an evaluating run on fresh targets, successes plus slips in the statistics are as many as the targets marked Success or Interference, and no target is left marked as slipped |
| GraspTaskSimulators.GraspTaskSimulator.constructor | src/simulation/GraspTaskSimulator.cpp:75-99 | Between 1 and 19 workers, 1 if the request is out of range |
| GraspTaskSimulators.GraspTaskSimulator.GenerateTaskList | src/simulation/GraspTaskSimulator.cpp:128-146 | The two backward loops build the list of all targets and count them |
| GraspTaskSimulators.GraspTaskSimulator.Load | src/simulation/GraspTaskSimulator.cpp:150-160 | The queue becomes the whole list, the total its length |
| GraspTaskSimulators.GraspTaskSimulator.StartSimulation | src/simulation/GraspTaskSimulator.cpp:203-289 | With targets, a fresh start on whatever the queue holds, newly loaded or left over from an earlier run; with none, only the experiments are reset and a stop is requested, which counts as finished, keeps what an earlier run has counted, and is a reached state if there was no such run |
| GraspTaskSimulators.GraspTaskSimulator.PauseSimulation | src/simulation/GraspTaskSimulator.cpp:291-297 | Makes the pause action of the state machine |
| GraspTaskSimulators.GraspTaskSimulator.ResumeSimulation | src/simulation/GraspTaskSimulator.cpp:299-306 | Makes the resume action of the state machine |
| GraspTaskSimulators.GraspTaskSimulator.IsFinished | src/simulation/GraspTaskSimulator.cpp:308-320 | True exactly when all experiments are counted and no thread runs |
| GraspTaskSimulators.GraspTaskSimulator.CalculateSceneInterference | src/simulation/InterferenceSimulator.cpp:57-65 | The sum over all objects of the scene |
| GraspTaskSimulators.GraspTaskSimulator.EvaluateGrasp | src/simulation/InterferenceSimulator.cpp:42-54 | Only the worker's target changes: a slip becomes a success, and a success above the limit becomes an interference |
| GraspTaskSimulators.GraspTaskSimulator.CheckTimeLimits | src/simulation/GraspTaskSimulator.cpp:370-389 | Makes the two timeout checks of the specification and touches only this worker's records |
| GraspTaskSimulators.GraspTaskSimulator.CheckSimulatorError | src/simulation/GraspTaskSimulator.cpp:391-404 | Likewise for simulator errors |
| GraspTaskSimulators.GraspTaskSimulator.CheckRuntimeCollision | src/simulation/GraspTaskSimulator.cpp:422-442 | Likewise for collisions, whatever state the grasp is in |
| GraspTaskSimulators.GraspTaskSimulator.StepApproach | src/simulation/GraspTaskSimulator.cpp:444-458 | Likewise for the approach |
| GraspTaskSimulators.GraspTaskSimulator.StepGrasping | src/simulation/GraspTaskSimulator.cpp:460-515 | Likewise for closing the gripper |
| GraspTaskSimulators.GraspTaskSimulator.StepLifting | src/simulation/GraspTaskSimulator.cpp:517-630 | Likewise for lifting and the verdict on it |
| GraspTaskSimulators.GraspTaskSimulator.HandleGrasp | src/simulation/GraspTaskSimulator.cpp:341-632 | The stages in order make one callback action of the state machine |
| GraspTaskSimulators.GraspTaskSimulator.GetNextTarget | src/simulation/GraspTaskSimulator.cpp:897-926 | Pops the front of the queue for this worker and reloads the cached fields only when the subtask changes |
| GraspTaskSimulators.GraspTaskSimulator.FetchTarget | src/simulation/GraspTaskSimulator.cpp:638-743 | One pass of the fetching loop makes one fetch action and uses up a target or leaves the loop |
| GraspTaskSimulators.GraspTaskSimulator.StepCallback | src/simulation/GraspTaskSimulator.cpp:341-761 | A whole uninterrupted callback is a run of the state machine: one callback action and fetches by the same worker, until the worker has a target or stops |
| Sorting.IsortArray | ext/dlib/sort.h:395-422 | Sorts left..right in place, permutes it and touches nothing else |
| Sorting.QsortPartition | ext/dlib/sort.h:184-228 | Everything left of the returned index comes before the pivot standing there, nothing right of it does; the range is permuted, the rest untouched |
| Sorting.Heapify | ext/dlib/sort.h:286-339 | If everything in the subtree at i but i itself is in heap order, the subtree becomes a max-heap and nothing outside it changes |
| Sorting.BuildHeap | ext/dlib/sort.h:469-475 | The whole range becomes a max-heap with indices counted from left |
| Sorting.ExtractMax | ext/dlib/sort.h:477-482 | The heap prefix shrinks, stays a heap and stays no greater than the sorted suffix |
| Sorting.HsortArray | ext/dlib/sort.h:451-483 | Sorts left..right in place, permutes it and touches nothing else |
| Sorting.RootIsLargest | ext/dlib/sort.h:478-481 | The root of a heap with offset indices is beaten by no element |
| Sorting.PartsSorted | ext/dlib/sort.h:270-275 | Sorting both sides of the pivot sorts the range |
| Sorting.QsortArrayMain | ext/dlib/sort.h:236-278 | Sorts left..right in place, also with the empty range at the right end, and nests no deeper than its budget allows |
| Sorting.DepthIsLogarithmic | ext/dlib/sort.h:259-268 | The depth a budget allows is at most twice its bit length |
| Sorting.QsortArray | ext/dlib/sort.h:430-443 | No element of left..right comes before one to its left, the range is a permutation, the rest is untouched, and quicksort nests at most 2 * BitLength(right - left) deep |
| ClusteringAlignment.MarkAll | src/evaluation/ClusteringAlignment.cpp:78-90 | The loop over shared points sets exactly the flags of the greedy pass |
| ClusteringAlignment.FilterPoints | src/evaluation/ClusteringAlignment.cpp:58-105 | Whatever order the tree leaves the points in, the result keeps each point as often as it occurs or not at all, no kept point lies in another's box, and every dropped point lies in the box of a kept one |
| ClusteringAlignment.SurvivorsOfReordered | src/evaluation/ClusteringAlignment.cpp:58-105 | The same of the greedy pass on any permutation of the points |
| ClusteringAlignment.SurvivorsAreMaximalSeparated | src/evaluation/ClusteringAlignment.cpp:78-99 | No survivor lies in the box of another with a different key, every removed point lies in the box of an earlier survivor, and equal keys share one fate |
| ClusteringAlignment.KeptIffNoEarlierSurvivorMarks | src/evaluation/ClusteringAlignment.cpp:78-99 | A point survives exactly if no earlier survivor marks it |
| ClusteringAlignment.OnlyGreedyIsRecurrent | src/evaluation/ClusteringAlignment.cpp:78-99 | Which determines the result: flags satisfy that recurrence if and only if they are the ones the pass leaves |
| ClusteringAlignment.BoxIsCloseness | src/evaluation/ClusteringAlignment.cpp:76-82 | The searched box holds the points no coordinate of which is further away than the radius |
| ClusteringAlignment.OneKeyPerCountedTarget | src/evaluation/ClusteringAlignment.cpp:131-142 | There are as many keys as targets marked Success or Interference, each key that of such a target: what its lifted rotation turns into the axis, and its row 0, 1 or 2 for the x, y or z axis |
| ClusteringAlignment.KeysInOrder | src/evaluation/ClusteringAlignment.cpp:131-142 | The keys come in the order of the targets |
| ClusteringAlignment.AlignmentIsShareRemoved | src/evaluation/ClusteringAlignment.cpp:108-117 | An axis alignment times the number of points is the number of points removed, and it is 0 without points |
| ClusteringAlignment.AlignmentInRange | src/evaluation/ClusteringAlignment.cpp:108-117 | The first point survives, so an axis alignment is at least 0 and below 1 |
| ClusteringAlignment.CalculateAlignment | src/evaluation/ClusteringAlignment.cpp:127-163 | The mean of the three axis alignments over the successful and interfering targets; at least 0 and below 1 |
| IntegerCodec.PackInt | ext/dlib/serialize.h:179-224 | Writes exactly the control byte and little-endian payload of the format |
| IntegerCodec.UnpackInt | ext/dlib/serialize.h:231-300 | Succeeds exactly when the format can be decoded, with its value and consuming exactly its bytes |
| IntegerCodec.BytesNeeded | ext/dlib/serialize.h:208-213 | The payload has at most w bytes exactly if the absolute value is below 256^w |
| IntegerCodec.EncodingLayout | ext/dlib/serialize.h:195-216 | The control byte holds the number of payload bytes and the sign, and byte k of the payload is digit k of the absolute value to the base 256, without leading zeros |
| IntegerCodec.DecodeLaw | ext/dlib/serialize.h:254-299 | For any bytes: when a reader succeeds, what it leaves, and that its value is in range and congruent to the payload's signed value |
| IntegerCodec.RoundTripIffInRange | ext/dlib/serialize.h:179-408 | Reading what was written, followed by anything, gives the integer and exactly what followed if and only if the integer is a value of the reader's type; unsigned readers reject negative numbers |
| IntegerCodec.DecodeExtends | ext/dlib/serialize.h:280-293 | The reader looks at no byte beyond those it consumes |
| FloatDetails.Compact | ext/dlib/float_details.h:148-152 | The loop computes the compaction |
| FloatDetails.CompactKeepsValue | ext/dlib/float_details.h:144-152 | Compaction keeps mantissa * 2^exponent, for either sign |
| FloatDetails.CompactIsNormal | ext/dlib/float_details.h:144-152 | It ends with a nonzero low byte or a zero mantissa and leaves compact nonzero mantissas alone |
| FloatDetails.SplitIsExactIff | ext/dlib/float_details.h:138-142 | Splitting a number into an integer mantissa and an exponent keeps it if and only if it has no more binary digits than the mantissa takes |
| FloatDetails.SplitIsRepresentable | ext/dlib/float_details.h:128-142 | With at most 63 digits the mantissa fits its type |
| FloatDetails.TruncatedTowardsZero | ext/dlib/float_details.h:141 | Digits without room are dropped towards zero |
| FloatDetails.SpecialForms | ext/dlib/float_details.h:86-88 | The infinities and NaN take the exponents 32000, 32001 and 32002 of a zero mantissa |
| FloatDetails.ConversionRoundTrip | ext/dlib/float_details.h:122-172 | Converting a split number to the portable form and back recovers it, the infinities and NaN included, and both fields fit their types |
| Serialization.Serialize | ext/dlib/serialize.h:763-945 | The stream loops write exactly the format of the value, nested in any way |
| Serialization.SerializeRequest | ext/dlib/serialize.h:967-1053 | So does the direct writing of a vector of chars |
| Serialization.Deserialize | ext/dlib/serialize.h:778-963 | The stream loops succeed exactly when the format can be decoded, with its value and consuming exactly its bytes |
| Serialization.DeserializeRequest | ext/dlib/serialize.h:984-1037 | The direct reading of a vector of chars succeeds whenever its size can be decoded, with the characters there are followed by zeros |
| Serialization.RoundTrip | ext/dlib/serialize.h:763-1071 | For every type, however nested, reading what was written followed by anything gives the value and exactly what followed |
| Serialization.RequestRoundTrip | ext/dlib/serialize.h:967-1037 | And for a vector of chars written and read directly |
| Serialization.SameBytesForChars | ext/dlib/serialize.h:929-982 | A vector of chars has the same bytes written directly, inside another type, or as a string |
| Serialization.Layout | ext/dlib/serialize.h:726-776 | The bytes of pairs, booleans, chars, floats and strings are those of their parts, in order |
| Serialization.ContainerLayout | ext/dlib/serialize.h:795-945 | The bytes of a container are its size's and then its elements', in order |
| Serialization.BoolReaderLaw | ext/dlib/serialize.h:740-759 | A boolean is one of two characters, and anything else is rejected |
| Serialization.BinaryFormatBits | ext/dlib/serialize.h:568 | The binary format is taken exactly if the three bits of 0x70 are clear |
| Serialization.InsertDropsEquivalent | ext/dlib/serialize.h:880-884 | An element read into a set is dropped if an equivalent one is there |
| Serialization.InsertAddsNew | ext/dlib/serialize.h:880-884 | Any other is added |
| Serialization.InsertKeepsOrder | ext/dlib/serialize.h:880-884 | Either way the set stays in order |
| Serialization.AssignReplaces | ext/dlib/serialize.h:832-837 | An entry read into a map gives an equivalent key its value |
| Serialization.AssignAddsNew | ext/dlib/serialize.h:832-837 | Any other is added |
| Serialization.FloatsAreBinary | ext/dlib/serialize.h:561-568 | The first byte of a written float has its 0x70 bits clear, so the reader takes the binary format |
| Serialization.DeserExtends | ext/dlib/serialize.h:763-963 | No reader of any type looks beyond what it consumes |
| Serialization.EmptyIsRejected | ext/dlib/serialize.h:778-1071 | No reader of any type accepts an empty input |
| Serialization.TruncatedIff | ext/dlib/serialize.h:763-1071 | Reading the first k bytes of a written value succeeds if and only if it is a vector of chars asked for directly and the missing bytes are at most its characters |
| Serialization.TruncatedIsRejected | ext/dlib/serialize.h:763-963 | For every type, however nested, every proper prefix of a written value is rejected |
| Serialization.TruncatedInsideIsRejected | ext/dlib/serialize.h:947-963 | A vector of chars read through the general overload, as it is inside other types, rejects every cut |
| Serialization.NumberRoundTrip | ext/dlib/serialize.h:501-585 | A split floating-point number converted, written, read back with anything after it and converted again is the same number, infinities and NaN included |
| Serialization.RealRoundTripIff | ext/dlib/serialize.h:501-585 | From the number itself: what comes back is the number if and only if the mantissa has room for all its digits |
| Serialization.TruncatedCharVector | ext/dlib/serialize.h:984-1037 | What a vector of chars becomes when the input is cut anywhere |
| SquareRoot.StepNotBelow | ext/dlib/algs.h:185-188 | No Newton step, from any positive start, falls below the floor square root of any natural number |
| SquareRoot.FourSteps | ext/dlib/algs.h:185-188 | From a start whose first three error bounds suffice, four steps end at the rounded-up root or one below |
| SquareRoot.IntegerSquareRoot | ext/dlib/algs.h:152-196 | For every value up to 2^32 - 1 the result is the square root rounded up |
| Colour.ShadeInterpolates | ext/dlib/pixel.h:757-769 | Both lightness halves put a component at its share of the way from the lowest to the highest one |
| Colour.HueNamesPure | ext/dlib/pixel.h:716-755 | Except where the hue is negative, the hue names the pure colour whose components are those shares |
| Colour.RoundTrip | ext/dlib/pixel.h:703-772 | HSL2RGB undoes RGB2HSL on a colour of the unit cube if and only if not green < blue <= red, which is exactly where the hue is not negative |
| Colour.HslRoundTrip | ext/dlib/pixel.h:703-772 | From any hue up to 360: a coloured triple comes back with its saturation and lightness, and with its hue, or a full turn less from 300 on; without saturation, or black or white, the hue and the saturation come back as 0 |
| Colour.HslRoundTripIff | ext/dlib/pixel.h:703-772 | So RGB2HSL undoes HSL2RGB exactly on coloured triples with a hue below 300 and on greys with hue 0 |
| Colour.Landmarks | ext/dlib/pixel.h:703-772 | Where the primary and mixed colours and the greys lie |

## Left out

- IEEE rounding, NaN and overflow in the optimizers, the clustering and the colour conversion: numbers are reals.
- The Euclidean norm: it needs a square root, so the optimizers' stopping rules use an arbitrary function of a vector, and the theorems hold for every such function.
- The exponential function: any function with values in [0, 1] on nonpositive arguments; its actual values do not matter to what is proved.
- The random source of annealing: arbitrary displacements and draws in [0, 1); the distribution is not modelled.
- SimplexOptimizer.GetCentroid: models the mean of dim coordinates; the source sizes its accumulator by the number of vertices, one more.
- An empty initial guess for simplex, Powell and coordinate descent: the source indexes empty vectors there.
- CoordinateDescentOptimizer.Minimize: with a limit of -1, the largest unsigned integer, the source's counter would wrap around before exceeding it; the model's counter does not wrap.
- BoxSafety.AnswersInsideIff: says which guesses are safe for all configurations of an optimizer; for one fixed configuration the answer may also be inside by luck.
- SimulatedAnnealingOptimizer.Minimize: with a limit of 0 the infinite cooling step of the source is modelled as cooling to 0.
- OptimizationManager.Manager.Optimize: the user's own callback is not modelled, and ranges have nonzero width, since the mapping divides by it.
- BOBYQA and RBF optimizers: they wrap code that is not part of this model.
- Physics, contacts, collision detection, kinematics and grasp quality: arbitrary inputs to each action of the simulator.
- Data races on the simulator's shared counters: actions are atomic, and workers interleave only at the queue's lock.
- The simulator is modelled under the assumptions that no timeout or collision is reported to a worker that never had a target, and that a stopped worker takes no further steps (resuming would restart its thread).
- GraspTaskSimulators.GraspTaskSimulator.Load: loading by file name (which drops the loaded task), gripper and frame look-ups and their exceptions are not modelled; workers' states are values held in a sequence, not separate objects.
- Timed state paths, auto-saving, log messages and the stored contacts and quality values: bookkeeping that no modelled decision reads.
- Sorting.QsortArray: indices are natural numbers, so the wrap-around of heap child indices above 2^63 is not modelled.
- ClusteringAlignment.BuildTree: the search tree is its contract, any order of the nodes and exact answers to box queries; its construction is not modelled.
- IntegerCodec.PackInt: the most negative value of a signed type, which the source cannot negate, is excluded, and writing never fails.
- IntegerCodec.UnpackInt: a control byte announcing no payload makes the source read outside its buffer; it is modelled as a failure.
- FloatDetails.SplitIsExactIff: the library functions frexp and ldexp are their mathematical contracts; how a machine word stores a float is not modelled.
- Serialization.Deserialize: the legacy ASCII floats, wide strings, boolean vectors, fixed arrays, enumerables and stream error flags are not modelled.
- Serialization.DeserializeRequest: a vector of chars is read into a fresh vector, whose new elements are zero.
- SquareRoot.IntegerSquareRoot: a word wider than 32 bits is assumed; with 32-bit words the final square could wrap.
- XML loaders, geometry generation, process managers, Python tools and demo programs: input/output plumbing.
- Parametrization, quality-index and shard containers, builders and evaluators other than alignment: they store values, look them up by name and hand them on.

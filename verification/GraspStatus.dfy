/**
 The outcome recorded for a grasp target. Codes of the library's enumeration
 the simulator never produces are `Other` when they index its statistics array
 and `OutOfRange` when they do not.
 */
module GraspStatus {

  datatype Status =
    | UnInitialized
    | Success
    | ObjectMissed
    | ObjectDropped
    | ObjectSlipped
    | TimeOut
    | SimulationFailure
    | CollisionObjectInitially
    | CollisionEnvironmentInitially
    | CollisionDuringExecution
    | Interference
    | Other(code: nat)
    | OutOfRange(code: nat)
}

/** Stages of a capture feature, as the API reports them. */
module Stages {

  datatype FeatureStage =
    | Unknown
    | Disconnected
    | ReadyForCapture
    | WaitingToBeginCapture
    | Capturing
    | Done
    | EncounteredError
    | Busy
    | Disabled
    | DisabledFromError
    | HardwareUnsupported
    | OsUnsupported
    | DriverUnsupported
    | ApiUnsupported
  {
    /** The stages whose numeric value is below zero. */
    predicate Negative() {
      Disabled? || DisabledFromError? || HardwareUnsupported? || OsUnsupported? || DriverUnsupported? || ApiUnsupported?
    }

    /** A capture is running or can still start. */
    predicate CaptureInProgress() {
      ReadyForCapture? || WaitingToBeginCapture? || Capturing? || Busy?
    }
  }

  datatype DetailedStage =
    | Unknown
    | Disconnected
    | ReadyForCapture
    | WaitingToBeginCapture
    | Capturing
    | Dumping
    | Processing
    | Done
    | EncounteredError
    | Busy
    | Disabled
    | DisabledFromError
    | HardwareUnsupported
    | OsUnsupported
    | DriverUnsupported
    | ApiUnsupported
}

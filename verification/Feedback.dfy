/** What the coordinator hands to a learning scheduler after a task (internal/coordinator/scheduler/feedback.go). */
module Feedback {

  /** A reward as the learners see it: a real number, or one of the float values they refuse (NaN and the infinities). */
  datatype Reward = Finite(value: real) | NotFinite

  datatype DispatchInfo = DispatchInfo(qValueAtDispatch: real, wasExploration: bool)
}

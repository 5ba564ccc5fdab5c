/** What the interleaving models share: request names, statement faults and REAP's replies. */
module Processes {
  type Pid = nat

  /** A statement ran normally, failed without effect, or took effect but its caller saw an error. */
  datatype Fault = NoFault | NotApplied | NotAcknowledged

  /** REAP's reply to a create: a transport error, or a status with the "id" field ("" if unreadable). */
  datatype Answer = CallFailed | Response(status: int, id: string)

  predicate Succeeded(answer: Answer) {
    answer.Response? && 200 <= answer.status < 300
  }
}

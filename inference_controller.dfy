/**
 * `InferenceController.Infer`: one validation of the request, then every
 * fault of the service answered with 500.
 */
module InferenceController {
  import opened Wrappers
  import opened Text
  import opened Paths
  import opened Models
  import opened Tool
  import Inference

  /** The request body; `None` for a `State` that is null. */
  datatype InferRequest = InferRequest(resultId: int, state: Option<string>)

  datatype Body = Text(text: string) | Output(output: string) | Error(error: string)

  const InvalidState := "Invalid request state."

  /** The service call the controller makes: which record, which state. */
  datatype Call = Call(resultId: int, state: string)

  /** The early return: a missing request or a null, empty or white-space state
      is refused with 400 before the service is consulted. */
  function Validate(request: Option<InferRequest>): (r: Result<Call, Reply<Body>>)
    ensures r.Failure? <==> request.None? || request.value.state.None? || IsBlank(request.value.state.value)
    ensures r.Failure? ==> r.error == Reply(400, Text(InvalidState))
    ensures r.Success? ==> r.value == Call(request.value.resultId, request.value.state.value)
  {
    if request.None? || request.value.state.None? || IsBlank(request.value.state.value) then
      Failure(Reply(400, Text(InvalidState)))
    else
      Success(Call(request.value.resultId, request.value.state.value))
  }

  /** The service's answer: its text as `Output` with 200; any fault, whatever
      its kind, as 500 with its message as `Error`. */
  function Respond(served: Result<string, Fault>): (reply: Reply<Body>)
    ensures reply.status == 200 <==> served.Success?
    ensures served.Success? ==> reply.body == Output(served.value)
    ensures served.Failure? ==> reply == Reply(500, Error(served.error.Message()))
  {
    match served
    case Success(output) => Reply(200, Output(output))
    case Failure(f) => Reply(500, Error(f.Message()))
  }

  /** The endpoint with the service behind it: 400 exactly for an invalid
      request, 200 with the tool's standard output exactly when every check
      passes and the tool exits with 0, and 500 for every other case, the
      unknown record and the missing file included. */
  function Infer(request: Option<InferRequest>, jarSetting: Option<string>, disk: Disk,
                 results: map<int, TrainingResult>, outcome: ProcessOutcome): (reply: Reply<Body>)
    ensures reply.status == 400 <==> Validate(request).Failure?
    ensures reply.status == 200 <==>
              && Validate(request).Success?
              && JarAvailable(jarSetting, disk)
              && request.value.resultId in results
              && FileExists(disk, results[request.value.resultId].filePath)
              && outcome.Exited? && outcome.exitCode == 0
    ensures reply.status == 200 ==> reply.body == Output(outcome.stdout)
    ensures reply.status in {200, 400, 500}
  {
    match Validate(request)
    case Failure(rejected) => rejected
    case Success(call) => Respond(Inference.Infer(jarSetting, disk, results, call.resultId, call.state, outcome))
  }
}

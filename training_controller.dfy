/**
 * `TrainingController`: the HTTP status and body each endpoint answers with,
 * given what the training service returned or threw.
 */
module TrainingController {
  import opened Wrappers
  import opened Paths
  import opened Models
  import opened Tool
  import Training

  datatype Body =
    | Message(message: string)
    | MessageWithDetails(message: string, details: string)
    | Results(results: seq<TrainingResult>)
    | Content(content: string)

  const Started := "Training process started successfully."
  const StartError := "An error occurred while starting the training process."
  const ResultsError := "Error retrieving results."
  const ContentError := "Error retrieving result content."

  /** `StartTraining`: answers as soon as the service has scheduled the run. */
  function StartTraining(started: Outcome<Fault>): (reply: Reply<Body>)
    ensures reply.status == 200 <==> started.Pass?
    ensures started.Pass? ==> reply.body == Message(Started)
    ensures reply.status == 404 <==> started.Fail? && (started.error.FileNotFound? || started.error.Argument?)
    ensures reply.status == 400 <==> started.Fail? && started.error.InvalidOperation?
    ensures reply.status == 500 <==> started.Fail? && started.error.Other?
    ensures started.Fail? && !started.error.Other? ==> reply.body == Message(started.error.Message())
    ensures started.Fail? && started.error.Other?
            ==> reply.body == MessageWithDetails(StartError, started.error.message)
  {
    match started
    case Pass => Reply(200, Message(Started))
    case Fail(FileNotFound(m)) => Reply(404, Message(m))
    case Fail(Argument(m)) => Reply(404, Message(m))
    case Fail(InvalidOperation(m)) => Reply(400, Message(m))
    case Fail(Other(m)) => Reply(500, MessageWithDetails(StartError, m))
  }

  /** `GetResults`: the list with 200, any fault as 500. */
  function GetResults(listed: Result<seq<TrainingResult>, Fault>): (reply: Reply<Body>)
    ensures reply.status == 200 <==> listed.Success?
    ensures listed.Success? ==> reply.body == Results(listed.value)
    ensures listed.Failure? ==> reply == Reply(500, Message(ResultsError))
  {
    match listed
    case Success(rs) => Reply(200, Results(rs))
    case Failure(_) => Reply(500, Message(ResultsError))
  }

  /** `GetResultContent`: the text (the sentinel included) with 200, an unknown
      record as 404, any other fault as 500. */
  function GetResultContent(read: Result<string, Fault>): (reply: Reply<Body>)
    ensures reply.status == 200 <==> read.Success?
    ensures read.Success? ==> reply.body == Content(read.value)
    ensures reply.status == 404 <==> read.Failure? && read.error.Argument?
    ensures read.Failure? && read.error.Argument? ==> reply.body == Message(read.error.message)
    ensures read.Failure? && !read.error.Argument? ==> reply == Reply(500, Message(ContentError))
  {
    match read
    case Success(c) => Reply(200, Content(c))
    case Failure(Argument(m)) => Reply(404, Message(m))
    case Failure(_) => Reply(500, Message(ContentError))
  }

  /** Starting through the endpoint: 400 when no jar is configured, 404 when the
      jar or the dataset version is missing, 200 otherwise; the guards never
      end in 500. */
  lemma StartTrainingStatus(jarSetting: Option<string>, disk: Disk, versions: map<int, DatasetVersion>, versionId: int)
    ensures var reply := StartTraining(Training.StartCheck(jarSetting, disk, versions, versionId).ToOutcome());
      && (reply.status == 400 <==> !JarConfigured(jarSetting))
      && (reply.status == 404 <==> JarConfigured(jarSetting) && (!JarAvailable(jarSetting, disk) || versionId !in versions))
      && (reply.status == 200 <==> JarAvailable(jarSetting, disk) && versionId in versions)
      && reply.status != 500
  {
  }

  /** Reading content through the endpoint: 404 exactly for an unknown record;
      otherwise 200, with the sentinel when the file is gone. */
  lemma GetResultContentStatus(service: Training.TrainingService, resultId: int, disk: Disk)
    ensures var reply := GetResultContent(service.GetResultContent(resultId, disk));
      && (reply.status == 404 <==> resultId !in service.results)
      && (reply.status != 404 ==> reply.status == 200)
      && (resultId in service.results && !FileExists(disk, service.results[resultId].filePath)
          ==> reply.body == Content(Training.ResultFileMissing))
  {
  }
}

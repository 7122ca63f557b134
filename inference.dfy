/**
 * `InferenceService.InferAsync`: a read-only decision procedure.  It checks
 * the jar, looks up the result record and its knowledge-base file, builds the
 * `-infer why` command line, and interprets the exit of the tool.
 */
module Inference {
  import opened Wrappers
  import opened Text
  import opened Paths
  import opened Models
  import opened Tool

  const JarUnavailable := "Training JAR path is not configured or not found."
  const ResultFileMissing := "Result file not found on server."
  const ProcessNotStarted := "Failed to start inference process."

  function ResultNotFound(resultId: int): string {
    "Training result with ID " + IntToString(resultId) + " not found."
  }

  function ExecutionFailed(stderr: string): string {
    "Inference execution failed: " + stderr
  }

  /** `-jar "<jar>" -infer why <state> "<file>"`, the state not quoted.  The
      command line carries the jar, the state and the file, provided none of
      them holds a quote; the state sits unquoted between the two. */
  function InferenceArguments(jarPath: string, state: string, resultFile: string): (r: string)
    ensures '"' !in jarPath && '"' !in state && '"' !in resultFile
            ==> Split(r, '"') == ["-jar ", jarPath, " -infer why " + state + " ", resultFile, ""]
  {
    var middle := " -infer why " + state + " ";
    var r := "-jar " + Quoted(jarPath) + middle + Quoted(resultFile);
    assert '"' !in jarPath && '"' !in state && '"' !in resultFile
           ==> Split(r, '"') == ["-jar ", jarPath, middle, resultFile, ""] by {
      if '"' !in jarPath && '"' !in state && '"' !in resultFile {
        assert '"' !in middle;
        SplitTwoQuoted("-jar ", jarPath, middle, resultFile, '"');
      }
    }
    r
  }

  /** The checks before the tool runs, in their order; on success the command
      line to run it with. */
  function Prepare(jarSetting: Option<string>, disk: Disk, results: map<int, TrainingResult>,
                   resultId: int, state: string): (r: Result<string, Fault>)
    ensures !JarAvailable(jarSetting, disk) ==> r == Failure(InvalidOperation(JarUnavailable))
    ensures JarAvailable(jarSetting, disk) && resultId !in results
            ==> r == Failure(Argument(ResultNotFound(resultId)))
    ensures JarAvailable(jarSetting, disk) && resultId in results && !FileExists(disk, results[resultId].filePath)
            ==> r == Failure(FileNotFound(ResultFileMissing))
    ensures r.Success? <==> JarAvailable(jarSetting, disk) && resultId in results
                            && FileExists(disk, results[resultId].filePath)
    ensures r.Success? ==> r.value == InferenceArguments(jarSetting.value, state, results[resultId].filePath)
  {
    if jarSetting.None? || jarSetting.value == "" || !FileExists(disk, jarSetting.value) then
      Failure(InvalidOperation(JarUnavailable))
    else if resultId !in results then
      Failure(Argument(ResultNotFound(resultId)))
    else if results[resultId].filePath == "" || !FileExists(disk, results[resultId].filePath) then
      Failure(FileNotFound(ResultFileMissing))
    else
      Success(InferenceArguments(jarSetting.value, state, results[resultId].filePath))
  }

  /** What the tool's exit means: standard output on exit code 0, otherwise a
      fault carrying standard error. */
  function Interpret(outcome: ProcessOutcome): (r: Result<string, Fault>)
    ensures r.Success? <==> outcome.Exited? && outcome.exitCode == 0
    ensures r.Success? ==> r.value == outcome.stdout
    ensures r.Failure? ==> r.error.Other?
    ensures outcome.StartFailed? ==> r == Failure(Other(ProcessNotStarted))
    ensures outcome.StartThrew? ==> r == Failure(Other(outcome.message))
    ensures outcome.Exited? && outcome.exitCode != 0 ==> r == Failure(Other(ExecutionFailed(outcome.stderr)))
  {
    match outcome
    case StartFailed => Failure(Other(ProcessNotStarted))
    case StartThrew(m) => Failure(Other(m))
    case Exited(code, stdout, stderr) =>
      if code != 0 then Failure(Other(ExecutionFailed(stderr))) else Success(stdout)
  }

  /** `InferAsync`, given what running the prepared command line produced.  The
      outcome only matters once every check has passed. */
  function Infer(jarSetting: Option<string>, disk: Disk, results: map<int, TrainingResult>,
                 resultId: int, state: string, outcome: ProcessOutcome): (r: Result<string, Fault>)
    ensures Prepare(jarSetting, disk, results, resultId, state).Failure?
            ==> r == Prepare(jarSetting, disk, results, resultId, state)
    ensures r.Success? <==> Prepare(jarSetting, disk, results, resultId, state).Success?
                            && outcome.Exited? && outcome.exitCode == 0
    ensures r.Success? ==> r.value == outcome.stdout
  {
    match Prepare(jarSetting, disk, results, resultId, state)
    case Failure(f) => Failure(f)
    case Success(_) => Interpret(outcome)
  }

  /** The guard on the jar comes before any look-up: without a usable jar the
      answer is the same whatever the records, the files or the tool. */
  lemma JarCheckedFirst(jarSetting: Option<string>, disk: Disk, results1: map<int, TrainingResult>,
                        results2: map<int, TrainingResult>, resultId1: int, resultId2: int,
                        state1: string, state2: string, outcome1: ProcessOutcome, outcome2: ProcessOutcome)
    requires !JarAvailable(jarSetting, disk)
    ensures Infer(jarSetting, disk, results1, resultId1, state1, outcome1)
         == Infer(jarSetting, disk, results2, resultId2, state2, outcome2)
         == Failure(InvalidOperation(JarUnavailable))
  {
  }
}

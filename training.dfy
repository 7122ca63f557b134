/**
 * The training-job lifecycle of `TrainingService`: three guards, one new
 * result record in "Running", one background run scheduled for it, and the run
 * that moves the record to "Completed" or "Failed" and always saves it.
 */
module Training {
  import opened Wrappers
  import opened Text
  import opened Paths
  import opened Models
  import opened Tool
  import Query

  const JarNotConfigured := "Training JAR path is not configured."
  const ProcessNotStarted := "Failed to start process."
  const ResultNotFound := "Result not found"
  const ResultFileMissing := "Result file not found on server."

  function JarNotFound(jar: string): string {
    "Training JAR file not found at: " + jar
  }

  function VersionNotFound(versionId: int): string {
    "Dataset version with ID " + IntToString(versionId) + " not found."
  }

  function ExitFailure(exitCode: int, stderr: string): string {
    "Process exited with code " + IntToString(exitCode) + ". Error: " + stderr
  }

  /** What `StartTrainingAsync` hands to `Task.Run`. */
  datatype BackgroundRun = BackgroundRun(jarPath: string, resultId: int, inputFile: string)

  /** Everything the background run takes from the outside world: the current
      directory, `DateTime.UtcNow.Ticks`, a failure of `Directory.CreateDirectory`
      (its message) and the outcome of running the tool. */
  datatype RunEnvironment = RunEnvironment(
    currentDirectory: string,
    ticks: nat,
    createDirectoryFault: Option<string>,
    process: ProcessOutcome)

  /** The guards of `StartTrainingAsync`, in their order; on success, the data
      file of the dataset version to learn from. */
  function StartCheck(jarSetting: Option<string>, disk: Disk, versions: map<int, DatasetVersion>, versionId: int)
    : (r: Result<string, Fault>)
    ensures !JarConfigured(jarSetting) ==> r == Failure(InvalidOperation(JarNotConfigured))
    ensures JarConfigured(jarSetting) && !FileExists(disk, jarSetting.value)
            ==> r == Failure(FileNotFound(JarNotFound(jarSetting.value)))
    ensures JarAvailable(jarSetting, disk) && versionId !in versions
            ==> r == Failure(Argument(VersionNotFound(versionId)))
    ensures r.Success? <==> JarAvailable(jarSetting, disk) && versionId in versions
    ensures r.Success? ==> r.value == versions[versionId].filePath
  {
    if !JarConfigured(jarSetting) then Failure(InvalidOperation(JarNotConfigured))
    else if !FileExists(disk, jarSetting.value) then Failure(FileNotFound(JarNotFound(jarSetting.value)))
    else if versionId !in versions then Failure(Argument(VersionNotFound(versionId)))
    else Success(versions[versionId].filePath)
  }

  /** `<cwd>/Uploads/Results`, with one separator after the current directory. */
  function OutputDirectory(currentDirectory: string): (r: string)
    ensures currentDirectory == "" ==> r == "Uploads" + "/" + "Results"
    ensures currentDirectory != "" ==>
      r == currentDirectory + (if currentDirectory[|currentDirectory| - 1] == '/' then "" else "/")
           + "Uploads" + "/" + "Results"
    ensures r != "" && r[|r| - 1] == 's'
  {
    CombineTwice(currentDirectory, "Uploads", "Results");
    LastOfAppend(Combine(currentDirectory, "Uploads") + "/", "Results");
    Combine(Combine(currentDirectory, "Uploads"), "Results")
  }

  function OutputFileName(resultId: int, ticks: nat): string {
    "result_" + IntToString(resultId) + "_" + NatToString(ticks) + ".txt"
  }

  /** `<cwd>/Uploads/Results/result_<id>_<ticks>.txt`: the file sits directly
      in the results directory. */
  function OutputFile(currentDirectory: string, resultId: int, ticks: nat): (r: string)
    ensures r == OutputDirectory(currentDirectory) + "/" + OutputFileName(resultId, ticks)
  {
    var name := OutputFileName(resultId, ticks);
    assert name[0] == 'r';
    Combine(OutputDirectory(currentDirectory), name)
  }

  /** Two runs that write at the same number of tick digits (every tick count
      from the year 318 to 3170 has 18) write to different files unless they are
      for the same record at the same tick. */
  lemma OutputFileDistinct(cwd: string, id1: int, ticks1: nat, id2: int, ticks2: nat)
    requires |NatToString(ticks1)| == |NatToString(ticks2)|
    requires OutputFile(cwd, id1, ticks1) == OutputFile(cwd, id2, ticks2)
    ensures id1 == id2 && ticks1 == ticks2
  {
    CombineInjective(OutputDirectory(cwd), OutputFileName(id1, ticks1), OutputFileName(id2, ticks2));
    NameFields(IntToString(id1), NatToString(ticks1), IntToString(id2), NatToString(ticks2));
    IntToStringInjective(id1, id2);
    NatToStringInjective(ticks1, ticks2);
  }

  lemma NameFields(i1: string, t1: string, i2: string, t2: string)
    requires |t1| == |t2|
    requires "result_" + i1 + "_" + t1 + ".txt" == "result_" + i2 + "_" + t2 + ".txt"
    ensures i1 == i2 && t1 == t2
  {
    assert "result_" + i1 + "_" + t1 + ".txt" == "result_" + (i1 + ("_" + (t1 + ".txt")));
    assert "result_" + i2 + "_" + t2 + ".txt" == "result_" + (i2 + ("_" + (t2 + ".txt")));
    SamePrefix("result_", i1 + ("_" + (t1 + ".txt")), "result_", i2 + ("_" + (t2 + ".txt")));
    SamePrefix(i1, "_" + (t1 + ".txt"), i2, "_" + (t2 + ".txt"));
    SamePrefix("_", t1 + ".txt", "_", t2 + ".txt");
    SamePrefix(t1, ".txt", t2, ".txt");
  }

  /** `-jar "<jar>" -learn all "<input>" "<output>"`.  The java command line
      reads the three paths back, provided none of them holds a quote. */
  function TrainingArguments(jarPath: string, inputFile: string, outputFile: string): (r: string)
    ensures '"' !in jarPath && '"' !in inputFile && '"' !in outputFile
            ==> Split(r, '"') == ["-jar ", jarPath, " -learn all ", inputFile, " ", outputFile, ""]
  {
    var r := "-jar " + Quoted(jarPath) + " -learn all " + Quoted(inputFile) + " " + Quoted(outputFile);
    assert '"' !in jarPath && '"' !in inputFile && '"' !in outputFile
           ==> Split(r, '"') == ["-jar ", jarPath, " -learn all ", inputFile, " ", outputFile, ""] by {
      if '"' !in jarPath && '"' !in inputFile && '"' !in outputFile {
        SplitThreeQuoted("-jar ", jarPath, " -learn all ", inputFile, " ", outputFile, '"');
      }
    }
    r
  }

  /** The record as `RunTrainingProcessAsync` leaves it, given the record it
      found and what happened in its `try` block. */
  function Conclude(found: TrainingResult, env: RunEnvironment): (r: TrainingResult)
    ensures r.id == found.id && r.datasetVersionId == found.datasetVersionId && r.createdAt == found.createdAt
    ensures r.status.IsTerminal()
    ensures r.status == Completed
            <==> env.createDirectoryFault.None? && env.process.Exited? && env.process.exitCode == 0
    ensures r.status == Completed ==> r.errorMessage == found.errorMessage
    ensures env.createDirectoryFault.Some?
            ==> r.filePath == found.filePath && r.errorMessage == env.createDirectoryFault
    ensures env.createDirectoryFault.None? ==> r.filePath == OutputFile(env.currentDirectory, found.id, env.ticks)
    ensures env.createDirectoryFault.None? && env.process.StartFailed? ==> r.errorMessage == Some(ProcessNotStarted)
    ensures env.createDirectoryFault.None? && env.process.StartThrew?
            ==> r.errorMessage == Some(env.process.message)
    ensures env.createDirectoryFault.None? && env.process.Exited? && env.process.exitCode != 0
            ==> r.errorMessage == Some(ExitFailure(env.process.exitCode, env.process.stderr))
  {
    match env.createDirectoryFault
    case Some(m) => found.(status := Failed, errorMessage := Some(m))
    case None =>
      var launched := found.(filePath := OutputFile(env.currentDirectory, found.id, env.ticks));
      match env.process
      case StartFailed => launched.(status := Failed, errorMessage := Some(ProcessNotStarted))
      case StartThrew(m) => launched.(status := Failed, errorMessage := Some(m))
      case Exited(code, _, stderr) =>
        if code != 0 then launched.(status := Failed, errorMessage := Some(ExitFailure(code, stderr)))
        else launched.(status := Completed)
  }

  /** A record only ever moves from "Running" to a terminal status. */
  predicate Advances(before: Status, after: Status) {
    before == Running && after.IsTerminal()
  }

  function CreatedAt(r: TrainingResult): int {
    r.createdAt
  }

  /** Every record sits under its own identity, below the next one; a record
      is never "Pending", and it is "Running", with no file yet, exactly while
      its run is still to come. */
  ghost predicate RecordsValid(results: map<int, TrainingResult>, nextId: int, pending: set<int>) {
    && (forall k :: k in results ==> 1 <= k < nextId && results[k].id == k)
    && (forall k :: k in pending ==> 1 <= k < nextId)
    && (forall k :: k in results ==> results[k].status != Pending)
    && (forall k :: k in results ==> (results[k].status == Running <==> k in pending))
    && (forall k :: k in results && k in pending ==> results[k].filePath == "")
  }

  /** A new "Running" record with no file, under the next identity and with its
      run still to come, keeps the records valid. */
  lemma StartKeepsRecords(results: map<int, TrainingResult>, nextId: int, pending: set<int>, record: TrainingResult)
    requires nextId >= 1 && RecordsValid(results, nextId, pending)
    requires record.id == nextId && record.status == Running && record.filePath == ""
    ensures nextId !in results && nextId !in pending
    ensures RecordsValid(results[nextId := record], nextId + 1, pending + {nextId})
  {
  }

  /** Concluding the record of a pending run, and striking the run off, keeps
      the records valid. */
  lemma ConcludeKeepsRecords(results: map<int, TrainingResult>, nextId: int, pending: set<int>,
                             resultId: int, env: RunEnvironment)
    requires RecordsValid(results, nextId, pending)
    requires resultId in results
    ensures RecordsValid(results[resultId := Conclude(results[resultId], env)], nextId, pending - {resultId})
  {
  }

  /** Striking off the run of a record that has gone keeps the records valid. */
  lemma DropKeepsRecords(results: map<int, TrainingResult>, nextId: int, pending: set<int>, resultId: int)
    requires RecordsValid(results, nextId, pending)
    requires resultId !in results
    ensures RecordsValid(results, nextId, pending - {resultId})
  {
  }

  /** The `TrainingResults` table and the background runs handed to `Task.Run`. */
  class TrainingService {
    var results: map<int, TrainingResult>
    /** The identity the database assigns to the next inserted record. */
    var nextId: int
    /** Every background run scheduled so far, in scheduling order. */
    var scheduled: seq<BackgroundRun>
    /** The records whose background run has been scheduled but has not run yet. */
    ghost var pending: set<int>

    /** Identities are assigned in order, every run is for its own record, and
        the records keep `RecordsValid`. */
    ghost predicate Valid()
      reads this
    {
      && nextId >= 1
      && RecordsValid(results, nextId, pending)
      && (forall i :: 0 <= i < |scheduled| ==> 1 <= scheduled[i].resultId < nextId)
      && (forall i, j :: 0 <= i < j < |scheduled| ==> scheduled[i].resultId != scheduled[j].resultId)
    }

    constructor ()
      ensures Valid()
      ensures results == map[] && scheduled == [] && pending == {}
    {
      results := map[];
      nextId := 1;
      scheduled := [];
      pending := {};
    }

    /** `StartTrainingAsync`: on success one new "Running" record and one
        background run for it; on failure nothing changes. */
    method StartTraining(jarSetting: Option<string>, disk: Disk, versions: map<int, DatasetVersion>,
                         versionId: int, now: int)
      returns (r: Outcome<Fault>)
      requires Valid()
      modifies this`results, this`nextId, this`scheduled, this`pending
      ensures Valid()
      ensures r == StartCheck(jarSetting, disk, versions, versionId).ToOutcome()
      ensures r.Fail? ==> results == old(results) && nextId == old(nextId) && scheduled == old(scheduled)
                          && pending == old(pending)
      ensures r.Pass? ==>
        && old(nextId) !in old(results)
        && results == old(results)[old(nextId) := TrainingResult(old(nextId), versionId, "", Running, now, None)]
        && nextId == old(nextId) + 1
        && scheduled == old(scheduled)
                        + [BackgroundRun(jarSetting.value, old(nextId), versions[versionId].filePath)]
        && old(nextId) !in old(pending)
        && pending == old(pending) + {old(nextId)}
    {
      if jarSetting.None? || jarSetting.value == "" {
        return Fail(InvalidOperation(JarNotConfigured));
      }
      var jarPath := jarSetting.value;
      if !FileExists(disk, jarPath) {
        return Fail(FileNotFound(JarNotFound(jarPath)));
      }
      if versionId !in versions {
        return Fail(Argument(VersionNotFound(versionId)));
      }
      var datasetVersion := versions[versionId];
      var id := nextId;
      var record := TrainingResult(id, versionId, "", Running, now, None);
      StartKeepsRecords(results, nextId, pending, record);
      results := results[id := record];
      nextId := nextId + 1;
      scheduled := scheduled + [BackgroundRun(jarPath, id, datasetVersion.filePath)];
      pending := pending + {id};
      return Pass;
    }

    /** `RunTrainingProcessAsync`, which only the `Task.Run` of a successful
        start calls, once: a scheduled run that has not run yet.  A missing
        record is left alone; otherwise the record, still "Running", is
        concluded to a terminal status and saved whatever happened, and no
        other record changes.  Returns the argument string java was launched
        with, when it got that far. */
    method RunTrainingProcess(run: BackgroundRun, env: RunEnvironment) returns (launched: Option<string>)
      requires Valid()
      requires run in scheduled && run.resultId in pending
      modifies this`results, this`pending
      ensures Valid()
      ensures pending == old(pending) - {run.resultId}
      ensures run.resultId !in old(results) ==> results == old(results) && launched == None
      ensures run.resultId in old(results) ==>
        && old(results)[run.resultId].status == Running
        && results == old(results)[run.resultId := Conclude(old(results)[run.resultId], env)]
        && Advances(old(results)[run.resultId].status, results[run.resultId].status)
      ensures launched.Some? <==> run.resultId in old(results) && env.createDirectoryFault.None?
      ensures launched.Some? ==> launched.value == TrainingArguments(
        run.jarPath, run.inputFile, OutputFile(env.currentDirectory, run.resultId, env.ticks))
    {
      launched := None;
      pending := pending - {run.resultId};
      if run.resultId !in results {
        DropKeepsRecords(results, nextId, old(pending), run.resultId);
        return;
      }
      var record := results[run.resultId];
      if env.createDirectoryFault.Some? {
        record := record.(status := Failed, errorMessage := env.createDirectoryFault);
      } else {
        var outputFile := OutputFile(env.currentDirectory, run.resultId, env.ticks);
        record := record.(filePath := outputFile);
        launched := Some(TrainingArguments(run.jarPath, run.inputFile, outputFile));
        match env.process {
          case StartFailed =>
            record := record.(status := Failed, errorMessage := Some(ProcessNotStarted));
          case StartThrew(m) =>
            record := record.(status := Failed, errorMessage := Some(m));
          case Exited(code, _, stderr) =>
            if code != 0 {
              record := record.(status := Failed, errorMessage := Some(ExitFailure(code, stderr)));
            } else {
              record := record.(status := Completed);
            }
        }
      }
      assert record == Conclude(results[run.resultId], env);
      ConcludeKeepsRecords(results, nextId, old(pending), run.resultId, env);
      results := results[run.resultId := record];
    }

    /** `GetResultsByVersionIdAsync`: exactly the records of that version, newest first. */
    method GetResultsByVersionId(versionId: int) returns (rs: seq<TrainingResult>)
      requires Valid()
      ensures Query.NewestFirst(rs, CreatedAt)
      ensures forall x :: x in rs ==> x in results.Values && x.datasetVersionId == versionId
      ensures forall k :: k in results && results[k].datasetVersionId == versionId ==> results[k] in rs
      ensures |rs| == |set k | k in results && results[k].datasetVersionId == versionId|
    {
      var ofVersion := (t: TrainingResult) => t.datasetVersionId == versionId;
      rs := Query.SelectNewestFirst(results, nextId, ofVersion, CreatedAt);
      assert Query.Matching(results, ofVersion) == set k | k in results && results[k].datasetVersionId == versionId;
    }

    /** `GetResultContentAsync`: an unknown id throws; a record whose file is
        not on disk yields the sentinel text. */
    function GetResultContent(resultId: int, disk: Disk): (r: Result<string, Fault>)
      reads this
      ensures resultId !in results <==> r == Failure(Argument(ResultNotFound))
      ensures resultId in results && !FileExists(disk, results[resultId].filePath)
              ==> r == Success(ResultFileMissing)
      ensures resultId in results && FileExists(disk, results[resultId].filePath)
              ==> r == Success(disk[results[resultId].filePath])
    {
      if resultId !in results then Failure(Argument(ResultNotFound))
      else if !FileExists(disk, results[resultId].filePath) then Success(ResultFileMissing)
      else Success(disk[results[resultId].filePath])
    }
  }

  /** The record a successful start inserts is concluded by its run into a
      terminal status, with the output file as its path once the directory
      exists. */
  lemma StartThenRun(found: TrainingResult, env: RunEnvironment)
    requires found.status == Running && found.filePath == ""
    ensures Advances(found.status, Conclude(found, env).status)
    ensures env.createDirectoryFault.None? ==> Conclude(found, env).filePath != ""
  {
  }

  /** While its run is still to come, reading a record's content yields the
      sentinel text, whatever is on disk. */
  lemma PendingReadsSentinel(service: TrainingService, resultId: int, disk: Disk)
    requires service.Valid()
    requires resultId in service.pending && resultId in service.results
    ensures service.GetResultContent(resultId, disk) == Success(ResultFileMissing)
  {
  }

  /** A record that has reached a terminal status is never the one a pending
      run would rewrite. */
  lemma TerminalNotPending(service: TrainingService, resultId: int)
    requires service.Valid()
    requires resultId in service.results && service.results[resultId].status.IsTerminal()
    ensures resultId !in service.pending
  {
  }
}

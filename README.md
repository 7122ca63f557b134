# InteKRator UI: training, inference, dataset versions and the grid editor

This project models the logic of the InteKRator UI. The ASP.NET backend drives
the InteKRator learning tool (`java -jar InteKRator.jar`), and an Angular page
edits dataset versions. The model covers four parts:

- **Training-job lifecycle** (`training.dfy`, `training_controller.dfy`).
  - `TrainingService` is a class. It holds the `TrainingResults` table as a map from identity to record, and a list of the background runs it has scheduled.
  - Starting a job runs three guards in order. It then inserts one record in "Running" and schedules one run.
  - The run is a separate method. It concludes the record as "Completed" or "Failed" and always saves it.
  - The controller turns each fault kind into its HTTP status.
- **Inference** (`inference.dfy`, `inference_controller.dfy`). This is a pure decision procedure.
  - `InferAsync` checks the jar, then the result record, then its file. It builds the `-infer why` command line and reads the tool's exit.
  - The controller validates the request and answers every fault with 500.
- **Dataset versions** (`versions.dfy`, `version_controller.dfy`).
  - An upload derives `Columns` and `Content` from the file's text. This derivation is a pure function, and the imperative method is proved against it.
  - `VersionService` is a class over the versions table and the files it writes. It creates, copies, uploads, deletes and lists versions.
  - The controller validates the uploaded form and maps results to statuses.
- **Manual grid editor** (`grid.dfy`, `dataset_manager.dfy`).
  - The component is a class. Its fields are the signals and properties of `DatasetManagerComponent`.
  - Each grid edit is a pure whole-grid function. Their contracts show that the grid stays rectangular over the column list.
  - A saved grid's text parses back to the grid.

Shared pieces:

- `wrappers.dfy`: Option, Result and Outcome, plus `Fault`, which stands for the exception kinds the code throws and catches.
- `text.dfy`: .NET and JavaScript string operations: `Trim`, `Split`, `Join`, `Replace`, and number rendering.
- `paths.dfy`: `Path.Combine`, `Path.GetExtension`, and a file system modelled as a map from path to text.
- `query.dfy`: the `Where(...).OrderByDescending(...)` read.
- `models.dfy`: the persisted records.
- `tool.dfy`: the tool's process outcome.

Outside inputs are explicit parameters:

- the configured jar path (`TrainingSettings:JarPath`, `None` when null);
- the disk;
- the current directory;
- `DateTime.UtcNow` and its `Ticks`;
- `Guid.NewGuid()`;
- the outcome of running java: it did not start (`Process.Start` returned null), `Process.Start` threw, or it exited with a code, stdout and stderr.

The code and the comment on `TrainingResult.Status` ("Pending, Completed,
Failed", `Backend/Models/TrainingResult.cs:19`) disagree, and the model follows
the code: new training records are written directly in "Running", and
"Pending" is only the property default.

The stored records also differ from their class declarations:
`Backend/Models/DatasetVersion.cs` has no `Columns` or `Content` properties, yet
`VersionService.cs` assigns both, so the record here carries them.

One check in the code is dead: in upload header mode the header-line count
test (`lines.Count > 0`) always holds, because a split always yields at least one
piece. `Versions.Lines` states this.

## Model

| member | source | states |
|---|---|---|
| Training.StartCheck | Backend/Services/TrainingService.cs:29-49 | The guards fire in their order. No jar setting, or an empty one, gives InvalidOperation. A jar that is not on disk gives FileNotFound with its path. An unknown version gives Argument. Success means exactly that the jar is present and the version exists, and it yields the version's data file. |
| Training.TrainingService.StartTraining | Backend/Services/TrainingService.cs:27-65 | The outcome is the guard result. A failure changes nothing. A success adds exactly one record under a fresh identity, in status Running, with the given version and time, an empty FilePath and no error. It schedules exactly one background run for that record, with the jar and the version's file, and marks that run as still to come. The class invariant holds throughout: no record is Pending, and a record is Running, with no file yet, exactly while its run is still to come. |
| Training.TrainingService.RunTrainingProcess | Backend/Services/TrainingService.cs:67-137 | It is called, once, only for a scheduled run that has not run yet, as the single `Task.Run` of a start calls it; afterwards that run is no longer to come. A record that has vanished is left alone. Otherwise the record was Running; it alone changes, to `Conclude` of its old value (persisted whatever happened), and it ends in a terminal status. The tool is launched exactly when the directory was created, with the `-learn all` command line for the computed output file. |
| Training.Conclude | Backend/Services/TrainingService.cs:75-135 | Id, version and creation time are kept. The status is always terminal. It is Completed iff the directory was created and the tool exited with code 0. The output path is set before launching. Otherwise the error is "Failed to start process.", the thrown message, or "Process exited with code N. Error: stderr". |
| Training.StartThenRun | Backend/Services/TrainingService.cs:52-63 | A freshly inserted Running record only moves to a terminal status. Once the directory exists, it carries a result path. |
| Training.PendingReadsSentinel | Backend/Services/TrainingService.cs:151-165 | While a record's run is still to come, reading its content yields the sentinel "Result file not found on server.", whatever is on disk. |
| Training.TerminalNotPending | Backend/Services/TrainingService.cs:67-137 | A record in a terminal status has no run still to come, so no run rewrites it. |
| Training.StartKeepsRecords | Backend/Services/TrainingService.cs:51-63 | A new Running record with no file, under the next identity, whose run is still to come, keeps the record invariant: no record Pending, Running exactly while the run is to come. |
| Training.ConcludeKeepsRecords | Backend/Services/TrainingService.cs:75-135 | Concluding the record of a pending run and striking the run off keeps the record invariant. |
| Training.DropKeepsRecords | Backend/Services/TrainingService.cs:72-73 | Striking off the run of a record that has gone keeps the record invariant. |
| Training.OutputFileDistinct | Backend/Services/TrainingService.cs:79-81 | Two `result_{id}_{ticks}.txt` paths are equal only for the same record and tick. |
| Training.OutputDirectory | Backend/Services/TrainingService.cs:79 | The directory is `Uploads/Results` under the current directory, with exactly one '/' after it (none added when it already ends in '/'). |
| Training.OutputFile | Backend/Services/TrainingService.cs:79-81 | The output file is `result_<id>_<ticks>.txt` directly inside that directory, after one '/'. |
| Training.TrainingArguments | Backend/Services/TrainingService.cs:91 | The command line is `-jar "jar" -learn all "input" "output"`. When no path holds a quote, splitting it on quotes gives back the three paths in place. |
| Training.TrainingService.GetResultsByVersionId | Backend/Services/TrainingService.cs:139-149 | The result holds exactly the records of that version: each of them, nothing else, one entry per record. They are ordered by CreatedAt, newest first. |
| Query.SelectNewestFirst | Backend/Services/TrainingService.cs:144-147 | The loop over identities returns the rows the filter keeps: all of them, only those, as many as there are. They are ordered by stamp, non-increasing. |
| Query.Position | Backend/Services/TrainingService.cs:146 | The insertion point: every row in front of it is strictly newer than the new row, and the row at it, if any, is not newer. On a tie the new row goes first. |
| Query.InsertNewestFirst | Backend/Services/TrainingService.cs:146 | Inserting into a newest-first list keeps it newest first. The result is the old list with the new row spliced in at `Position`. |
| Query.InsertPermutes | Backend/Services/TrainingService.cs:146 | The insertion is a permutation of the old rows plus the new one, counted with multiplicity; the length grows by one. |
| Query.InsertMembers | Backend/Services/TrainingService.cs:146 | A row is in the result iff it is the new row or one of the old rows. |
| Query.SelectBelowSound | Backend/Services/TrainingService.cs:144-147 | Every row selected from the keys below n comes from the table and passes the filter. |
| Query.SelectBelowComplete | Backend/Services/TrainingService.cs:144-147 | When no key is negative, every kept row whose key is below n is selected. |
| Query.SelectBelowCount | Backend/Services/TrainingService.cs:144-147 | When no key is negative, the selection below n has one entry per kept key below n. |
| Training.TrainingService.GetResultContent | Backend/Services/TrainingService.cs:151-166 | An unknown id gives Argument "Result not found". A missing file gives the sentinel "Result file not found on server." as a normal result. Otherwise the file text. |
| TrainingController.StartTraining | Backend/Controllers/TrainingController.cs:20-45 | 200 with the started message iff the service returned. 404 iff FileNotFound or Argument. 400 iff InvalidOperation. 500 iff any other fault, with the fault message as details. |
| TrainingController.StartTrainingStatus | Backend/Controllers/TrainingController.cs:25-39 | Over the guards: 400 iff no jar is configured, 404 iff the jar or the version is missing, 200 otherwise. It is never 500. |
| TrainingController.GetResults | Backend/Controllers/TrainingController.cs:48-60 | 200 with the list iff the service succeeded; otherwise 500 "Error retrieving results.". |
| TrainingController.GetResultContent | Backend/Controllers/TrainingController.cs:63-79 | 200 with the text iff the service returned, the sentinel included. 404 with the message iff Argument. 500 "Error retrieving result content." for any other fault. |
| TrainingController.GetResultContentStatus | Backend/Controllers/TrainingController.cs:67-73 | Over the service: 404 exactly for an unknown record, otherwise 200. A missing file answers the sentinel. |
| Inference.Prepare | Backend/Services/InferenceService.cs:26-57 | The jar is checked before any look-up (InvalidOperation). Then the record (Argument, "Training result with ID n not found."), then its file (FileNotFound "Result file not found on server.", also for an empty path). Success iff all three hold, with the `-infer why` command line. |
| Inference.InferenceArguments | Backend/Services/InferenceService.cs:57 | The command line is `-jar "jar" -infer why state "file"`, with the state unquoted between the quoted jar and file. When none of the three holds a quote, splitting on quotes gives back the jar, the text around the state, and the file. |
| Inference.Interpret | Backend/Services/InferenceService.cs:66-87 | Success iff the tool exited with code 0, and then stdout unchanged. No start gives "Failed to start inference process.". A non-zero exit gives "Inference execution failed: stderr". Every failure is of the general kind. |
| Inference.Infer | Backend/Services/InferenceService.cs:24-89 | A failed check is the answer whatever the tool does. Success iff the checks pass and the tool exits with 0, with stdout as the value. No record is changed: the function reads the table only. |
| Inference.JarCheckedFirst | Backend/Services/InferenceService.cs:26-30 | Without a usable jar, the answer is InvalidOperation whatever the records, the id, the state or the tool. |
| InferenceController.Validate | Backend/Controllers/InferenceController.cs:21-24 | A missing request, or a null, empty or white-space state, is refused with 400 "Invalid request state."; exactly those. Otherwise the service is called with the request's id and state. |
| InferenceController.Respond | Backend/Controllers/InferenceController.cs:26-34 | 200 with Output equal to the service's text iff it returned. Every fault, whatever its kind, gives 500 with Error equal to its message. |
| InferenceController.Infer | Backend/Controllers/InferenceController.cs:19-35 | End to end: 400 iff the request is invalid. 200 iff it is valid, the jar, record and file exist, and the tool exits with 0, with the tool's stdout. Everything else is 500, including the unknown record and the missing file. |
| Versions.Lines | Backend/Services/VersionService.cs:122-130 | Splitting the trimmed text on '\n' yields at least one line, so the header branch is always taken. |
| Text.Trim | Backend/Services/VersionService.cs:122 | White space is cut from both ends and only from there: the result is a middle slice with white space on either side, and it neither starts nor ends with white space. |
| Versions.HeaderTokens | Backend/Services/VersionService.cs:133 | Every column name is non-empty and holds no space or tab. |
| Versions.HeaderTokensConcat | Backend/Services/VersionService.cs:133 | Concatenated, the column names are exactly the trimmed header line with its spaces and tabs removed, in order. |
| Versions.HeaderTokensWords | Backend/Services/VersionService.cs:133 | The column names are exactly the maximal runs of non-space characters of the trimmed header with tabs read as spaces, in order. This fixes where each name begins and ends. |
| Text.NonEmptySplitWords | Backend/Services/VersionService.cs:133 | Splitting on a separator and dropping the empty pieces gives the maximal separator-free runs, as a run-by-run scanner finds them. |
| Versions.DeriveUpload | Backend/Services/VersionService.cs:122-145 | In header mode the columns are the header's names joined by ','. Otherwise the content is the raw text and the columns are the given ones, or "" for null. |
| Versions.HeaderLayout | Backend/Services/VersionService.cs:122-137 | In header mode the header line holds no line break. The trimmed text is exactly that header, followed by a line break and the stored content when the content is not empty. |
| Versions.ReadUpload | Backend/Services/VersionService.cs:118-145 | The step-by-step derivation (split, header check, join of the remaining lines) computes exactly `DeriveUpload` of the raw text. |
| Versions.BlankUpload | Backend/Services/VersionService.cs:122-138 | In header mode, an empty or white-space file gives `Columns == ""` and `Content == ""`. |
| Versions.ColumnsRoundTrip | Backend/Services/VersionService.cs:133 | For a comma-free header with at least one name, splitting the stored Columns on ',' gives back the names. |
| Text.SplitJoin | Backend/Services/VersionService.cs:57 | Joining non-empty lists of comma-free names with ',' and splitting on ',' gives the list back. This is what a manual version's Columns keeps. |
| Text.JoinSplit | Backend/Services/VersionService.cs:122-137 | Joining the pieces of a split with the separator gives the text back. |
| Versions.VersionService.GetVersionsByDatasetId | Backend/Services/VersionService.cs:16-22 | The listing holds exactly the versions of that dataset, one entry each, newest first. |
| Versions.VersionService.GetVersionById | Backend/Services/VersionService.cs:24-27 | Some iff the identity is in the table, and then that version. |
| Versions.VersionService.Insert | Backend/Services/VersionService.cs:31-32 | `Add` then `SaveChangesAsync`: the version is stored under the next identity, which was unused, and is returned with it; no other version changes. |
| Versions.VersionService.CreateVersion | Backend/Services/VersionService.cs:29-34 | The version is stored under a fresh identity, and the rest of the table and the disk are unchanged. |
| Versions.VersionService.CreateManualVersion | Backend/Services/VersionService.cs:36-66 | The file `Uploads/<guid>_manual.txt` receives the content. The new version stores `Columns = join(",", columns)` and `Content = content`, under a fresh identity; nothing else changes. |
| Versions.VersionService.CopyVersion | Backend/Services/VersionService.cs:68-105 | An unknown source gives Argument "Source version not found" and changes nothing. Otherwise `Uploads/<guid>_copy.txt` receives the source content, and the new version takes the source's Columns and Content. |
| Versions.VersionService.UploadVersion | Backend/Services/VersionService.cs:107-169 | The file `Uploads/<guid>_<fileName>` receives the raw text in either mode. The stored Columns and Content are `DeriveUpload` of the raw text. One new version, nothing else changes. |
| Versions.VersionService.DeleteVersion | Backend/Services/VersionService.cs:171-184 | False and no change iff the id is unknown. Otherwise exactly that version is removed, and its file too when it exists. |
| Paths.Combine | Backend/Services/TrainingService.cs:79-81 | A relative second part is appended after exactly one separator; an empty first part yields the second. |
| Paths.CombineTwice | Backend/Services/TrainingService.cs:79 | `Path.Combine(a, b, c)` with relative parts: `c` follows the combined `a` and `b` after exactly one '/'. |
| Paths.Extension | Backend/Controllers/VersionController.cs:62 | The extension is empty, or a suffix of the name that starts with '.' and has no further '.' or '/'. |
| Paths.AsciiLower | Backend/Controllers/VersionController.cs:62 | Same length; each capital letter becomes its small letter and every other character stays. |
| VersionController.CheckUpload | Backend/Controllers/VersionController.cs:57-71 | A missing or zero-length file gives 400 "File is empty", before the extension is looked at. Then a wrong extension gives 400 "Only .txt and .dat files are allowed". An accepted form reaches the service with the file's own name, header mode and no columns; exactly those forms. |
| VersionController.AcceptedExtensionIff | Backend/Controllers/VersionController.cs:62-66 | A name is accepted iff it ends with ".txt" or ".dat" in any case mix, so ".TXT" passes. |
| VersionController.Created | Backend/Controllers/VersionController.cs:36-37 | A created version answers 201 with the stored version. |
| VersionController.GetVersion | Backend/Controllers/VersionController.cs:26-31 | 404 iff the service found nothing; otherwise 200 with the version. |
| VersionController.GetVersionStatus | Backend/Controllers/VersionController.cs:28-30 | Over the service: 200 exactly for a stored identity, with that version. |
| VersionController.DeleteVersion | Backend/Controllers/VersionController.cs:77-83 | 404 iff the service returned false; otherwise 204 with no body. |
| Grid.RemoveAt | Frontend/src/app/components/dataset-manager/dataset-manager.ts:153-154 | Filtering out position i keeps every other entry in order. It is a no-op when i is not a position. |
| Grid.AppendCell | Frontend/src/app/components/dataset-manager/dataset-manager.ts:149 | Every row keeps its cells and gains the new one at its end. A rectangular grid of width w becomes one of width w+1. |
| Grid.RemoveCell | Frontend/src/app/components/dataset-manager/dataset-manager.ts:154 | Each row loses position i. The row count is kept, width w becomes w-1, and an out-of-range i changes nothing. |
| Grid.Zeros | Frontend/src/app/components/dataset-manager/dataset-manager.ts:159 | n cells, each '0'. |
| Grid.SetCell | Frontend/src/app/components/dataset-manager/dataset-manager.ts:166-171 | Only cell [r][c] changes, to the value; every other cell and the shape are kept. |
| Grid.RowTexts | Frontend/src/app/components/dataset-manager/dataset-manager.ts:180 | One text per row: its cells joined by ' '. |
| Grid.Serialize | Frontend/src/app/components/dataset-manager/dataset-manager.ts:180 | The saved text joins the row texts with '\n'. When the grid has a row and no cell holds a line break, its lines are exactly the row texts. |
| Grid.ParseSerialize | Frontend/src/app/components/dataset-manager/dataset-manager.ts:180 | Reading the saved text back (lines, then spaces) gives the grid back. This holds for a grid with at least one row, no empty row, and no cell holding a space or line break. |
| Grid.GridEditsKeepShape | Frontend/src/app/components/dataset-manager/dataset-manager.ts:146-160 | Adding a column, removing one, or adding a row keeps the grid rectangular over the new column list. |
| DatasetManager.DatasetManagerComponent.constructor | Frontend/src/app/components/dataset-manager/dataset-manager.ts:17-28 | The initial state: three columns State1, State2 and Action over one row of three '0' cells, so the grid is rectangular. Nothing is selected, the view is "new", and every flag is off. |
| DatasetManager.DatasetManagerComponent.SelectDataset | Frontend/src/app/components/dataset-manager/dataset-manager.ts:40-48 | The dataset becomes current, the selected version is cleared, the view is "new", and the dataset is fetched again. |
| DatasetManager.DatasetManagerComponent.OnFileSelected | Frontend/src/app/components/dataset-manager/dataset-manager.ts:60-65 | The first chosen file becomes the upload file; with none, the old file stays. |
| DatasetManager.DatasetManagerComponent.ToggleSidebar | Frontend/src/app/components/dataset-manager/dataset-manager.ts:68-70 | The sidebar flag flips. |
| DatasetManager.DatasetManagerComponent.SetViewMode | Frontend/src/app/components/dataset-manager/dataset-manager.ts:72-74 | The view becomes the given mode. |
| DatasetManager.DatasetManagerComponent.OnDragOver | Frontend/src/app/components/dataset-manager/dataset-manager.ts:79-83 | The drop highlight goes on. |
| DatasetManager.DatasetManagerComponent.OnDragLeave | Frontend/src/app/components/dataset-manager/dataset-manager.ts:85-89 | The drop highlight goes off. |
| DatasetManager.DatasetManagerComponent.OnDrop | Frontend/src/app/components/dataset-manager/dataset-manager.ts:91-100 | The highlight goes off, and the first dropped file, if any, becomes the upload file. |
| DatasetManager.DatasetManagerComponent.UploadVersion | Frontend/src/app/components/dataset-manager/dataset-manager.ts:102-114 | The service call is made iff a dataset, a file and a non-empty version number are all present. Otherwise only the alert is shown. |
| DatasetManager.DatasetManagerComponent.UploadSucceeded | Frontend/src/app/components/dataset-manager/dataset-manager.ts:115-121 | After a successful upload, the form is cleared and the dataset is selected again. |
| DatasetManager.DatasetManagerComponent.ToggleManualMode | Frontend/src/app/components/dataset-manager/dataset-manager.ts:142-144 | The manual-mode flag flips. |
| DatasetManager.DatasetManagerComponent.AddColumn | Frontend/src/app/components/dataset-manager/dataset-manager.ts:146-150 | An empty name changes nothing. Otherwise the name is appended and every row gains a '0' cell, and the grid stays rectangular. |
| DatasetManager.DatasetManagerComponent.RemoveColumn | Frontend/src/app/components/dataset-manager/dataset-manager.ts:152-155 | Position i leaves the column list and every row. The row count is kept, rectangularity is kept, and an out-of-range i is a no-op. |
| DatasetManager.DatasetManagerComponent.AddRow | Frontend/src/app/components/dataset-manager/dataset-manager.ts:157-160 | One row of '0' cells, one per column, is appended, and the grid stays rectangular. |
| DatasetManager.DatasetManagerComponent.DeleteRow | Frontend/src/app/components/dataset-manager/dataset-manager.ts:162-164 | Exactly row i goes; the others keep their order, and the grid stays rectangular. |
| DatasetManager.DatasetManagerComponent.UpdateCell | Frontend/src/app/components/dataset-manager/dataset-manager.ts:166-171 | Only the addressed cell changes, and the grid stays rectangular. |
| DatasetManager.DatasetManagerComponent.SaveManualVersion | Frontend/src/app/components/dataset-manager/dataset-manager.ts:173-188 | Without a dataset or a version number, only the alert is shown. Otherwise the request carries the column list and the grid serialised: cells by ' ', rows by '\n'. |
| DatasetManager.DatasetManagerComponent.ManualVersionSaved | Frontend/src/app/components/dataset-manager/dataset-manager.ts:189-195 | After a successful save, the form is cleared, manual mode ends and the dataset is selected again. |

## Left out

- Running java is not modelled: `Process.Start`, reading stdout and stderr, and `WaitForExitAsync`. Each call site takes its outcome as an input.
- The file system is a map from path to text.
  - Directories are not modelled. `Directory.CreateDirectory` in the version service is assumed to succeed; in the training run, its failure is an input.
  - File writes do not fail.
  - Paths use '/' as the only separator, as on a Unix host.
- `Task.Run` runs concurrently with the request; here it is a separately called method. Per-scope `DbContext` creation is not modelled.
- Failures of `SaveChangesAsync` are not modelled:
  - the database is a map that accepts every write;
  - a fault in the `finally` save of the training run is not modelled;
  - a fault of the listing that `GetResults` catches is not modelled, although `TrainingController.GetResults` itself handles a failed result.
- Logging is not modelled.
- `CreatedAtAction` adds a Location header built from route values; the reply here is 201 with the stored version.
- `ToLower` is culture-sensitive; here it is ASCII lower-casing. The two agree on every name whose last four characters can be accepted.
- Versions.VersionService.CreateManualVersion: `columns` is a list, never null. In the source, a request with null `Columns` makes `string.Join` throw `ArgumentNullException`, which the controller does not catch (a 500). That case is not modelled.
- A training record can vanish before its run only through a database cascade delete from its dataset version. No operation of this model deletes training records, so the `trainingResult == null` return in `RunTrainingProcess` is kept but never reached.
- Versions.VersionService.CreateVersion: the posted version always gets a fresh identity. An explicit non-zero `Id` in the request, which EF Core would try to insert as given, is not modelled.
- Training.OutputFileDistinct: shown only for tick counts with the same number of digits, which covers all ticks between the years 318 and 3170. The path always contains the tick count in decimal.
- DatasetManager.DatasetManagerComponent.UpdateCell: requires the addressed cell to exist. In JavaScript a missing row throws a TypeError. A column past the end grows the row with holes, and a negative one sets a property rather than a cell. These cases are not modelled.
- The component's asynchronous plumbing is recorded, not modelled:
  - requests are appended to `requests`, and `alert` text to `alerts`;
  - `loadDatasets`;
  - `createNew`, which asks through `prompt`;
  - `deleteDataset` and `deleteVersion`, which ask through `confirm`;
  - the `getDataset` response that replaces the selected dataset;
  - the error handlers of the subscriptions.
- The frontend HTTP wrappers (`dataset.service.ts` and the other services) are not part of this model.
  - `uploadVersion` in the component passes four arguments to a service method that declares five required ones, so the call does not type-check. Were it run, the service would throw at `useFirstRowAsHeader.toString()` (`dataset.service.ts:50`) before any request goes out, so the real component never sends an upload. The model records the service call being made (`SendUpload`), not a request on the wire.
- Dataset CRUD (`DatasetService.cs`, `DatasetController.cs`) and the cascade configuration of `AppDbContext.cs` are not part of this model.
- The remaining frontend pieces are not part of this model: `results-visualizer.ts` draws a fixed tree, and `training-dashboard.ts` simulates logs with timers.
- The `GetVersions` endpoint is not modelled separately: it always answers 200 with the listing, so the service's listing is what it returns.

/** The persisted entities of the backend (the `Models` namespace). */
module Models {
  import opened Wrappers

  /** `TrainingResult.Status`, a string in the source. */
  datatype Status = Pending | Running | Completed | Failed {
    predicate IsTerminal() {
      Completed? || Failed?
    }
  }

  /** One learning run of the external tool and what became of it.  Times are
      `DateTime` ticks. */
  datatype TrainingResult = TrainingResult(
    id: int,
    datasetVersionId: int,
    filePath: string,
    status: Status,
    createdAt: int,
    errorMessage: Option<string>)

  /** One version of a dataset: its data file and the columns and grid content
      shown for it. */
  datatype DatasetVersion = DatasetVersion(
    id: int,
    versionNumber: string,
    notes: string,
    filePath: string,
    columns: string,
    content: string,
    createdAt: int,
    datasetId: int)
}

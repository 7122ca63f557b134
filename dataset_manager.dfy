/**
 * `DatasetManagerComponent`: the page that selects a dataset, uploads a
 * version file or edits a grid by hand and saves it as a version.  Signals
 * and plain properties are fields; the backend calls the component starts
 * are recorded in `requests`, and `alert` adds to `alerts`.
 */
module DatasetManager {
  import opened Wrappers
  import opened Text
  import opened Grid

  datatype Dataset = Dataset(id: int, name: string, description: string)

  /** A version shown in the history view. */
  datatype VersionRef = VersionRef(id: int, versionNumber: string)

  /** A browser `File`. */
  datatype FileRef = FileRef(name: string, size: nat)

  datatype ViewMode = New | History

  /** The backend requests the component starts through `DatasetService`. */
  datatype Request =
    | FetchDataset(datasetId: int)
    | SendUpload(datasetId: int, versionNumber: string, notes: string, file: FileRef)
    | SendManualVersion(datasetId: int, versionNumber: string, notes: string, columns: seq<string>, content: string)

  const UploadIncomplete := "Bitte f\U{FC}lle alle Pflichtfelder aus und w\U{E4}hle eine Datei."
  const ManualIncomplete := "Bitte gib einen Datensatz und eine Versionsnummer an."
  const InitialColumns: seq<string> := ["State1", "State2", "Action"]

  /** Whether `uploadVersion` may send its request. */
  predicate UploadReady(dataset: Option<Dataset>, file: Option<FileRef>, versionNumber: string) {
    dataset.Some? && file.Some? && versionNumber != ""
  }

  /** Whether `saveManualVersion` may send its request. */
  predicate SaveReady(dataset: Option<Dataset>, versionNumber: string) {
    dataset.Some? && versionNumber != ""
  }

  class DatasetManagerComponent {
    var selectedDataset: Option<Dataset>
    var selectedVersion: Option<VersionRef>
    var viewMode: ViewMode
    var isSidebarCollapsed: bool
    var versionNumber: string
    var versionNotes: string
    var selectedFile: Option<FileRef>
    var isDragOver: bool
    var isManualMode: bool
    var manualColumns: seq<string>
    var manualGrid: seq<Row>
    var requests: seq<Request>
    var alerts: seq<string>

    /** The grid has one cell per column in every row. */
    ghost predicate Valid()
      reads this
    {
      Rectangular(manualGrid, |manualColumns|)
    }

    /** The initial state: one row of three zeros under three columns. */
    constructor ()
      ensures Valid()
      ensures manualColumns == InitialColumns && manualGrid == [["0", "0", "0"]]
      ensures |manualGrid| == 1 && |manualGrid[0]| == |manualColumns| == 3
      ensures selectedDataset == None && selectedVersion == None && selectedFile == None
      ensures viewMode == New && !isSidebarCollapsed && !isDragOver && !isManualMode
      ensures versionNumber == "" && versionNotes == "" && requests == [] && alerts == []
    {
      selectedDataset := None;
      selectedVersion := None;
      viewMode := New;
      isSidebarCollapsed := false;
      versionNumber := "";
      versionNotes := "";
      selectedFile := None;
      isDragOver := false;
      isManualMode := false;
      manualColumns := InitialColumns;
      manualGrid := [["0", "0", "0"]];
      requests := [];
      alerts := [];
    }

    /** `selectDataset`: the dataset becomes current, the shown version is
        cleared, the view returns to "new", and the dataset is re-fetched. */
    method SelectDataset(ds: Dataset)
      modifies this`selectedDataset, this`selectedVersion, this`viewMode, this`requests
      ensures selectedDataset == Some(ds) && selectedVersion == None && viewMode == New
      ensures requests == old(requests) + [FetchDataset(ds.id)]
    {
      selectedDataset := Some(ds);
      selectedVersion := None;
      viewMode := New;
      requests := requests + [FetchDataset(ds.id)];
    }

    /** `onFileSelected`: the first chosen file, if there is one, becomes the upload file. */
    method OnFileSelected(files: seq<FileRef>)
      modifies this`selectedFile
      ensures files == [] ==> selectedFile == old(selectedFile)
      ensures files != [] ==> selectedFile == Some(files[0])
    {
      if |files| > 0 {
        selectedFile := Some(files[0]);
      }
    }

    method ToggleSidebar()
      modifies this`isSidebarCollapsed
      ensures isSidebarCollapsed == !old(isSidebarCollapsed)
    {
      isSidebarCollapsed := !isSidebarCollapsed;
    }

    method SetViewMode(mode: ViewMode)
      modifies this`viewMode
      ensures viewMode == mode
    {
      viewMode := mode;
    }

    method OnDragOver()
      modifies this`isDragOver
      ensures isDragOver
    {
      isDragOver := true;
    }

    method OnDragLeave()
      modifies this`isDragOver
      ensures !isDragOver
    {
      isDragOver := false;
    }

    /** `onDrop`: the highlight goes off; the first dropped file, if any,
        becomes the upload file. */
    method OnDrop(files: Option<seq<FileRef>>)
      modifies this`isDragOver, this`selectedFile
      ensures !isDragOver
      ensures files.Some? && files.value != [] ==> selectedFile == Some(files.value[0])
      ensures !(files.Some? && files.value != []) ==> selectedFile == old(selectedFile)
    {
      isDragOver := false;
      if files.Some? && |files.value| > 0 {
        selectedFile := Some(files.value[0]);
      }
    }

    /** `uploadVersion`: with a dataset, a file and a version number it sends
        the upload; otherwise it only alerts. */
    method UploadVersion()
      modifies this`requests, this`alerts
      ensures UploadReady(selectedDataset, selectedFile, versionNumber) ==>
        && requests == old(requests) + [SendUpload(selectedDataset.value.id, versionNumber, versionNotes, selectedFile.value)]
        && alerts == old(alerts)
      ensures !UploadReady(selectedDataset, selectedFile, versionNumber) ==>
        requests == old(requests) && alerts == old(alerts) + [UploadIncomplete]
    {
      if selectedDataset.None? || selectedFile.None? || versionNumber == "" {
        alerts := alerts + [UploadIncomplete];
        return;
      }
      requests := requests + [SendUpload(selectedDataset.value.id, versionNumber, versionNotes, selectedFile.value)];
    }

    /** The success handler of the upload: the form is cleared and the
        dataset it was made for is selected again. */
    method UploadSucceeded(ds: Dataset, uploadedNumber: string)
      modifies this`alerts, this`versionNumber, this`versionNotes, this`selectedFile
      modifies this`selectedDataset, this`selectedVersion, this`viewMode, this`requests
      ensures alerts == old(alerts) + ["Version " + uploadedNumber + " erfolgreich hochgeladen."]
      ensures versionNumber == "" && versionNotes == "" && selectedFile == None
      ensures selectedDataset == Some(ds) && selectedVersion == None && viewMode == New
      ensures requests == old(requests) + [FetchDataset(ds.id)]
    {
      alerts := alerts + ["Version " + uploadedNumber + " erfolgreich hochgeladen."];
      versionNumber := "";
      versionNotes := "";
      selectedFile := None;
      SelectDataset(ds);
    }

    method ToggleManualMode()
      modifies this`isManualMode
      ensures isManualMode == !old(isManualMode)
    {
      isManualMode := !isManualMode;
    }

    /** `addColumn`: an empty name is ignored; otherwise the column is
        appended and every row gains a '0' cell. */
    method AddColumn(name: string)
      requires Valid()
      modifies this`manualColumns, this`manualGrid
      ensures Valid()
      ensures name == "" ==> manualColumns == old(manualColumns) && manualGrid == old(manualGrid)
      ensures name != "" ==> manualColumns == old(manualColumns) + [name] && manualGrid == AppendCell(old(manualGrid), "0")
    {
      if name == "" {
        return;
      }
      manualColumns := manualColumns + [name];
      manualGrid := AppendCell(manualGrid, "0");
    }

    /** `removeColumn`: position `index` leaves the column list and every row. */
    method RemoveColumn(index: int)
      requires Valid()
      modifies this`manualColumns, this`manualGrid
      ensures Valid()
      ensures manualColumns == RemoveAt(old(manualColumns), index)
      ensures manualGrid == RemoveCell(old(manualGrid), index)
      ensures |manualGrid| == |old(manualGrid)|
    {
      manualColumns := RemoveAt(manualColumns, index);
      manualGrid := RemoveCell(manualGrid, index);
    }

    /** `addRow`: a row of '0' cells, one per column, at the end. */
    method AddRow()
      requires Valid()
      modifies this`manualGrid
      ensures Valid()
      ensures manualGrid == old(manualGrid) + [Zeros(|manualColumns|)]
    {
      var cols := |manualColumns|;
      manualGrid := manualGrid + [Zeros(cols)];
    }

    /** `deleteRow`: row `index` goes, the others keep their order. */
    method DeleteRow(index: int)
      requires Valid()
      modifies this`manualGrid
      ensures Valid()
      ensures manualGrid == RemoveAt(old(manualGrid), index)
    {
      manualGrid := RemoveAt(manualGrid, index);
    }

    /** `updateCell` for a cell that exists: that cell takes the value. */
    method UpdateCell(rowIndex: nat, colIndex: nat, value: string)
      requires Valid()
      requires rowIndex < |manualGrid| && colIndex < |manualColumns|
      modifies this`manualGrid
      ensures Valid()
      ensures manualGrid == SetCell(old(manualGrid), rowIndex, colIndex, value)
    {
      var grid := manualGrid;
      var row := grid[rowIndex];
      row := row[colIndex := value];
      grid := grid[rowIndex := row];
      manualGrid := grid;
    }

    /** `saveManualVersion`: with a dataset and a version number it sends the
        columns and the serialised grid; otherwise it only alerts. */
    method SaveManualVersion()
      modifies this`requests, this`alerts
      ensures SaveReady(selectedDataset, versionNumber) ==>
        && requests == old(requests) + [SendManualVersion(selectedDataset.value.id, versionNumber, versionNotes,
                                                            manualColumns, Serialize(manualGrid))]
        && alerts == old(alerts)
      ensures !SaveReady(selectedDataset, versionNumber) ==>
        requests == old(requests) && alerts == old(alerts) + [ManualIncomplete]
    {
      if selectedDataset.None? || versionNumber == "" {
        alerts := alerts + [ManualIncomplete];
        return;
      }
      var content := Join("\n", RowTexts(manualGrid));
      requests := requests + [SendManualVersion(selectedDataset.value.id, versionNumber, versionNotes,
                                                  manualColumns, content)];
    }

    /** The success handler of the save: the form is cleared, manual mode
        ends and the dataset is selected again. */
    method ManualVersionSaved(ds: Dataset, savedNumber: string)
      modifies this`alerts, this`versionNumber, this`versionNotes, this`isManualMode
      modifies this`selectedDataset, this`selectedVersion, this`viewMode, this`requests
      ensures alerts == old(alerts) + ["Manuelle Version " + savedNumber + " erstellt."]
      ensures versionNumber == "" && versionNotes == "" && !isManualMode
      ensures selectedDataset == Some(ds) && selectedVersion == None && viewMode == New
      ensures requests == old(requests) + [FetchDataset(ds.id)]
    {
      alerts := alerts + ["Manuelle Version " + savedNumber + " erstellt."];
      versionNumber := "";
      versionNotes := "";
      isManualMode := false;
      SelectDataset(ds);
    }
  }
}

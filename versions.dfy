/**
 * `VersionService`: the `DatasetVersions` table and the files under
 * `Uploads`.  A version's `Columns` is a comma-separated header and its
 * `Content` the grid text shown for it; an upload derives both from the raw
 * text of the file.
 */
module Versions {
  import opened Wrappers
  import opened Text
  import opened Paths
  import opened Models
  import Query

  const SourceNotFound := "Source version not found"

  /** Where every version's data file is written: `<cwd>/Uploads/<name>`. */
  function UploadFile(currentDirectory: string, name: string): string {
    Combine(Combine(currentDirectory, "Uploads"), name)
  }

  /** `rawContent.Trim().Split('\n')`: never empty. */
  function Lines(raw: string): (r: seq<string>)
    ensures |r| >= 1
  {
    Split(Trim(raw), '\n')
  }

  /** The column names of a header line: the trimmed line with tabs read as
      spaces, split on spaces, empty entries dropped. */
  function HeaderTokens(line: string): (r: seq<string>)
    ensures forall k :: 0 <= k < |r| ==> r[k] != "" && ' ' !in r[k] && '\t' !in r[k]
  {
    var spaced := ReplaceChar(Trim(line), '\t', ' ');
    assert '\t' !in spaced;
    SplitAvoids(spaced, ' ', '\t');
    NonEmpty(Split(spaced, ' '))
  }

  /** Glued back together, the column names are exactly the trimmed header
      without its spaces and tabs: no character is lost, none invented, and
      their order is kept. */
  lemma HeaderTokensConcat(line: string)
    ensures Join("", HeaderTokens(line)) == RemoveChar(RemoveChar(Trim(line), '\t'), ' ')
  {
    var spaced := ReplaceChar(Trim(line), '\t', ' ');
    ConcatNonEmpty(Split(spaced, ' '));
    ConcatSplit(spaced, ' ');
    RemoveReplaced(Trim(line), '\t', ' ');
  }

  /** Where the column names begin and end: they are exactly the maximal runs
      of non-space characters of the trimmed header with tabs read as spaces,
      in order. */
  lemma HeaderTokensWords(line: string)
    ensures HeaderTokens(line) == Words(ReplaceChar(Trim(line), '\t', ' '), ' ')
  {
    NonEmptySplitWords(ReplaceChar(Trim(line), '\t', ' '), ' ');
  }

  /** What an upload stores as `Columns` and `Content`. */
  datatype Derived = Derived(columns: string, content: string)

  /** The derivation of `UploadVersionAsync`.  In header mode the first line
      of the trimmed text names the columns and the rest is the content; the
      header guard `lines.Count > 0` always holds, since a split yields at
      least one piece.  Otherwise the raw text is the content and the columns
      are the ones given, or none. */
  function DeriveUpload(raw: string, useHeader: bool, manualColumns: Option<string>): (r: Derived)
    ensures !useHeader ==> r.content == raw && r.columns == manualColumns.GetOr("")
    ensures useHeader ==> r.columns == Join(",", HeaderTokens(Lines(raw)[0]))
  {
    if useHeader then
      var lines := Lines(raw);
      Derived(Join(",", HeaderTokens(lines[0])), Join("\n", lines[1..]))
    else
      Derived(manualColumns.GetOr(""), raw)
  }

  /** In header mode the trimmed text is the header line, then, unless the
      content is empty, a line break and the content: the header is dropped
      from the content and nothing else is. */
  lemma HeaderLayout(raw: string, manualColumns: Option<string>)
    ensures var header := Lines(raw)[0];
      && '\n' !in header
      && Trim(raw) == (if DeriveUpload(raw, true, manualColumns).content == "" then header
                       else header + "\n" + DeriveUpload(raw, true, manualColumns).content)
  {
    var lines := Lines(raw);
    var content := Join("\n", lines[1..]);
    var t := Trim(raw);
    JoinSplit(t, '\n');
    assert |lines| >= 2 ==> t == lines[0] + "\n" + content;
    assert |lines| >= 2 ==> t[|lines[0]|] == '\n';
  }

  /** An empty or white-space file yields no columns and no content. */
  lemma BlankUpload(raw: string, manualColumns: Option<string>)
    requires IsBlank(raw)
    ensures DeriveUpload(raw, true, manualColumns) == Derived("", "")
  {
    TrimAllWhiteSpace(raw);
    TrimAllWhiteSpace("");
    assert Lines(raw) == [""];
    assert ReplaceChar(Trim(""), '\t', ' ') == "";
    assert HeaderTokens("") == [];
  }

  /** With a comma-free header that names at least one column, splitting the
      stored `Columns` on ',' gives back the column names. */
  lemma ColumnsRoundTrip(raw: string, manualColumns: Option<string>)
    requires ',' !in Lines(raw)[0]
    requires HeaderTokens(Lines(raw)[0]) != []
    ensures Split(DeriveUpload(raw, true, manualColumns).columns, ',') == HeaderTokens(Lines(raw)[0])
  {
    var header := Lines(raw)[0];
    var spaced := ReplaceChar(Trim(header), '\t', ' ');
    TrimIn(header);
    assert ',' !in spaced;
    SplitAvoids(spaced, ' ', ',');
    SplitJoin(HeaderTokens(header), ',');
  }

  /** The reading block of `UploadVersionAsync`: the trimmed lines, then in
      header mode the header's columns and the remaining lines as content. */
  method ReadUpload(raw: string, useHeader: bool, manualColumns: Option<string>) returns (derived: Derived)
    ensures derived == DeriveUpload(raw, useHeader, manualColumns)
  {
    var lines := Lines(raw);
    var savedContent := raw;
    var columnsStr := "";
    if useHeader {
      if |lines| > 0 {
        var headerLine := lines[0];
        columnsStr := Join(",", HeaderTokens(headerLine));
        lines := lines[1..];
        savedContent := Join("\n", lines);
      }
    } else {
      columnsStr := manualColumns.GetOr("");
    }
    derived := Derived(columnsStr, savedContent);
  }

  function CreatedAt(v: DatasetVersion): int {
    v.createdAt
  }

  /** The `DatasetVersions` table and the files the service writes. */
  class VersionService {
    var versions: map<int, DatasetVersion>
    /** The identity the database assigns to the next inserted version. */
    var nextId: int
    var disk: Disk

    ghost predicate Valid()
      reads this
    {
      && nextId >= 1
      && (forall k :: k in versions ==> 1 <= k < nextId && versions[k].id == k)
    }

    constructor (files: Disk)
      ensures Valid()
      ensures versions == map[] && disk == files
    {
      versions := map[];
      nextId := 1;
      disk := files;
    }

    /** `GetVersionsByDatasetIdAsync`: exactly the versions of that dataset, newest first. */
    method GetVersionsByDatasetId(datasetId: int) returns (vs: seq<DatasetVersion>)
      requires Valid()
      ensures Query.NewestFirst(vs, CreatedAt)
      ensures forall v :: v in vs ==> v in versions.Values && v.datasetId == datasetId
      ensures forall k :: k in versions && versions[k].datasetId == datasetId ==> versions[k] in vs
      ensures |vs| == |set k | k in versions && versions[k].datasetId == datasetId|
    {
      var ofDataset := (v: DatasetVersion) => v.datasetId == datasetId;
      vs := Query.SelectNewestFirst(versions, nextId, ofDataset, CreatedAt);
      assert Query.Matching(versions, ofDataset) == set k | k in versions && versions[k].datasetId == datasetId;
    }

    /** `GetVersionByIdAsync`: the version with that key, if any. */
    function GetVersionById(id: int): (r: Option<DatasetVersion>)
      reads this
      ensures r.Some? <==> id in versions
      ensures r.Some? ==> r.value == versions[id]
    {
      if id in versions then Some(versions[id]) else None
    }

    /** `Add` then `SaveChangesAsync`: the row gets the next identity. */
    method Insert(version: DatasetVersion) returns (created: DatasetVersion)
      requires Valid()
      modifies this`versions, this`nextId
      ensures Valid()
      ensures created == version.(id := old(nextId))
      ensures old(nextId) !in old(versions)
      ensures versions == old(versions)[created.id := created] && nextId == old(nextId) + 1
    {
      created := version.(id := nextId);
      versions := versions[nextId := created];
      nextId := nextId + 1;
    }

    /** `CreateVersionAsync`: stores the version as given, under a new identity. */
    method CreateVersion(version: DatasetVersion) returns (created: DatasetVersion)
      requires Valid()
      modifies this`versions, this`nextId
      ensures Valid()
      ensures created == version.(id := old(nextId))
      ensures old(nextId) !in old(versions)
      ensures versions == old(versions)[created.id := created] && nextId == old(nextId) + 1
      ensures disk == old(disk)
    {
      created := Insert(version);
    }

    /** `CreateManualVersionAsync`: writes the grid text to a fresh
        `<guid>_manual.txt` and stores it with the columns joined by ','. */
    method CreateManualVersion(datasetId: int, versionNumber: string, notes: string, columns: seq<string>,
                               content: string, currentDirectory: string, guid: string, now: int)
      returns (created: DatasetVersion)
      requires Valid()
      modifies this`versions, this`nextId, this`disk
      ensures Valid()
      ensures created == DatasetVersion(old(nextId), versionNumber, notes,
                                        UploadFile(currentDirectory, guid + "_manual.txt"),
                                        Join(",", columns), content, now, datasetId)
      ensures old(nextId) !in old(versions)
      ensures versions == old(versions)[created.id := created] && nextId == old(nextId) + 1
      ensures disk == old(disk)[created.filePath := content]
    {
      var filePath := UploadFile(currentDirectory, guid + "_manual.txt");
      disk := disk[filePath := content];
      created := Insert(DatasetVersion(0, versionNumber, notes, filePath, Join(",", columns), content, now, datasetId));
    }

    /** `CopyVersionAsync`: an unknown source throws before anything is
        written; otherwise a fresh `<guid>_copy.txt` receives the source's
        content, and the new version takes the source's columns and content. */
    method CopyVersion(datasetId: int, versionNumber: string, notes: string, sourceVersionId: int,
                       currentDirectory: string, guid: string, now: int)
      returns (r: Result<DatasetVersion, Fault>)
      requires Valid()
      modifies this`versions, this`nextId, this`disk
      ensures Valid()
      ensures r.Failure? <==> sourceVersionId !in old(versions)
      ensures r.Failure? ==>
        && r.error == Argument(SourceNotFound)
        && versions == old(versions) && nextId == old(nextId) && disk == old(disk)
      ensures r.Success? ==>
        var source := old(versions)[sourceVersionId];
        && r.value == DatasetVersion(old(nextId), versionNumber, notes,
                                   UploadFile(currentDirectory, guid + "_copy.txt"),
                                   source.columns, source.content, now, datasetId)
        && old(nextId) !in old(versions)
        && versions == old(versions)[r.value.id := r.value] && nextId == old(nextId) + 1
        && disk == old(disk)[r.value.filePath := source.content]
    {
      if sourceVersionId !in versions {
        return Failure(Argument(SourceNotFound));
      }
      var sourceVersion := versions[sourceVersionId];
      var filePath := UploadFile(currentDirectory, guid + "_copy.txt");
      disk := disk[filePath := sourceVersion.content];
      var created := Insert(DatasetVersion(0, versionNumber, notes, filePath,
                                           sourceVersion.columns, sourceVersion.content, now, datasetId));
      return Success(created);
    }

    /** `UploadVersionAsync`: the file `<guid>_<fileName>` receives the raw
        text whatever the header mode; the stored columns and content are
        the derived ones. */
    method UploadVersion(datasetId: int, versionNumber: string, notes: string, fileName: string,
                         raw: string, useHeader: bool, manualColumns: Option<string>,
                         currentDirectory: string, guid: string, now: int)
      returns (created: DatasetVersion)
      requires Valid()
      modifies this`versions, this`nextId, this`disk
      ensures Valid()
      ensures Derived(created.columns, created.content) == DeriveUpload(raw, useHeader, manualColumns)
      ensures created == DatasetVersion(old(nextId), versionNumber, notes,
                                        UploadFile(currentDirectory, guid + "_" + fileName),
                                        created.columns, created.content, now, datasetId)
      ensures old(nextId) !in old(versions)
      ensures versions == old(versions)[created.id := created] && nextId == old(nextId) + 1
      ensures disk == old(disk)[created.filePath := raw]
    {
      var filePath := UploadFile(currentDirectory, guid + "_" + fileName);
      var derived := ReadUpload(raw, useHeader, manualColumns);
      disk := disk[filePath := raw];
      created := Insert(DatasetVersion(0, versionNumber, notes, filePath, derived.columns, derived.content, now, datasetId));
    }

    /** `DeleteVersionAsync`: false and no change for an unknown id; otherwise
        the version's file, when it exists, and the version are removed. */
    method DeleteVersion(id: int) returns (deleted: bool)
      requires Valid()
      modifies this`versions, this`disk
      ensures Valid()
      ensures deleted <==> id in old(versions)
      ensures !deleted ==> versions == old(versions) && disk == old(disk)
      ensures deleted ==>
        && versions == old(versions) - {id}
        && disk == (if FileExists(old(disk), old(versions)[id].filePath)
                    then old(disk) - {old(versions)[id].filePath} else old(disk))
    {
      if id !in versions {
        return false;
      }
      var version := versions[id];
      if FileExists(disk, version.filePath) {
        disk := disk - {version.filePath};
      }
      versions := versions - {id};
      return true;
    }
  }
}

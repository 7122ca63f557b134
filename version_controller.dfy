/**
 * `VersionController`: the upload form's validation, and the status codes of
 * the read, create and delete endpoints.
 */
module VersionController {
  import opened Wrappers
  import opened Paths
  import opened Models
  import Versions

  /** The uploaded `IFormFile`: its name and its length in bytes. */
  datatype FormFile = FormFile(fileName: string, length: nat)

  datatype Body = Text(text: string) | Version(version: DatasetVersion) | Empty

  const FileEmpty := "File is empty"
  const WrongExtension := "Only .txt and .dat files are allowed"

  /** The service call an accepted upload makes: the form fields, the file's
      own name, the default header mode and no manual columns. */
  datatype UploadCall = UploadCall(datasetId: int, versionNumber: string, notes: string, fileName: string,
                                   useFirstRowAsHeader: bool, manualColumns: Option<string>)

  /** `Path.GetExtension(name).ToLower()` is ".txt" or ".dat". */
  predicate AcceptedExtension(fileName: string) {
    AsciiLower(Extension(fileName)) in {".txt", ".dat"}
  }

  /** The early returns of `UploadVersion`; an accepted form becomes the call
      to the service. */
  function CheckUpload(datasetId: int, versionNumber: string, notes: string, file: Option<FormFile>)
    : (r: Result<UploadCall, Reply<Body>>)
    ensures (file.None? || file.value.length == 0) ==> r == Failure(Reply(400, Text(FileEmpty)))
    ensures file.Some? && file.value.length > 0 && !AcceptedExtension(file.value.fileName)
            ==> r == Failure(Reply(400, Text(WrongExtension)))
    ensures r.Success? <==> file.Some? && file.value.length > 0 && AcceptedExtension(file.value.fileName)
    ensures r.Success? ==> r.value == UploadCall(datasetId, versionNumber, notes, file.value.fileName, true, None)
    ensures r.Failure? ==> r.error.status == 400
  {
    if file.None? || file.value.length == 0 then
      Failure(Reply(400, Text(FileEmpty)))
    else
      var extension := AsciiLower(Extension(file.value.fileName));
      if extension != ".txt" && extension != ".dat" then
        Failure(Reply(400, Text(WrongExtension)))
      else
        Success(UploadCall(datasetId, versionNumber, notes, file.value.fileName, true, None))
  }

  /** Lower-casing gives 't', 'x', 'd' or 'a' only from that letter or its capital. */
  lemma LowerLetter(c: char, l: char)
    requires l in "txda"
    requires (if 'A' <= c <= 'Z' then (c as int + 32) as char else c) == l
    ensures c != '.' && c != '/'
  {
  }

  /** The whitelist in terms of the name alone: a name is accepted exactly
      when it ends with ".txt" or ".dat" in any mix of cases. */
  lemma AcceptedExtensionIff(fileName: string)
    ensures AcceptedExtension(fileName)
        <==> |fileName| >= 4 && AsciiLower(fileName[|fileName| - 4..]) in {".txt", ".dat"}
  {
    if |fileName| >= 4 && AsciiLower(fileName[|fileName| - 4..]) in {".txt", ".dat"} {
      var n := |fileName|;
      var tail := fileName[n - 4..];
      var lowered := AsciiLower(tail);
      assert fileName[n - 4] == tail[0];
      assert tail[0] == '.' by {
        assert lowered[0] == '.';
      }
      var suffix := fileName[n - 3..];
      forall k | 0 <= k < |suffix|
        ensures suffix[k] != '.' && suffix[k] != '/'
      {
        assert suffix[k] == tail[k + 1];
        LowerLetter(tail[k + 1], lowered[k + 1]);
      }
      ExtensionOfSuffix(fileName, suffix, n);
      assert Extension(fileName) == tail;
    }
  }

  /** `CreatedAtAction`: 201 with the stored version. */
  function Created(version: DatasetVersion): (reply: Reply<Body>)
    ensures reply.status == 201 && reply.body == Version(version)
  {
    Reply(201, Version(version))
  }

  /** `GetVersion`: 404 when there is no such version, otherwise 200 with it. */
  function GetVersion(found: Option<DatasetVersion>): (reply: Reply<Body>)
    ensures reply.status == 404 <==> found.None?
    ensures found.Some? ==> reply == Reply(200, Version(found.value))
  {
    match found
    case None => Reply(404, Empty)
    case Some(v) => Reply(200, Version(v))
  }

  /** `DeleteVersion`: 404 when the service found nothing to delete, otherwise 204. */
  function DeleteVersion(deleted: bool): (reply: Reply<Body>)
    ensures reply.status == 404 <==> !deleted
    ensures deleted ==> reply.status == 204
    ensures reply.body == Empty
  {
    if !deleted then Reply(404, Empty) else Reply(204, Empty)
  }

  /** `GetVersion` over the service: 200 exactly for a stored version. */
  lemma GetVersionStatus(service: Versions.VersionService, id: int)
    ensures GetVersion(service.GetVersionById(id)).status == 200 <==> id in service.versions
    ensures id in service.versions ==> GetVersion(service.GetVersionById(id)).body == Version(service.versions[id])
  {
  }
}

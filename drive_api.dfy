/** The part of the Google Drive v3 client that the drive package uses, as
    values: the file records it reads, the replies it receives and the calls
    it issues. The service itself is not modelled; each wrapper receives the
    replies the service would give as parameters and returns the trace of
    calls it made. */
module DriveApi {
  import opened Base

  /** A `drive.File` as listed or fetched: id, name and MIME type. */
  datatype DriveFile = DriveFile(id: Bytes, name: Bytes, mimeType: Bytes)

  /** The metadata a `Files.Create` request carries. */
  datatype NewFile = NewFile(name: Bytes, mimeType: Bytes, parents: seq<Bytes>)

  /** The reply to one `Files.List` request: a page of files and the token of
      the next page (empty on the last page), or an error. */
  datatype PageReply =
    | Page(files: seq<DriveFile>, nextPageToken: Bytes)
    | PageFailed(error: Error)

  /** A request sent to the Drive service. `addParents`/`removeParents` are
      empty when the request does not set them; `media` is the uploaded content. */
  datatype Call =
    | FilesList(q: Bytes, pageToken: Bytes, pageSize: nat)
    | FilesGet(fileId: Bytes)
    | FilesUpdate(fileId: Bytes, meta: DriveFile, addParents: Bytes, removeParents: Bytes, media: Option<Bytes>)
    | FilesCreate(created: NewFile, media: Option<Bytes>)
    | FilesExport(fileId: Bytes, mimeType: Bytes)
    | FilesDownload(fileId: Bytes)

  datatype Option<+T> = None | Some(value: T)

  /** What a wrapper returns, together with the calls it issued, in order. */
  datatype Traced<+T> = Traced(calls: seq<Call>, result: T)

  /** The call reads or changes an existing file, named by `fileId`. */
  predicate UsesFile(c: Call)
  {
    c.FilesUpdate? || c.FilesExport? || c.FilesDownload?
  }

  /** Get-before-use: every update, export or download of a file comes after
      a metadata `Files.Get` of that same file. */
  predicate GetFirst(calls: seq<Call>)
  {
    forall i | 0 <= i < |calls| && UsesFile(calls[i]) ::
      exists j | 0 <= j < i :: calls[j] == FilesGet(calls[i].fileId)
  }

  /** A `Files.Get` followed by one call on the same file is get-before-use. */
  lemma GetThenUse(fileId: Bytes, c: Call)
    requires UsesFile(c) ==> c.fileId == fileId
    ensures GetFirst([FilesGet(fileId), c])
  {
    var calls := [FilesGet(fileId), c];
    if UsesFile(c) {
      assert calls[0] == FilesGet(calls[1].fileId);
    }
  }
}

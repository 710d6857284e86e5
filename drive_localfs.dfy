/** drive/localfs.go: MIME classification and the content paths (read,
    replace, create with content). */
module DriveLocalFs {
  import opened Base
  import opened DriveApi

  const FolderMime: Bytes := Ascii("application/vnd.google-apps.folder")
  const DocumentMime: Bytes := Ascii("application/vnd.google-apps.document")
  const PresentationMime: Bytes := Ascii("application/vnd.google-apps.presentation")
  const SpreadsheetMime: Bytes := Ascii("application/vnd.google-apps.spreadsheet")
  /** The format Google-native documents are exported to when read. */
  const PdfMime: Bytes := Ascii("application/pdf")

  /** The bytes every Google-native MIME type starts with. */
  const GoogleAppsPrefix: Bytes := Ascii("application/vnd.google-apps.")

  /** A Drive folder: exactly the folder MIME type, compared byte for byte. */
  function IsMimeDir(mime: Bytes): (r: bool)
    ensures r <==> mime == Ascii("application/vnd.google-apps.folder")
    ensures r ==> |mime| > |GoogleAppsPrefix| && mime[..|GoogleAppsPrefix|] == GoogleAppsPrefix
  {
    mime == FolderMime
  }

  /** A Google-native document, which has no stored bytes and must be
      exported: exactly one of the document, presentation and spreadsheet
      MIME types. */
  function IsMimeGoogleDoc(mime: Bytes): (r: bool)
    ensures r <==> mime in {Ascii("application/vnd.google-apps.document"),
                            Ascii("application/vnd.google-apps.presentation"),
                            Ascii("application/vnd.google-apps.spreadsheet")}
    ensures r ==> |mime| > |GoogleAppsPrefix| && mime[..|GoogleAppsPrefix|] == GoogleAppsPrefix
  {
    mime == DocumentMime || mime == PresentationMime || mime == SpreadsheetMime
  }

  /** No MIME type is both a folder and a Google-native document, so the
      order of the two tests in `OpenReader` never hides a case. */
  lemma MimeClassesDisjoint(mime: Bytes)
    ensures !(IsMimeDir(mime) && IsMimeGoogleDoc(mime))
  {
    if IsMimeDir(mime) {
      assert mime[28] == 'f' as bv8;
      assert DocumentMime[28] == 'd' as bv8;
      assert PresentationMime[28] == 'p' as bv8;
      assert SpreadsheetMime[28] == 's' as bv8;
    }
  }

  /** `UpdateFile`: fetch the file's metadata, then replace its content with
      `content`; a failed fetch returns its error before any upload. */
  function UpdateFile(fileId: Bytes, content: Bytes, getReply: Result<DriveFile>, updateReply: Result<DriveFile>): (t: Traced<Result<DriveFile>>)
    ensures GetFirst(t.calls)
    ensures |t.calls| >= 1 && t.calls[0] == FilesGet(fileId)
    ensures getReply.Err? ==> t.calls == [FilesGet(fileId)] && t.result == Err(getReply.error)
    ensures getReply.Ok? ==>
      t.calls == [FilesGet(fileId), FilesUpdate(fileId, getReply.value, [], [], Some(content))] && t.result == updateReply
  {
    match getReply
    case Err(e) => Traced([FilesGet(fileId)], Err(e))
    case Ok(file) =>
      GetThenUse(fileId, FilesUpdate(fileId, file, [], [], Some(content)));
      Traced([FilesGet(fileId), FilesUpdate(fileId, file, [], [], Some(content))], updateReply)
  }

  /** `WriteToDir`: create a file named `filename` under `parentDirId` with
      `content`, in one call; the new file carries no MIME type, so it is never
      taken for a folder. */
  function WriteToDir(filename: Bytes, content: Bytes, parentDirId: Bytes, createReply: Result<DriveFile>): (t: Traced<Result<DriveFile>>)
    ensures |t.calls| == 1 && t.calls[0].FilesCreate?
    ensures t.calls[0].created.name == filename && t.calls[0].created.parents == [parentDirId]
    ensures !IsMimeDir(t.calls[0].created.mimeType)
    ensures t.calls[0].media == Some(content)
    ensures t.result == createReply
  {
    Traced([FilesCreate(NewFile(filename, [], [parentDirId]), Some(content))], createReply)
  }

  /** `OpenReader`: fetch the metadata; a folder has no content; a
      Google-native document is exported as PDF; anything else is downloaded
      as stored. The stream is modelled by the bytes it yields. */
  function OpenReader(fileId: Bytes, getReply: Result<DriveFile>, exportReply: Result<Bytes>, downloadReply: Result<Bytes>): (t: Traced<Result<Bytes>>)
    ensures GetFirst(t.calls)
    ensures |t.calls| >= 1 && t.calls[0] == FilesGet(fileId)
    ensures getReply.Err? ==> t.calls == [FilesGet(fileId)] && t.result == Err(getReply.error)
    ensures getReply.Ok? && IsMimeDir(getReply.value.mimeType) ==>
      t.calls == [FilesGet(fileId)] && t.result == Err(ErrReadDir)
    ensures getReply.Ok? && IsMimeGoogleDoc(getReply.value.mimeType) ==>
      t.calls == [FilesGet(fileId), FilesExport(fileId, PdfMime)] && t.result == exportReply
    ensures getReply.Ok? && !IsMimeDir(getReply.value.mimeType) && !IsMimeGoogleDoc(getReply.value.mimeType) ==>
      t.calls == [FilesGet(fileId), FilesDownload(fileId)] && t.result == downloadReply
  {
    match getReply
    case Err(e) => Traced([FilesGet(fileId)], Err(e))
    case Ok(file) =>
      if IsMimeDir(file.mimeType) then
        Traced([FilesGet(fileId)], Err(ErrReadDir))
      else if IsMimeGoogleDoc(file.mimeType) then
        MimeClassesDisjoint(file.mimeType);
        GetThenUse(fileId, FilesExport(fileId, PdfMime));
        Traced([FilesGet(fileId), FilesExport(fileId, PdfMime)], exportReply)
      else
        GetThenUse(fileId, FilesDownload(fileId));
        Traced([FilesGet(fileId), FilesDownload(fileId)], downloadReply)
  }

  /** A read yields content only for a file that is not a folder, and then
      through exactly one content call: an export exactly when the file is a
      Google-native document. */
  lemma OpenReaderContentCall(fileId: Bytes, getReply: Result<DriveFile>, exportReply: Result<Bytes>, downloadReply: Result<Bytes>)
    ensures var t := OpenReader(fileId, getReply, exportReply, downloadReply);
      (|t.calls| == 2 <==> getReply.Ok? && !IsMimeDir(getReply.value.mimeType)) &&
      (|t.calls| == 2 ==> (t.calls[1].FilesExport? <==> IsMimeGoogleDoc(getReply.value.mimeType))) &&
      (t.result.Ok? ==> |t.calls| == 2)
  {
  }
}

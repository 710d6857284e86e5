/** drive/dir.go: the paginated child listing and the metadata calls that
    create, move, link and rename files. */
module DriveDir {
  import opened Base
  import opened DriveApi
  import opened DriveLocalFs

  /** Every listing request asks for pages of at most 20 files. */
  const PageSize: nat := 20

  /** The listing filter: the directory id between single quotes, followed by
      ` in parents`. The id is inserted as is, without escaping. */
  function ListQuery(fileId: Bytes): (q: Bytes)
  {
    Ascii("'") + fileId + Ascii("' in parents")
  }

  /** The id sits unescaped between the quotes, at a fixed position, so it
      can be read back from the filter. */
  lemma ListQueryRecoversId(fileId: Bytes)
    ensures var q := ListQuery(fileId);
      |q| == |fileId| + 13 && q[1..|q| - 12] == fileId
  {
    var q := ListQuery(fileId);
    assert q == Ascii("'") + (fileId + Ascii("' in parents"));
    assert q[1..] == fileId + Ascii("' in parents");
    assert q[1..|q| - 12] == q[1..][..|fileId|];
  }

  /** A reply after which the loop asks for no further page. */
  predicate EndsPaging(r: PageReply)
  {
    r.PageFailed? || |r.nextPageToken| == 0
  }

  /** The service ends the listing within the replies given. */
  predicate Paginates(replies: seq<PageReply>)
  {
    exists k | 0 <= k < |replies| :: EndsPaging(replies[k])
  }

  /** The index of the first reply that ends the listing. */
  function FirstStop(replies: seq<PageReply>): (k: nat)
    requires Paginates(replies)
    ensures k < |replies| && EndsPaging(replies[k])
    ensures forall j | 0 <= j < k :: !EndsPaging(replies[j])
    decreases |replies|
  {
    if EndsPaging(replies[0]) then 0
    else
      assert Paginates(replies[1..]) by {
        var k :| 0 <= k < |replies| && EndsPaging(replies[k]);
        assert k > 0 && EndsPaging(replies[1..][k - 1]);
      }
      1 + FirstStop(replies[1..])
  }

  /** The token sent with request `i`: empty for the first request, the
      previous reply's `nextPageToken` after that. */
  function PageTokenFor(replies: seq<PageReply>, i: nat): Bytes
    requires i <= |replies|
  {
    if i == 0 || replies[i - 1].PageFailed? then [] else replies[i - 1].nextPageToken
  }

  /** The requests `List` sends: one per reply up to and including the first
      one that ends the listing, each carrying the token of the page before. */
  function ListCalls(fileId: Bytes, replies: seq<PageReply>): (calls: seq<Call>)
    requires Paginates(replies)
    ensures |calls| == FirstStop(replies) + 1
    ensures forall i | 0 <= i < |calls| ::
      calls[i].FilesList? && calls[i].q == ListQuery(fileId) && calls[i].pageSize == PageSize
    ensures calls[0].pageToken == []
    ensures forall i | 0 < i < |calls| ::
      replies[i - 1].Page? && |replies[i - 1].nextPageToken| > 0 && calls[i].pageToken == replies[i - 1].nextPageToken
  {
    seq(FirstStop(replies) + 1, i requires 0 <= i <= FirstStop(replies) =>
      FilesList(ListQuery(fileId), PageTokenFor(replies, i), PageSize))
  }

  /** The files of all pages among `pages`, page after page, in order. */
  function ConcatFiles(pages: seq<PageReply>): (files: seq<DriveFile>)
    decreases |pages|
  {
    if pages == [] then []
    else ConcatFiles(pages[..|pages| - 1]) + (if pages[|pages| - 1].Page? then pages[|pages| - 1].files else [])
  }

  /** The result of a listing: the error of the reply that failed, or every
      file of every page received. */
  function ListResult(replies: seq<PageReply>): (r: Result<seq<DriveFile>>)
    requires Paginates(replies)
    ensures r.Err? <==> replies[FirstStop(replies)].PageFailed?
    ensures r.Err? ==> r.error == replies[FirstStop(replies)].error
    ensures r.Ok? ==> r.value == ConcatFiles(replies[..FirstStop(replies) + 1])
  {
    var k := FirstStop(replies);
    if replies[k].PageFailed? then Err(replies[k].error) else Ok(ConcatFiles(replies[..k + 1]))
  }

  /** A file is in a listing exactly when some page received carries it. */
  lemma {:induction false} ConcatFilesMember(pages: seq<PageReply>, f: DriveFile)
    ensures f in ConcatFiles(pages) <==> exists j | 0 <= j < |pages| :: pages[j].Page? && f in pages[j].files
    decreases |pages|
  {
    if pages != [] {
      var init := pages[..|pages| - 1];
      ConcatFilesMember(init, f);
      if f in ConcatFiles(init) {
        var j :| 0 <= j < |init| && init[j].Page? && f in init[j].files;
        assert pages[j] == init[j];
      }
      if exists j | 0 <= j < |pages| :: pages[j].Page? && f in pages[j].files {
        var j :| 0 <= j < |pages| && pages[j].Page? && f in pages[j].files;
        if j < |init| {
          assert init[j] == pages[j];
        }
      }
    }
  }

  /** `List`: request pages of the children of `fileId` until a reply carries
      an empty `nextPageToken`, feeding each reply's token into the next
      request and appending each page's files. `replies[i]` is the service's
      answer to the `i`-th request. A failed request makes the whole listing
      fail, with no partial result. */
  method List(fileId: Bytes, replies: seq<PageReply>) returns (r: Result<seq<DriveFile>>, calls: seq<Call>)
    requires Paginates(replies)
    ensures calls == ListCalls(fileId, replies)
    ensures r == ListResult(replies)
  {
    ghost var k := FirstStop(replies);
    var pageToken: Bytes := [];
    var files: seq<DriveFile> := [];
    var i := 0;
    calls := [];
    while true
      invariant 0 <= i <= k
      invariant |calls| == i
      invariant forall j | 0 <= j < i :: calls[j] == FilesList(ListQuery(fileId), PageTokenFor(replies, j), PageSize)
      invariant pageToken == PageTokenFor(replies, i)
      invariant files == ConcatFiles(replies[..i])
      decreases k - i
    {
      var reply := replies[i];
      calls := calls + [FilesList(ListQuery(fileId), pageToken, PageSize)];
      if reply.PageFailed? {
        r := Err(reply.error);
        return;
      }
      pageToken := reply.nextPageToken;
      assert replies[..i + 1][..i] == replies[..i];
      files := files + reply.files;
      if |pageToken| == 0 {
        break;
      }
      i := i + 1;
    }
    r := Ok(files);
  }

  /** `MkDirUnder`: create a folder named `dirName` under `parentDirId`. The
      folder MIME type it sends is the one `IsMimeDir` recognises, so the new
      folder lists as a directory. */
  function MkDirUnder(dirName: Bytes, parentDirId: Bytes, createReply: Result<DriveFile>): (t: Traced<Result<DriveFile>>)
    ensures |t.calls| == 1 && t.calls[0].FilesCreate? && t.calls[0].media.None?
    ensures t.calls[0].created.name == dirName && t.calls[0].created.parents == [parentDirId]
    ensures IsMimeDir(t.calls[0].created.mimeType)
    ensures t.result == createReply
  {
    Traced([FilesCreate(NewFile(dirName, FolderMime, [parentDirId]), None)], createReply)
  }

  /** `MoveFile`: no call at all when source and target are the same folder;
      otherwise fetch the metadata and, only if that succeeded, re-parent the
      file from `fromDirId` to `toDirId`. */
  function MoveFile(fileId: Bytes, fromDirId: Bytes, toDirId: Bytes, getReply: Result<DriveFile>, updateReply: Result<DriveFile>): (t: Traced<Outcome>)
    ensures GetFirst(t.calls)
    ensures fromDirId == toDirId ==> t.calls == [] && t.result == Done
    ensures fromDirId != toDirId && getReply.Err? ==> t.calls == [FilesGet(fileId)] && t.result == Fail(getReply.error)
    ensures fromDirId != toDirId && getReply.Ok? ==>
      t.calls == [FilesGet(fileId), FilesUpdate(fileId, getReply.value, toDirId, fromDirId, None)] &&
      t.result == Status(updateReply)
  {
    if fromDirId == toDirId then
      Traced([], Done)
    else
      match getReply
      case Err(e) => Traced([FilesGet(fileId)], Fail(e))
      case Ok(file) =>
        var update := FilesUpdate(fileId, file, toDirId, fromDirId, None);
        GetThenUse(fileId, update);
        Traced([FilesGet(fileId), update], Status(updateReply))
  }

  /** `LinkFile`: fetch the metadata and, only if that succeeded, add
      `toDirId` as a further parent without removing any. */
  function LinkFile(fileId: Bytes, toDirId: Bytes, getReply: Result<DriveFile>, updateReply: Result<DriveFile>): (t: Traced<Outcome>)
    ensures GetFirst(t.calls)
    ensures getReply.Err? ==> t.calls == [FilesGet(fileId)] && t.result == Fail(getReply.error)
    ensures getReply.Ok? ==>
      t.calls == [FilesGet(fileId), FilesUpdate(fileId, getReply.value, toDirId, [], None)] &&
      t.result == Status(updateReply)
  {
    match getReply
    case Err(e) => Traced([FilesGet(fileId)], Fail(e))
    case Ok(file) =>
      var update := FilesUpdate(fileId, file, toDirId, [], None);
      GetThenUse(fileId, update);
      Traced([FilesGet(fileId), update], Status(updateReply))
  }

  /** `RenameFile`: fetch the metadata and, only if that succeeded, send it
      back with the name replaced by `newName`, parents untouched. */
  function RenameFile(fileId: Bytes, newName: Bytes, getReply: Result<DriveFile>, updateReply: Result<DriveFile>): (t: Traced<Result<DriveFile>>)
    ensures GetFirst(t.calls)
    ensures getReply.Err? ==> t.calls == [FilesGet(fileId)] && t.result == Err(getReply.error)
    ensures getReply.Ok? ==>
      t.calls == [FilesGet(fileId), FilesUpdate(fileId, getReply.value.(name := newName), [], [], None)] &&
      t.result == updateReply
  {
    match getReply
    case Err(e) => Traced([FilesGet(fileId)], Err(e))
    case Ok(file) =>
      var update := FilesUpdate(fileId, file.(name := newName), [], [], None);
      GetThenUse(fileId, update);
      Traced([FilesGet(fileId), update], updateReply)
  }

  /** The page list a `Files.List` call hands back. */
  datatype FileList = FileList(files: seq<DriveFile>, nextPageToken: Bytes)

  /** The Go pair `r, err` a `Files.List(...).Do()` call returns; a nil
      pointer is `None`. */
  datatype ListReturn = ListReturn(r: Option<FileList>, err: Option<Error>)

  /** The client's convention: a call that fails returns a nil reply. */
  predicate NilOnError(ret: ListReturn)
  {
    ret.err.Some? ==> ret.r.None?
  }

  /** The pair the client returns for a reply of the service. */
  function ClientReturn(reply: PageReply): (ret: ListReturn)
    ensures NilOnError(ret)
    ensures ret.err.Some? <==> reply.PageFailed?
  {
    match reply
    case PageFailed(e) => ListReturn(None, Some(e))
    case Page(files, token) => ListReturn(Some(FileList(files, token)), None)
  }

  /** What one iteration of the listing loop does as the source is written:
      it reads the reply's token and files, then checks the error, then the
      token. Reading through a nil reply is a nil dereference. */
  datatype PageStep =
    | NilDereference
    | ReturnError(error: Error)
    | LastPage(files: seq<DriveFile>)
    | NextPage(token: Bytes, files: seq<DriveFile>)

  function PageStepAsWritten(ret: ListReturn): (s: PageStep)
  {
    match ret.r
    case None => NilDereference
    case Some(page) =>
      if ret.err.Some? then ReturnError(ret.err.value)
      else if |page.nextPageToken| == 0 then LastPage(page.files)
      else NextPage(page.nextPageToken, page.files)
  }

  /** As written, a failed page request crashes instead of returning its
      error: since the client returns a nil reply with every error, the
      `return nil, err` branch can never be reached. The corrected listing
      returns the error. */
  lemma FailedPageCrashesAsWritten(e: Error)
    ensures PageStepAsWritten(ClientReturn(PageFailed(e))) == NilDereference
    ensures forall ret: ListReturn | NilOnError(ret) :: !PageStepAsWritten(ret).ReturnError?
    ensures Paginates([PageFailed(e)]) && ListResult([PageFailed(e)]) == Err(e)
  {
    assert EndsPaging([PageFailed(e)][0]);
  }
}

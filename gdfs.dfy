/** fuse/gdfs.go: the directory-listing cache `bigMap` and the FUSE
    directory node built on it (`GetDirAll`, `Lookup`, `ReadDirAll`, `Attr`). */
module Gdfs {
  import opened Base
  import opened StrUtils
  import opened DriveApi
  import opened DriveLocalFs
  import DriveDir

  datatype DirentType = DtDir | DtFile

  /** A `fuse.Dirent`: inode, type and name of one directory entry. */
  datatype Dirent = Dirent(inode: bv64, kind: DirentType, name: Bytes)

  /** The cached listing of one directory: its dirents in listing order,
      the index from name to tagged id, and the freshness flag. */
  datatype Cont = Cont(dirDirs: seq<Dirent>, name2id: map<Bytes, Bytes>, hasUpdated: bool)

  /** The node `Lookup` hands back: a directory or a file, each an id. */
  datatype Node = DirNode(fileId: Bytes) | FileNode(fileId: Bytes)

  /** The last byte of a tagged id: '0' for a folder, '1' for anything else. */
  const DirTag: byte := 0x30
  const FileTag: byte := 0x31

  function KindTag(f: DriveFile): byte
  {
    if IsMimeDir(f.mimeType) then DirTag else FileTag
  }

  /** The value `name2id` keeps for a listed file: its id followed by its
      kind tag. */
  function Tagged(f: DriveFile): Bytes
  {
    f.id + [KindTag(f)]
  }

  predicate IsTagged(t: Bytes)
  {
    |t| > 0 && (t[|t| - 1] == DirTag || t[|t| - 1] == FileTag)
  }

  /** The dirent produced for a listed file. */
  function DirentOf(f: DriveFile): Dirent
  {
    Dirent(Str2u64(f.id), if IsMimeDir(f.mimeType) then DtDir else DtFile, f.name)
  }

  /** The node a listed file stands for. */
  function NodeOf(f: DriveFile): Node
  {
    if IsMimeDir(f.mimeType) then DirNode(f.id) else FileNode(f.id)
  }

  /** The names that occur in a listing. */
  function Names(files: seq<DriveFile>): set<Bytes>
  {
    set i | 0 <= i < |files| :: files[i].name
  }

  /** The dirents of a listing, one appended per file. */
  function Dirents(files: seq<DriveFile>): seq<Dirent>
    decreases |files|
  {
    if files == [] then [] else Dirents(files[..|files| - 1]) + [DirentOf(files[|files| - 1])]
  }

  /** The name index of a listing, one insertion per file: a later file
      overwrites an earlier one of the same name. */
  function NameIndex(files: seq<DriveFile>): map<Bytes, Bytes>
    decreases |files|
  {
    if files == [] then map[]
    else
      var last := files[|files| - 1];
      NameIndex(files[..|files| - 1])[last.name := Tagged(last)]
  }

  /** `files[i]` is the last file of its name in the listing. */
  predicate LastOfName(files: seq<DriveFile>, i: int)
    requires 0 <= i < |files|
  {
    forall j | i < j < |files| :: files[j].name != files[i].name
  }

  /** One dirent per listed file, in listing order, with the file's name, the
      hash of its id as inode, and the directory type exactly for folders. */
  lemma {:induction false} DirentsAt(files: seq<DriveFile>)
    ensures |Dirents(files)| == |files|
    ensures forall i | 0 <= i < |files| :: Dirents(files)[i] == DirentOf(files[i])
    decreases |files|
  {
    if files != [] {
      DirentsAt(files[..|files| - 1]);
    }
  }

  /** The index has a key for every listed name and no other. */
  lemma {:induction false} NameIndexKeys(files: seq<DriveFile>)
    ensures NameIndex(files).Keys == Names(files)
    decreases |files|
  {
    if files != [] {
      var init := files[..|files| - 1];
      NameIndexKeys(init);
      assert Names(files) == Names(init) + {files[|files| - 1].name} by {
        forall n | n in Names(files) ensures n in Names(init) + {files[|files| - 1].name} {
          var i :| 0 <= i < |files| && files[i].name == n;
          if i < |init| { assert init[i] == files[i]; }
        }
        forall n | n in Names(init) ensures n in Names(files) {
          var i :| 0 <= i < |init| && init[i].name == n;
          assert files[i] == init[i];
        }
      }
    }
  }

  /** Under a repeated name the index keeps the last file listed. */
  lemma {:induction false} NameIndexLastWins(files: seq<DriveFile>, i: nat)
    requires i < |files| && LastOfName(files, i)
    ensures files[i].name in NameIndex(files)
    ensures NameIndex(files)[files[i].name] == Tagged(files[i])
    decreases |files|
  {
    var init := files[..|files| - 1];
    if i < |files| - 1 {
      assert init[i] == files[i];
      assert LastOfName(init, i) by {
        forall j | i < j < |init| ensures init[j].name != init[i].name {
          assert init[j] == files[j];
        }
      }
      NameIndexLastWins(init, i);
    }
  }

  /** Every value of the index is an id followed by a kind tag, so it is not
      empty and its last byte is '0' or '1'. */
  lemma {:induction false} NameIndexTagged(files: seq<DriveFile>)
    ensures forall n | n in NameIndex(files) :: IsTagged(NameIndex(files)[n])
    decreases |files|
  {
    if files != [] {
      NameIndexTagged(files[..|files| - 1]);
    }
  }

  /** The entry `GetDirAll` stores for a listing. */
  function BuildCont(files: seq<DriveFile>): (c: Cont)
    ensures c.hasUpdated
    ensures |c.dirDirs| == |files|
    ensures forall i | 0 <= i < |files| ::
      c.dirDirs[i].name == files[i].name &&
      c.dirDirs[i].inode == Str2u64(files[i].id) &&
      (c.dirDirs[i].kind == DtDir <==> IsMimeDir(files[i].mimeType))
    ensures c.name2id.Keys == Names(files)
    ensures forall n | n in c.name2id :: IsTagged(c.name2id[n])
    ensures forall i | 0 <= i < |files| && LastOfName(files, i) :: c.name2id[files[i].name] == Tagged(files[i])
  {
    DirentsAt(files);
    NameIndexKeys(files);
    NameIndexTagged(files);
    forall i | 0 <= i < |files| && LastOfName(files, i)
      ensures files[i].name in NameIndex(files) && NameIndex(files)[files[i].name] == Tagged(files[i])
    {
      NameIndexLastWins(files, i);
    }
    Cont(Dirents(files), NameIndex(files), true)
  }

  /** The loop of `GetDirAll`: walk the listing, appending a dirent and
      inserting the tagged id of each file. */
  method ListingToCont(files: seq<DriveFile>) returns (dirDirs: seq<Dirent>, name2id: map<Bytes, Bytes>)
    ensures dirDirs == Dirents(files)
    ensures name2id == NameIndex(files)
  {
    dirDirs := [];
    name2id := map[];
    for i := 0 to |files|
      invariant dirDirs == Dirents(files[..i])
      invariant name2id == NameIndex(files[..i])
    {
      var file := files[i];
      assert files[..i + 1][..i] == files[..i];
      if IsMimeDir(file.mimeType) {
        name2id := name2id[file.name := file.id + [DirTag]];
      } else {
        name2id := name2id[file.name := file.id + [FileTag]];
      }
      dirDirs := dirDirs + [Dirent(Str2u64(file.id), if IsMimeDir(file.mimeType) then DtDir else DtFile, file.name)];
    }
    assert files[..|files|] == files;
  }

  /** Decoding a tagged id: the last byte picks the node kind, the bytes
      before it are the id. */
  function DecodeTagged(t: Bytes): (n: Node)
    requires |t| > 0
    ensures n.DirNode? <==> t[|t| - 1] == DirTag
    ensures n.fileId + [t[|t| - 1]] == t
  {
    if t[|t| - 1] == DirTag then DirNode(t[..|t| - 1]) else FileNode(t[..|t| - 1])
  }

  /** Tagging a listed file and decoding the result gives back its node:
      a directory exactly for a folder, with the untagged id. */
  lemma TagRoundTrip(f: DriveFile)
    ensures DecodeTagged(Tagged(f)) == NodeOf(f)
    ensures NodeOf(f).DirNode? <==> IsMimeDir(f.mimeType)
    ensures NodeOf(f).fileId == f.id
  {
    assert Tagged(f)[..|Tagged(f)| - 1] == f.id;
  }

  /** The lookup of `name` in a cached entry: ENOENT when it is not indexed,
      otherwise the decoded node. */
  function LookupIn(c: Cont, name: Bytes): (r: Result<Node>)
    requires name in c.name2id ==> |c.name2id[name]| > 0
    ensures r.Err? <==> name !in c.name2id
    ensures r.Err? ==> r.error == ENOENT
  {
    if name in c.name2id then Ok(DecodeTagged(c.name2id[name])) else Err(ENOENT)
  }

  /** Round trip through the cache: looking up a listed name finds the node
      of the last file listed under that name. */
  lemma LookupListed(files: seq<DriveFile>, i: nat)
    requires i < |files| && LastOfName(files, i)
    ensures LookupIn(BuildCont(files), files[i].name) == Ok(NodeOf(files[i]))
  {
    NameIndexLastWins(files, i);
    TagRoundTrip(files[i]);
  }

  /** Looking up a name finds a node exactly when the name was listed. */
  lemma LookupNotFound(files: seq<DriveFile>, name: Bytes)
    ensures LookupIn(BuildCont(files), name) == Err(ENOENT) <==> name !in Names(files)
    ensures name in Names(files) ==>
      exists i | 0 <= i < |files| && LastOfName(files, i) :: files[i].name == name &&
        LookupIn(BuildCont(files), name) == Ok(NodeOf(files[i]))
  {
    if name in Names(files) {
      var i := LastIndexOf(files, name);
      LookupListed(files, i);
    }
  }

  /** The position of the last file named `name`. */
  function LastIndexOf(files: seq<DriveFile>, name: Bytes): (i: nat)
    requires name in Names(files)
    ensures i < |files| && files[i].name == name && LastOfName(files, i)
    decreases |files|
  {
    var k := |files| - 1;
    if files[k].name == name then k
    else
      assert name in Names(files[..k]) by {
        var j :| 0 <= j < |files| && files[j].name == name;
        assert files[..k][j] == files[j];
      }
      var i := LastIndexOf(files[..k], name);
      assert files[..k][i] == files[i];
      i
  }

  /** What one `GetDirAll` does to the listings the cache holds: a cached
      directory is left alone with no call; otherwise the directory is listed
      and, when the listing succeeds, its entry is replaced by the new listing,
      every other entry unchanged. */
  ghost predicate Refreshes(before: map<Bytes, seq<DriveFile>>, after: map<Bytes, seq<DriveFile>>,
                            dirId: Bytes, replies: seq<PageReply>, calls: seq<Call>)
  {
    if dirId in before then
      calls == [] && after == before
    else
      DriveDir.Paginates(replies) && calls == DriveDir.ListCalls(dirId, replies) &&
      after == match DriveDir.ListResult(replies)
               case Ok(files) => before[dirId := files]
               case Err(_) => before
  }

  /** Every cached entry is the one `GetDirAll` builds from its listing. */
  ghost predicate Consistent(bigMap: map<Bytes, Cont>, listings: map<Bytes, seq<DriveFile>>)
  {
    bigMap.Keys == listings.Keys &&
    forall d | d in bigMap :: bigMap[d] == BuildCont(listings[d])
  }

  /** Storing the entry built from a listing keeps the cache consistent. */
  lemma ConsistentStore(bigMap: map<Bytes, Cont>, listings: map<Bytes, seq<DriveFile>>, dirId: Bytes, files: seq<DriveFile>)
    requires Consistent(bigMap, listings)
    ensures Consistent(bigMap[dirId := BuildCont(files)], listings[dirId := files])
  {
    var m, l := bigMap[dirId := BuildCont(files)], listings[dirId := files];
    assert m.Keys == l.Keys;
    forall d | d in m ensures m[d] == BuildCont(l[d]) {
      if d != dirId {
        assert m[d] == bigMap[d] && l[d] == listings[d];
      }
    }
  }

  /** The global `bigMap` from a directory id to its cached listing. The
      ghost `listings` records the listing each entry was built from. */
  class DirCache {
    var bigMap: map<Bytes, Cont>
    ghost var listings: map<Bytes, seq<DriveFile>>

    /** Every entry is the one `GetDirAll` builds from its listing; in
        particular it is fresh and every indexed value carries a kind tag. */
    ghost predicate Valid()
      reads this
    {
      Consistent(bigMap, listings)
    }

    /** The empty cache the program starts with. */
    constructor ()
      ensures Valid()
      ensures bigMap == map[] && listings == map[]
    {
      bigMap := map[];
      listings := map[];
    }

    /** `Dir.GetDirAll`: (re)build the entry of `dirId` from a listing when it
        is absent or not fresh. A failed listing, which ends the process in
        the source, is returned as a failure with the cache unchanged.
        `replies` are the service's answers to the listing requests. */
    method GetDirAll(dirId: Bytes, replies: seq<PageReply>) returns (st: Outcome, calls: seq<Call>)
      requires Valid()
      requires dirId !in bigMap ==> DriveDir.Paginates(replies)
      modifies this
      ensures Valid()
      ensures Refreshes(old(listings), listings, dirId, replies, calls)
      ensures dirId in old(bigMap) ==> calls == [] && st == Done && bigMap == old(bigMap)
      ensures st.Done? <==> dirId in bigMap
      ensures st.Fail? ==> bigMap == old(bigMap) && DriveDir.Paginates(replies) && st.error == DriveDir.ListResult(replies).error
      ensures forall d | d in old(bigMap) && d != dirId :: d in bigMap && bigMap[d] == old(bigMap)[d]
      ensures dirId !in old(bigMap) && st.Done? ==>
        DriveDir.Paginates(replies) && bigMap == old(bigMap)[dirId := BuildCont(DriveDir.ListResult(replies).value)]
    {
      assert dirId in bigMap ==> bigMap[dirId].hasUpdated by {
        if dirId in bigMap { assert bigMap[dirId] == BuildCont(listings[dirId]); }
      }
      if dirId !in bigMap || !bigMap[dirId].hasUpdated {
        var files;
        files, calls := DriveDir.List(dirId, replies);
        if files.Err? {
          st := Fail(files.error);
          return;
        }
        var dirDirs, name2id := ListingToCont(files.value);
        var entry := Cont(dirDirs, name2id, true);
        assert entry == BuildCont(files.value);
        ConsistentStore(bigMap, listings, dirId, files.value);
        ghost var before := bigMap;
        bigMap := bigMap[dirId := entry];
        forall d | d in before && d != dirId ensures d in bigMap && bigMap[d] == before[d] {
        }
        listings := listings[dirId := files.value];
        st := Done;
      } else {
        st, calls := Done, [];
      }
    }

    /** `Dir.Lookup`: refresh the directory, then resolve `name` through its
        name index. */
    method Lookup(dirId: Bytes, name: Bytes, replies: seq<PageReply>) returns (r: Result<Node>, calls: seq<Call>)
      requires Valid()
      requires dirId !in bigMap ==> DriveDir.Paginates(replies)
      modifies this
      ensures Valid()
      ensures Refreshes(old(listings), listings, dirId, replies, calls)
      ensures dirId in bigMap ==> r == LookupIn(bigMap[dirId], name)
      ensures dirId in bigMap ==> (r == Err(ENOENT) <==> name !in Names(listings[dirId]))
      ensures dirId in bigMap && name in Names(listings[dirId]) ==>
        r == Ok(NodeOf(listings[dirId][LastIndexOf(listings[dirId], name)]))
      ensures dirId !in bigMap ==> DriveDir.Paginates(replies) && r == Err(DriveDir.ListResult(replies).error)
    {
      var st;
      st, calls := GetDirAll(dirId, replies);
      if st.Fail? {
        r := Err(st.error);
        return;
      }
      r := LookupIn(bigMap[dirId], name);
      LookupNotFound(listings[dirId], name);
      if name in Names(listings[dirId]) {
        LookupListed(listings[dirId], LastIndexOf(listings[dirId], name));
      }
    }

    /** `Dir.ReadDirAll`: refresh the directory, then return its cached
        dirents. */
    method ReadDirAll(dirId: Bytes, replies: seq<PageReply>) returns (r: Result<seq<Dirent>>, calls: seq<Call>)
      requires Valid()
      requires dirId !in bigMap ==> DriveDir.Paginates(replies)
      modifies this
      ensures Valid()
      ensures Refreshes(old(listings), listings, dirId, replies, calls)
      ensures dirId in bigMap ==> r == Ok(bigMap[dirId].dirDirs)
      ensures dirId in bigMap ==>
        |r.value| == |listings[dirId]| && forall i | 0 <= i < |r.value| :: r.value[i] == DirentOf(listings[dirId][i])
      ensures dirId !in bigMap ==> DriveDir.Paginates(replies) && r == Err(DriveDir.ListResult(replies).error)
    {
      var st;
      st, calls := GetDirAll(dirId, replies);
      if st.Fail? {
        r := Err(st.error);
        return;
      }
      r := Ok(bigMap[dirId].dirDirs);
      DirentsAt(listings[dirId]);
    }
  }

  /** The attributes a directory node reports (a subset of `fuse.Attr`). */
  datatype Attr = Attr(inode: bv64, mode: bv32)

  /** `os.ModeDir`, the directory bit of a Go file mode (1 << 31). */
  const ModeDir: bv32 := 0x8000_0000

  /** `Dir.Attr`: inode 0, so that the kernel assigns one, and a directory
      mode with permissions rwxrwxr-x; the cache is not read. */
  function DirAttr(): (a: Attr)
    ensures a.inode == 0
    ensures a.mode & ModeDir == ModeDir
    ensures a.mode & 0x1ff == 0x1fd
    ensures a.mode & !(ModeDir | 0x1ff) == 0
  {
    Attr(0, ModeDir | 0x1fd)
  }
}

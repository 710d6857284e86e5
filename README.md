# gdfs directory cache: a Dafny model

gdfs mounts a Google Drive as a FUSE file system. This project models the
core of its FUSE layer in Dafny, together with the Drive helpers that layer
relies on, and proves properties of that model. The core is:

- the directory-listing cache `bigMap`, which maps a directory id to a
  `Cont` (its dirents, its name index, and a freshness flag);
- the FUSE directory operations `GetDirAll`, `Lookup`, `ReadDirAll` and
  `Attr`;
- the paginated child listing `List` and the metadata calls of the drive
  package (`MkDirUnder`, `MoveFile`, `LinkFile`, `RenameFile`, `UpdateFile`,
  `WriteToDir`, `OpenReader`);
- MIME classification (`IsMimeDir`, `IsMimeGoogleDoc`);
- the inode hash `Str2u64`, which is 64-bit FNV-1a.

Modules follow the source files:

- `Base`: Go strings as byte sequences, errors, and result wrappers.
- `StrUtils`: `utils/strutils.go`.
- `DriveApi`: the Drive records, replies and calls used by the drive package.
- `DriveLocalFs`: `drive/localfs.go`.
- `DriveDir`: `drive/dir.go`.
- `Gdfs`: `fuse/gdfs.go`.

A Go `string` is a byte sequence, so ids, names and MIME types are `seq<bv8>`.
`Str2u64` computes on `bv64`, whose multiplication wraps modulo 2^64 as
Go's `uint64` does.

The Drive service is never called. Each wrapper takes the replies the service
would give as parameters. `List` takes `replies[i]`, the answer to its `i`-th
page request. Each wrapper returns the sequence of calls it issued, so "no
call is made" and "Get before Update" become statements about that trace
(`DriveApi.GetFirst`).

`bigMap` is process-wide state that `GetDirAll` updates in place. It is
therefore the field of a class, `Gdfs.DirCache`. A ghost map `listings`
records the listing each entry was built from. `Valid()` ties every entry to
`BuildCont` of its listing. Because of this tie, every cached entry is always
fresh, and every value of its name index is tagged.

`Str2u64` is a function, so equal ids always give the same inode. The model
makes no claim that different ids give different inodes.

Behaviour the model takes from the code as it stands:
- The FUSE layer has only lookup, listing and attribute operations on
  directories. It has no create, remove, rename or write operation, no
  per-file content buffer and no metadata registry, so none is modelled.
- `Dir.Attr` reports inode 0 (fuse/gdfs.go:131). `Str2u64` is used only for
  dirent inodes (fuse/gdfs.go:117).
- A failed listing ends the process (`log.Fatal`, fuse/gdfs.go:103). The
  model returns the error instead, and the cache keeps its previous
  contents.

## Model

| member | source | states |
|---|---|---|
| StrUtils.Str2u64 | utils/strutils.go:7-11 | hashing no bytes yields the FNV-1a 64-bit offset basis 14695981039346656037 |
| StrUtils.HashFromAppend | utils/strutils.go:9-10 | feeding `a` then `b` to the hash state equals feeding `a + b`: the state after a prefix is all that is carried forward |
| StrUtils.Str2u64Snoc | utils/strutils.go:8-10 | step law: the hash of `s + [b]` is the hash of `s` XOR `b`, times the FNV prime 1099511628211, modulo 2^64 |
| StrUtils.ShortVectors | utils/strutils.go:7-11 | the hashes of "" and "a" are the published FNV-1a 64 values cbf29ce484222325 and af63dc4c8601ec8c |
| StrUtils.FoobarVector | utils/strutils.go:7-11 | the hash of "foobar" is the published FNV-1a 64 value 85944171f73967e8 |
| DriveLocalFs.IsMimeDir | drive/localfs.go:9-11 | holds exactly for "application/vnd.google-apps.folder", byte for byte; such a type starts with "application/vnd.google-apps." |
| DriveLocalFs.IsMimeGoogleDoc | drive/localfs.go:13-17 | holds exactly for "application/vnd.google-apps.document", "application/vnd.google-apps.presentation" and "application/vnd.google-apps.spreadsheet" |
| DriveLocalFs.MimeClassesDisjoint | drive/localfs.go:9-17 | no MIME string is both the folder type and one of the three Google-native document types |
| DriveLocalFs.UpdateFile | drive/localfs.go:19-25 | Get comes first; a failed Get returns its error with no upload; otherwise one Update carries the content with the fetched metadata and its reply is returned |
| DriveLocalFs.WriteToDir | drive/localfs.go:27-33 | exactly one Create, with the given name, the given parent as its only parent, the content, and no folder MIME type; its reply is returned |
| DriveLocalFs.OpenReader | drive/localfs.go:35-57 | Get comes first; a failed Get returns its error; a folder returns ERR_READDIR with no download; a Google-native document is exported as application/pdf; anything else is downloaded raw |
| DriveLocalFs.OpenReaderContentCall | drive/localfs.go:41-56 | a content call happens exactly when Get succeeded on a non-folder; that call is an export exactly for Google-native documents; content is returned only after such a call |
| DriveDir.ListQueryRecoversId | drive/dir.go:27 | the filter is the id, unescaped, between `'` and `' in parents`, so the id can be read back from it |
| DriveDir.FirstStop | drive/dir.go:31-36 | the index of the first reply that fails or has an empty next-page token: no earlier reply ends the listing |
| DriveDir.ListCalls | drive/dir.go:23-29 | one request per reply, up to and including the first one that ends the listing; the first token is empty; each later token is the non-empty token of the page before; every request carries the same filter and page size 20 |
| DriveDir.ListResult | drive/dir.go:24-38 | the listing fails with the error of the failed reply and returns no partial result; otherwise it is the files of every page, concatenated in request order |
| DriveDir.ConcatFilesMember | drive/dir.go:24-30 | a file is in the concatenation exactly when some page received carries it |
| DriveDir.List | drive/dir.go:22-39 | the loop issues exactly the requests `ListCalls` describes and returns `ListResult`, checking each reply's error before using it |
| DriveDir.MkDirUnder | drive/dir.go:13-20 | exactly one Create, with the given name under the given parent, whose MIME type `IsMimeDir` recognises as a folder |
| DriveDir.MoveFile | drive/dir.go:41-52 | same source and target: no call and nil; a failed Get: that error and no Update; otherwise Get, then one Update that adds the target and removes the source parent |
| DriveDir.LinkFile | drive/dir.go:54-61 | a failed Get returns its error with no Update; otherwise Get, then one Update that adds the target parent and removes none |
| DriveDir.RenameFile | drive/dir.go:67-74 | a failed Get returns its error with no Update; otherwise the fetched metadata is sent back with only the name replaced, and the Update's reply is returned |
| DriveDir.FailedPageCrashesAsWritten | drive/dir.go:26-33 | as written, a failed page request dereferences the nil reply; because the client returns a nil reply with every error, the `return nil, err` branch is unreachable; the corrected listing returns the error |
| Gdfs.DirentsAt | fuse/gdfs.go:116-120 | one dirent per listed file, in listing order, with the file's name, `Str2u64` of its id as inode, and type DT_Dir exactly for folders |
| Gdfs.NameIndexKeys | fuse/gdfs.go:106-115 | the name index has a key for every listed name and for no other |
| Gdfs.NameIndexLastWins | fuse/gdfs.go:107-115 | under a repeated name, the index holds the id of the last file listed, followed by '0' for a folder and '1' otherwise |
| Gdfs.NameIndexTagged | fuse/gdfs.go:111-114 | every value of the index is non-empty and ends in '0' or '1', so the last-byte read in `Lookup` is in bounds |
| Gdfs.BuildCont | fuse/gdfs.go:105-126 | the stored entry is fresh, has one dirent per file in order, has the listed names as the keys of its index with tagged values, and keeps the last file of each name |
| Gdfs.ListingToCont | fuse/gdfs.go:105-121 | the loop over the listing builds exactly the specified dirents and name index |
| Gdfs.DecodeTagged | fuse/gdfs.go:140-148 | the last byte of a tagged id chooses the node: Dir for '0', File for any other byte; the node's id is everything before that byte |
| Gdfs.TagRoundTrip | fuse/gdfs.go:139-149 | decoding a file's tagged id gives a Dir node exactly for a folder, otherwise a File node, with the original id and the tag stripped |
| Gdfs.LookupIn | fuse/gdfs.go:138-151 | ENOENT exactly when the name is not a key of the name index |
| Gdfs.LookupListed | fuse/gdfs.go:136-151 | looking up a listed name in the entry built from a listing yields the node of the last file under that name |
| Gdfs.LookupNotFound | fuse/gdfs.go:136-151 | looking up a name in the entry built from a listing yields ENOENT exactly when no listed file has that name, and a node otherwise |
| Gdfs.DirCache.constructor | fuse/gdfs.go:40 | the cache starts empty and consistent |
| Gdfs.DirCache.GetDirAll | fuse/gdfs.go:98-128 | a cached entry is fresh and is never refetched: no call is made and nothing changes; otherwise the directory is listed; on success its entry is replaced wholesale by the one built from the listing and every other entry is unchanged; a failed listing leaves the cache unchanged |
| Gdfs.DirCache.Lookup | fuse/gdfs.go:136-152 | after the refresh: ENOENT exactly when the name is not listed; otherwise the node of the last file with that name; a failed refresh returns the listing error |
| Gdfs.DirCache.ReadDirAll | fuse/gdfs.go:158-161 | after the refresh, returns exactly the cached dirents: one per listed file, in order |
| Gdfs.DirAttr | fuse/gdfs.go:130-134 | inode 0 and mode `os.ModeDir` with permissions 0775, no other bits; the cache is not read |

## Findings

| source | as written | input that shows it | evidently intended | confidence | as-written member | corrected member |
|---|---|---|---|---|---|---|
| drive/dir.go:29-33 | `r.NextPageToken` and `r.Files` are read before `err` is checked | a page request that fails, so the client returns a nil reply with an error | check `err` first and return `nil, err` with no partial result | high; not executed | DriveDir.FailedPageCrashesAsWritten | DriveDir.List |

## Left out

- DriveDir.List: assumes that one of the given replies ends the listing. A service that returns next-page tokens forever keeps the Go loop running forever; this case is not modelled.
- Gdfs.DirCache.GetDirAll: a failed listing ends the process in the source (`log.Fatal`). The model returns the error and leaves `bigMap` unchanged. `Lookup` and `ReadDirAll` pass that error on.
- Concurrency: `bigMap` is an unsynchronised global shared by concurrent FUSE requests. The model is sequential.
- `File.Attr` and `File.ReadAll` (fuse/gdfs.go:171-200): not modelled. Both make remote calls. Both report the constant greeting instead of the file's size and content. `GetFileSize` is not part of this model.
- `main` and `FS.Root` (fuse/gdfs.go:27-80): not modelled. They handle flags, mounting and serving. Only the empty initial `bigMap` (line 40) is modelled.
- `GetRoot` and `DeleteFile` (drive/dir.go:9-11, 63-65): not modelled. Each forwards a single service call.
- drive/handler.go, main/main.go and utils/netutils.go: not modelled. They cover credentials, a demo driver and proxy setup.
- The Drive service: modelled only by the replies passed in. Field selection (`Fields(...)`) is not modelled.
- Streams: readers and uploads are modelled by the bytes they carry.
- `ERR_READDIR` is not defined in the source files modelled here. It is modelled as the error value `ErrReadDir`.

# jsondb in Dafny

A model of JSONDB, a record store that keeps JSON documents as files.
The model also covers ReplicateOnWriteFs, a filesystem wrapper that sends
every write to two stores.

In JSONDB a *collection* is a directory under the database directory. A
*record* is the file `<collection>/<resource>.json` in it. The store offers:

- `Put`: writes a record through a temporary `.json.tmp` file and a rename.
- `Get` and `GetBytes`: read one record.
- `GetAll`, `GetWhere` and `GetWhereNot`: scan a collection.
- `Delete`: removes a record or a whole collection.
- `Link`: makes a symbolic link to a record or a collection.
- `InitCollection`: creates a collection's directory.
- `Stat`: falls back from `path` to `path.json` when `path` does not exist.

Every operation is a pure function of the database state. An operation that
writes returns the state it leaves behind.

- **common.dfy** (`Common`): bytes, results, errors, and the `Change` pair of outcome and new state.
- **paths.dfy** (`Paths`): `filepath.Join` as slash concatenation that skips empty elements, parents, and subtrees.
- **order.dfy** (`Order`): the byte-wise order of names, and the sorted listing `ioutil.ReadDir` returns.
- **filesys.dfy** (`FileSys`): the operating system's filesystem as a map from paths to `Dir`, `File(bytes)`, `Symlink(target)` or `Special` (any other kind of file), plus the `os` and `ioutil` calls the store makes:
  - `Stat` follows links, giving up with ELOOP after 40 hops. A link's text is an absolute path when it starts with `/`; otherwise it is read inside the directory that holds the link.
  - `Rename`, `Remove`, `RemoveAll`, `MkdirAll` and `Symlink` keep their Unix error cases, except that a path through a regular file is reported missing (see "Left out").
  - `WellFormed` says every entry sits in an existing directory; every writing call keeps it.
- **scan.dfy** (`Scanning`): the loops of GetAll, GetWhere and GetWhereNot over a listing.
- **ids.dfy** (`Ids`): `GenID` over given random bytes, and `GenIDFromSeeed` over a given hash function.
- **querypath.dfy** (`QueryPath`): the split of a query such as `a.b.c` into field names.
- **locks.dfy** (`Locks`): the find-or-create step of the lock table.
- **jsondb.dfy** (`JsonDb`): the record store.
- **replicate.dfy** (`Replicate`): ReplicateOnWriteFs over any two stores, and over two `FileSys` stores.

Some calls into other libraries are parameters of the operations that use them:

- JSON marshalling (`encode`).
- Unmarshalling (`decode`).
- The typed `jsonq` field lookup and comparison (`probe`).
- `crypto/rand` (`random`, a stream of bytes).
- SHA-256 (`sha256`).

## Model

| member | source | states |
|---|---|---|
| `JsonDb.Stat` | jsondb.go:493-501 | The bare path's result when it resolves or loops; only when it is missing, the result for `path.json`. Ok exactly when one of the two resolves. |
| `JsonDb.RecordName` | jsondb.go:89-91 | An empty resource becomes a 64-character alphanumeric name; any other resource is kept. |
| `JsonDb.InitCollection` | jsondb.go:63-77 | Takes the collection's lock. Only adds directories on the way to `Dir/collection`. On success that path is a directory. A missing directory whose parent is a directory is created and nothing else changes. |
| `JsonDb.InitCollectionCreates` | jsondb.go:63-77 | Whenever every missing name on the way up from `Dir/collection` ends at a directory or the root, InitCollection succeeds and leaves a directory there. |
| `JsonDb.Store` | jsondb.go:113-119 | A failed write changes nothing. A failed rename leaves only the temporary file written. On success (temporary name not a link) the temporary name is gone and the final name holds the bytes. |
| `JsonDb.Put` | jsondb.go:81-120 | An empty collection fails with the exact message and changes nothing. Otherwise takes the collection's lock. Success implies the value encoded. |
| `JsonDb.PutSucceeds` | jsondb.go:98-119 | Put succeeds when the collection directory exists or MkdirAll can make it, the value encodes, the name has no `/`, the `.tmp` name is free or a regular file, and the record name is not a directory. |
| `JsonDb.StoreSucceeds` | jsondb.go:113-119 | Writing the temporary file and renaming it succeed in an existing directory when the temporary name is free or a regular file and the final name is not a directory. |
| `JsonDb.StoreAfterMkdirAll` | jsondb.go:112-119 | After MkdirAll makes the collection directory, writing the temporary file and renaming it succeed under the same conditions on the temporary and final names. |
| `JsonDb.PutFrame` | jsondb.go:98-119 | After a successful Put the record file holds exactly the encoded bytes and the `.tmp` file is gone. Every other old entry is unchanged. Every other new entry is a directory on the way to the collection. |
| `JsonDb.PutThenGetBytes` | jsondb.go:98-119 | GetBytes after a successful Put returns the encoded bytes. |
| `JsonDb.PutThenGet` | jsondb.go:136-150 | Get after a successful Put returns the value put, when decode inverts encode. |
| `JsonDb.PutFailureKeepsRecord` | jsondb.go:103-119 | A failed Put leaves the record file exactly as it was: present or absent, and with the same contents. |
| `JsonDb.RecordPaths` | jsondb.go:98-100 | Put's `Join(Join(Dir, collection), name + ".json")` is GetBytes' `Join(Dir, collection, name) + ".json"`. |
| `JsonDb.GetBytes` | jsondb.go:154-182 | Validation messages come before any lookup. A failing Stat returns its error. When Stat finds the record, the result is exactly what ReadFile gives for `rec.json`, error or bytes. |
| `JsonDb.Get` | jsondb.go:123-151 | GetBytes' error, or the decoding of GetBytes' bytes. |
| `JsonDb.Delete` | jsondb.go:431-457 | Takes the lock on `collection/resource` and never adds or alters an entry. A Stat failure gives the not-found message and no change. A directory loses its whole tree. A regular file loses `path.json` and its tree. Any other kind passes with no change. |
| `JsonDb.DeleteRecordThenGetBytes` | jsondb.go:447-453 | Deleting a record file passes; GetBytes afterwards reports `rec.json` missing. |
| `JsonDb.DeleteCollectionThenGetBytes` | jsondb.go:443-449 | Deleting a collection passes; GetBytes afterwards reports any of its records missing. |
| `JsonDb.Link` | jsondb.go:460-490 | Takes the source's lock. A Stat failure gives the not-found message and no change. A directory gets a link at the destination exactly when the destination is free and its parent exists. A file first removes `dest.json`, ignoring that call's error, then links `dest.json` to `src.json`. This passes exactly when the removal leaves the name free with an existing parent directory, that is, unless `dest.json` is a non-empty directory or its parent is missing. On success `dest.json` is the link and nothing else changes; on failure only the removal's effect remains. Any other kind passes with no change. |
| `JsonDb.LinkRecordFile` | jsondb.go:484-487 | Linking a file record passes, replacing `dest.json` by a link to `src.json`. |
| `JsonDb.LinkThenGetBytes` | jsondb.go:484-487 | Under an absolute data directory, GetBytes on a linked destination returns the source record's bytes. |
| `JsonDb.GetBytesThroughLink` | jsondb.go:170-175 | GetBytes follows a link at `rec.json`, read inside the record's directory, to the file it names. |
| `JsonDb.GetBytesDangling` | jsondb.go:170-175 | A record cannot be read when its bare name is absent and its `.json` name is absent or a link whose target, read as the link says, is gone. |
| `JsonDb.LinkOntoItself` | jsondb.go:484-487 | Under an absolute data directory, linking a record onto itself loses it: GetBytes succeeded before and fails after. |
| `JsonDb.LinkThenDeleteSourceDangles` | jsondb.go:484-487 | A linked record does not outlive its source: after Delete of the source passes, GetBytes on the destination fails. |
| `JsonDb.DataDir` | jsondb.go:32 | The data directory is `db` under the given one, and is absolute exactly when the given one is empty or absolute. |
| `JsonDb.LinkDanglesUnderRelativeDir` | jsondb.go:484-487 | Under the relative data directory of `NewJSONDB("data")`, a record that reads back is linked with success, and the link cannot be read. |
| `JsonDb.AbsoluteDataDir` | jsondb.go:32 | The data directory made absolute against the working directory; an already absolute one is kept. |
| `JsonDb.LinkUnderAbsoluteDataDir` | jsondb.go:484-487 | With the data directory made absolute, a linked destination reads back the source record's bytes. |
| `JsonDb.GetAll` | jsondb.go:376-427 | The empty-collection message, or the Stat error of the collection, with no records. Otherwise the records are the decoded listed files, in listing order, up to the first file that cannot be read or decoded, and the failure is that file's error (none when every file loads). |
| `JsonDb.Query` | jsondb.go:186-278 | The GetWhere/GetWhereNot body: validation, Stat error, and at most `limit` records for a positive limit. |
| `JsonDb.GetWhereUnlimited` | jsondb.go:272-274 | With a negative limit and no failing file, the result is every matching record, in listing order. |
| `JsonDb.GetWhereUnlimitedFailure` | jsondb.go:218-266 | With a negative limit, a query failing at a file still returns the matching records of the files before it, with that file's error. |
| `JsonDb.GetWhere` | jsondb.go:186-278 | Empty collection gives the message; at most `limit` records for a positive limit. |
| `JsonDb.GetWhereNot` | jsondb.go:282-373 | Empty collection gives the message; at most `limit` records for a positive limit. |
| `JsonDb.WhereAndWhereNotSplitGetAll` | jsondb.go:186-427 | When every file reads, looks up and decodes: with no limit, GetWhere and GetWhereNot both succeed, and their records together are GetAll's records as a multiset. |
| `JsonDb.GetWhereLimited` | jsondb.go:268-274 | With a limit of at least 1 and no failing file, the result is the first `limit` matching records in listing order. |
| `Scanning.ScanAll` | jsondb.go:405-424 | At most one record per file; exactly one per file when nothing fails. |
| `Scanning.ScanAllSpec` | jsondb.go:405-424 | The records are the decoded files before the first failing file, in order. The failure is that file's error. |
| `Scanning.ScanAllStopsAtFailure` | jsondb.go:406-420 | Files after the first failure are never examined. |
| `Scanning.ScanAllIgnoresTest` | jsondb.go:405-424 | GetAll's loop does not depend on any query. |
| `Scanning.ScanWhere` | jsondb.go:216-275 | At most one record per file, and at most `limit - numFound` records while `numFound < limit`. |
| `Scanning.WhereUnbounded` | jsondb.go:272-274 | A negative limit, or one already passed, never stops the scan: the result is every matching record. |
| `Scanning.WhereBounded` | jsondb.go:268-274 | With `0 <= numFound < limit`, the result is the first `limit - numFound` matching records. |
| `Scanning.WhereZeroLimit` | jsondb.go:272-274 | With limit 0 the scan stops after the first file if that file does not match, and otherwise never stops. |
| `Scanning.WhereUnboundedFailure` | jsondb.go:218-266 | With no limit in reach, a scan whose first problem is at file `i` returns the matching records of the files before `i` and that problem. |
| `Scanning.WhereFailureIsFirstProblem` | jsondb.go:218-262 | The error returned is the read, lookup or decode error of the first file that has one. |
| `Scanning.WhereStopsAtProblem` | jsondb.go:218-262 | Files after the first failing one are never examined. |
| `Scanning.KeptIsSubsequence` | jsondb.go:252-270 | The kept files are a subsequence of the listing, in listing order. |
| `Scanning.KeptPartition` | jsondb.go:252-270 | When every field lookup succeeds, each file is kept by exactly one of GetWhere and GetWhereNot. |
| `Scanning.SelectedPartition` | jsondb.go:252-270 | The matching and non-matching decoded records together are all the decoded records. |
| `Scanning.WhereSplitsAll` | jsondb.go:216-424 | With no limit and no failing file, GetWhere's and GetWhereNot's records together are GetAll's. |
| `QueryPath.Split` | jsondb.go:228-229 | At least one piece, none holding a dot. |
| `QueryPath.JoinSplit` | jsondb.go:228-229 | Joining the pieces with dots gives back the query; there is one piece more than there are dots. |
| `QueryPath.SplitJoin` | jsondb.go:228-229 | Splitting dot-free pieces joined with dots gives back the pieces. |
| `QueryPath.SplitNoDot` | jsondb.go:230-231 | A query without a dot is one piece. |
| `QueryPath.QueryPathOf` | jsondb.go:227-232 | The query path has one piece per dot plus one, all dot-free, and joins back to the query. |
| `Ids.GenId` | jsondb.go:522-532 | As many symbols as random bytes, each alphanumeric. |
| `Ids.AlphabetSymbols` | jsondb.go:524 | The dictionary has 62 distinct, ordered, alphanumeric symbols: digits, then upper case, then lower case. |
| `Ids.GenIdResidues` | jsondb.go:528-530 | Two byte strings give the same identifier exactly when they agree byte by byte modulo 62. |
| `Ids.PreimageSize` | jsondb.go:528-530 | Symbols `0` to `7` come from five byte values each, the others from four. |
| `Ids.Hex` | jsondb.go:537 | Two lower-case hex digits per byte. |
| `Ids.UnhexHex` | jsondb.go:537 | The hex text reads back to the bytes. |
| `Ids.GenIdFromSeed` | jsondb.go:535-538 | Twice as many hex digits as the digest has bytes. |
| `Ids.SeedIdsDistinct` | jsondb.go:535-538 | Seeds with different digests get different identifiers. |
| `Locks.GetOrCreate` | jsondb.go:505-519 | The key is present afterwards. An existing handle is returned and kept. A new key gets the new handle. No other key changes. |
| `Locks.GetOrCreateIdempotent` | jsondb.go:510-516 | A second lookup returns what the first stored and changes nothing. |
| `Paths.Join` | jsondb.go:98-99 | `filepath.Join` of two elements: joining with an empty element gives the other element unchanged. How two non-empty elements are laid out is stated by `Paths.JoinParts`. Clean-up by `filepath.Clean` is not modelled (see "Left out"). |
| `Paths.JoinParts` | jsondb.go:98-99 | A join of two non-empty elements is the first, one separator, then the second. It lies in the first's tree. When the second is a single name, the first is its parent and the second its last element. |
| `Paths.JoinAssoc` | jsondb.go:432-439 | `Join(Dir, Join(collection, resource))` is `Join(Dir, collection, resource)`. |
| `FileSys.Resolve` | jsondb.go:496-498 | A resolved entry exists and is not a link. A missing path is missing. A non-link resolves to itself. |
| `FileSys.Follow` | jsondb.go:496-498 | A link's absolute text names that path; a relative text names a path inside the directory holding the link. |
| `FileSys.Stat` | jsondb.go:496-498 | Ok exactly when the path resolves, never to a link, and then gives the entry links lead to. Errors name the path. A missing path gives ENOENT; a link chain longer than 40 hops gives ELOOP. |
| `FileSys.SelfLinkLoops` | jsondb.go:486-487 | A link holding its own absolute path never resolves. |
| `FileSys.ReadFile` | jsondb.go:144 | A regular file's bytes, through links. Success means Stat finds that regular file, and whenever Stat finds a regular file ReadFile returns its bytes. A directory gives EISDIR; Stat's errors pass through. Errors name the path. |
| `FileSys.WriteFile` | jsondb.go:114 | Failure changes nothing. Success replaces the entry the path resolves to and makes ReadFile return the bytes. Fails with EISDIR on a directory and ENOENT without a parent. |
| `FileSys.Rename` | jsondb.go:119 | Failure changes nothing. A missing source gives ENOENT. An existing directory at the destination gives EEXIST. A non-directory passes when the destination is not a directory and its parent is, and moves there, replacing what was there. A directory passes onto a free name with a directory parent outside its own tree, and its whole tree moves. |
| `FileSys.MoveTree` | jsondb.go:119 | Renaming a directory moves its whole tree; entries outside both trees stay. |
| `FileSys.Remove` | jsondb.go:486 | Removes exactly the one entry unless it is missing or a non-empty directory; failure changes nothing. |
| `FileSys.RemoveAll` | jsondb.go:449-453 | Always succeeds. Removes exactly the tree under the path. Keeps every other entry unchanged. |
| `FileSys.CreateSymlink` | jsondb.go:482-487 | Succeeds exactly when the link name is free and its parent exists. Adds just that link. |
| `FileSys.Mkdir` | jsondb.go:72 | The step `os.MkdirAll` repeats: passes exactly when the name is free and its parent is a directory. Success adds just that directory; failure changes nothing. |
| `FileSys.MkdirAll` | jsondb.go:72 | Success leaves a directory at the path. An existing directory is left alone. An existing non-directory gives ENOTDIR. A missing path whose parent is a directory is created and nothing else changes. Only adds directories on the way to the path. |
| `FileSys.MkdirAllMakes` | jsondb.go:72 | When each missing name on the way up ends at a directory or the root, MkdirAll succeeds and creates every missing directory down to the path. |
| `FileSys.MkdirAllKeepsLonger` | jsondb.go:72 | MkdirAll leaves every name longer than the path as it was. |
| `FileSys.ReadDir` | jsondb.go:203 | The names are sorted and distinct. Ok exactly when the path is a directory. |
| `FileSys.ReadDirNames` | jsondb.go:203 | The names are exactly the entries directly inside the directory. |
| `Order.SortedNames` | jsondb.go:203 | A sorted, duplicate-free sequence holding exactly the given names. |
| `FileSys.WriteFileKeepsShape` | jsondb.go:114 | Writing a file keeps every entry inside an existing directory. |
| `FileSys.MkdirKeepsShape` | jsondb.go:72 | Making one directory keeps every entry inside an existing directory. |
| `FileSys.MkdirAllKeepsShape` | jsondb.go:72 | Making the directories on the way to a path keeps every entry inside an existing directory. |
| `FileSys.CreateSymlinkKeepsShape` | jsondb.go:482-487 | Making a link keeps every entry inside an existing directory. |
| `FileSys.RemoveKeepsShape` | jsondb.go:486 | Removing one entry cannot orphan another. |
| `FileSys.RemoveAllKeepsShape` | jsondb.go:449-453 | Removing a tree cannot orphan an entry outside it. |
| `FileSys.RenameKeepsShape` | jsondb.go:119 | Renaming keeps every entry inside an existing directory. |
| `FileSys.MoveTreeKeepsShape` | jsondb.go:119 | Moving a directory's tree to a free name in an existing directory, outside the tree itself, keeps every entry inside an existing directory. |
| `FileSys.RebaseParent` | jsondb.go:119 | A moved entry's new parent is its old parent, moved. |
| `JsonDb.InitCollectionKeepsShape` | jsondb.go:63-77 | InitCollection keeps every entry inside an existing directory. |
| `JsonDb.StoreKeepsShape` | jsondb.go:113-119 | Writing the temporary file and renaming it keep every entry inside an existing directory. |
| `JsonDb.PutKeepsShape` | jsondb.go:81-120 | Put keeps every entry inside an existing directory. |
| `JsonDb.DeleteKeepsShape` | jsondb.go:431-457 | Delete keeps every entry inside an existing directory. |
| `JsonDb.LinkKeepsShape` | jsondb.go:460-490 | Link keeps every entry inside an existing directory. |
| `FileSys.Touch` | vendor/github.com/rocksolidlabs/afero-replicate-on-write/replicateOnWrite.go:41-42 | Chmod or Chtimes on the local filesystem: succeeds exactly when the name resolves, and changes nothing modelled. |
| `Replicate.Name` | vendor/github.com/rocksolidlabs/afero-replicate-on-write/replicateOnWrite.go:137-139 | Always "ReplicateOnWriteFs". |
| `Replicate.StatIgnoresLayer` | vendor/github.com/rocksolidlabs/afero-replicate-on-write/replicateOnWrite.go:47-53 | Stat's answer depends neither on the layer's state nor on its calls. |
| `Replicate.Chtimes` | vendor/github.com/rocksolidlabs/afero-replicate-on-write/replicateOnWrite.go:23-33 | Fails, changing nothing, exactly when the base's Stat fails, with that error. Otherwise both stores are updated and it passes. |
| `Replicate.Chmod` | vendor/github.com/rocksolidlabs/afero-replicate-on-write/replicateOnWrite.go:35-45 | Fails, changing nothing, exactly when the base's Stat fails, with that error. Otherwise both stores are updated and it passes. |
| `Replicate.Rename` | vendor/github.com/rocksolidlabs/afero-replicate-on-write/replicateOnWrite.go:55-65 | Fails, changing nothing, exactly when the base lacks the old name. Otherwise renames in both stores and passes, whatever they answered. |
| `Replicate.Remove` | vendor/github.com/rocksolidlabs/afero-replicate-on-write/replicateOnWrite.go:67-71 | Always passes, having removed in both stores. |
| `Replicate.RemoveAll` | vendor/github.com/rocksolidlabs/afero-replicate-on-write/replicateOnWrite.go:73-77 | Always passes, having removed the tree in both stores. |
| `Replicate.MkdirAll` | vendor/github.com/rocksolidlabs/afero-replicate-on-write/replicateOnWrite.go:141-148 | Always passes. A name the base has (directory or not) changes nothing. Otherwise MkdirAll runs in both stores. |
| `Replicate.Mkdir` | vendor/github.com/rocksolidlabs/afero-replicate-on-write/replicateOnWrite.go:128-135 | The same as MkdirAll. |
| `Replicate.Create` | vendor/github.com/rocksolidlabs/afero-replicate-on-write/replicateOnWrite.go:150-161 | A base failure is returned with whatever the base's call left behind, and the layer is untouched. Otherwise both stores take their Create. It passes exactly when both do. |
| `Replicate.OutcomesIgnoreInnerCalls` | vendor/github.com/rocksolidlabs/afero-replicate-on-write/replicateOnWrite.go:23-148 | Every call but Create reports the same outcome for any two wrappers whose bases agree on the guarded Stat, whatever the stores answer. |
| `Replicate.WritesKeepReplicasEqual` | vendor/github.com/rocksolidlabs/afero-replicate-on-write/replicateOnWrite.go:23-148 | Two equal copies of one filesystem stay equal through every write but Create. |
| `Replicate.CreateKeepsReplicasEqual` | vendor/github.com/rocksolidlabs/afero-replicate-on-write/replicateOnWrite.go:150-161 | Create keeps two equal copies equal when a failing create leaves the store as it was. |
| `Replicate.LocalCreateKeepsReplicasEqual` | vendor/github.com/rocksolidlabs/afero-replicate-on-write/replicateOnWrite.go:150-161 | The local filesystem's failing create changes nothing, so Create keeps two equal local copies equal. |
| `Replicate.LocalRemoveAllClearsBoth` | vendor/github.com/rocksolidlabs/afero-replicate-on-write/replicateOnWrite.go:73-77 | On two local stores, RemoveAll passes and empties the tree in both. |
| `Replicate.LocalMkdirAll` | vendor/github.com/rocksolidlabs/afero-replicate-on-write/replicateOnWrite.go:141-148 | On two local stores, a name the base lacks becomes a directory in the base when the base's MkdirAll succeeds. A name the base has changes nothing. |
| `Replicate.LocalRenameDrifts` | vendor/github.com/rocksolidlabs/afero-replicate-on-write/replicateOnWrite.go:60-64 | A rename the layer cannot do is dropped silently: Rename passes while the stores now differ. |
| `FileSys.Create` | vendor/github.com/rocksolidlabs/afero-replicate-on-write/replicateOnWrite.go:151-155 | `os.Create` as each local store runs it. A failure changes nothing. Success leaves an empty file readable at the name, and only the file the name resolves to changes. A free name in an existing directory, or a regular file, always succeeds. A directory gives EISDIR; a free name whose parent is missing gives ENOENT. |
| `Replicate.LocalCreateKeepsBaseFile` | vendor/github.com/rocksolidlabs/afero-replicate-on-write/replicateOnWrite.go:155-158 | A Create the layer refuses is reported, but the base keeps the new file. |

### Behaviour of the code worth knowing

- **Partial results.** GetAll, GetWhere and GetWhereNot append each decoded element to the caller's slice before they read the next file (jsondb.go:265-266, 421-422). Elements appended before a failure therefore stay visible next to the error. A `Scan` carries both the appended records and the error (`JsonDb.GetAll`, `Scanning.WhereUnboundedFailure`).
- **GenID is not uniform.** Each random byte is taken modulo 62, and 256 is not a multiple of 62. `Ids.PreimageSize` shows that `0` to `7` each come from five byte values and the other 54 symbols from four.
- **Limit 0.** The limit is checked after every file. With a limit of 0 the scan stops after the first file only when that file did not match. Otherwise `numFound` is already 1 and the scan never stops (`Scanning.WhereZeroLimit`).

## Findings

| source | as written | input that shows it | evidently intended | confidence | as-written member | corrected member |
|---|---|---|---|---|---|---|
| jsondb.go:478-487 | The link text, in both the collection branch (line 480) and the record branch (line 485), is the source path joined from the data directory. The kernel reads a relative link text inside the link's own directory, so under a relative data directory the link names a path that does not exist. | `NewJSONDB("data")` with record `people/x`, then `Link("people", "x", "people", "y")` and `GetBytes("people", "y")` | The destination reads back the source record, for instance by making the data directory absolute before use | medium; not executed | `JsonDb.LinkDanglesUnderRelativeDir` | `JsonDb.AbsoluteDataDir` (with `JsonDb.LinkUnderAbsoluteDataDir`) |

## Left out

- Real I/O: `os`, `ioutil` and `afero` are replaced by the map of `FileSys`. Permission bits, modification times and file handles are not modelled.
- `filepath.Clean` and the `..`, `.` and doubled-slash forms it removes: paths are joined by plain concatenation.
- JsonDb.RecordPaths, JsonDb.PutThenGetBytes, JsonDb.PutThenGet: the round trip is stated for joined names as written; a name that `filepath.Clean` rewrites (a trailing `/`, `.`, `..`) is not covered, because Clean is not modelled.
- Links inside a path: only a link at the last element of a path is followed. A path that goes through a linked collection (`Link` of a directory) to a record inside it is looked up literally. So the model finds nothing there, while the operating system would follow the link.
- Concurrency: the locks' mutual exclusion, the interleaving of readers and writers, and the copy of `sync.Mutex` that `getOrCreateMutex` returns by value (jsondb.go:26, 505-519). Only the table's find-or-create is modelled.
- JSON marshalling and unmarshalling and the `jsonq` lookups are parameters. Their behaviour is not modelled: the typed comparison of jsondb.go:235-251, including the float64 branch, becomes one fallible test. The ignored decode error at jsondb.go:225 is part of that test.
- Reflection: `toSliceType`, `toType`, `cloneValue`, `makeSlice`, `indirect`, `convert` and `convertType` (jsondb.go:540-605), and with them the error for a records argument that is not a pointer to a slice.
- `NewJSONDB` and all logging.
- `crypto/rand` and SHA-256 are inputs, as a byte stream and a hash function.
- ReplicateOnWriteFs `Open`, `OpenFile` and `UnionFile`: the file handle type is not part of this model.
- `numFound` is an `int64` in the code; the model uses unbounded integers, which agree with it for any listing shorter than 2^63.
- `FileSys.WriteFile`: writing through a dangling link fails with ENOENT, where the operating system would create the link's target.
- `JsonDb.PutFrame`, `JsonDb.PutThenGetBytes`, `JsonDb.PutThenGet` and `JsonDb.PutFailureKeepsRecord`: stated only when the `.tmp` name is not a link (and, for reads, the bare record name is not a link). Writing through such a link changes the link's target instead.
- `JsonDb.Query`, `JsonDb.GetWhere` and `JsonDb.GetWhereNot`: their own contracts give only the validation, the Stat error and the bound. Which records they return is stated by lemmas: `JsonDb.GetWhereLimited` (positive limit), `JsonDb.GetWhereUnlimited` (negative limit), `JsonDb.GetWhereUnlimitedFailure` (a failing file) and `JsonDb.WhereAndWhereNotSplitGetAll`.
- A path that runs through a regular file (`a/f/x` where `a/f` is a file): the model reports it missing (ENOENT) where the operating system reports ENOTDIR. For `JsonDb.Stat` this changes the control flow: ENOTDIR is not a not-exist error, so the code returns it without trying `path.json`, while the model falls back to `path.json`.
- `Replicate.CreateKeepsReplicasEqual`: stated only for stores whose failing create leaves them unchanged, which the local filesystem's does (`Replicate.LocalCreateKeepsReplicasEqual`). A store that keeps partial state after a failed create makes the base differ from the untouched layer.
- `JsonDb.LinkThenGetBytes`, `JsonDb.LinkOntoItself` and `JsonDb.LinkThenDeleteSourceDangles`: stated under an absolute data directory. Under a relative one, the link Link makes does not lead to the source (see "Findings").
- `Replicate.Stat`: stated through `Replicate.StatIgnoresLayer` rather than a contract of its own.
- `FileSys.Entry` has a `Special` kind for files that are neither directories, regular files nor links. Without it, the "any other kind" branches of Delete and Link could not be reached, because Stat follows links.

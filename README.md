# Zipline datasources: the Ddrv adapter's reply interpretation and the datasource selector

Zipline stores uploaded files through a `Datasource`: one adapter per storage
technology, chosen once per process from configuration. This project models two
deterministic pieces of that layer.

- **The Ddrv adapter** (`src/lib/datasources/Ddrv.ts`, module `DdrvAdapter` in
  `ddrv.dfy`). Ddrv is a remote file service that addresses files by opaque id inside
  a directory. Every remote reply is taken as an abstract value: a directory
  `Listing` (its `error` field and `data.files`, each an `Entry(id, name, size, dir)`)
  or a `FileReply` to a metadata request, which is either an object envelope or an array. Three functions then interpret these replies
  as the adapter's callbacks do:
  - `ResolveId` is name-to-id resolution (`getIdFromName`).
  - `FullSize` is the aggregate size (`fullSize`).
  - `Size` is the size of one file (`size`): resolution, then `FileSize` on the metadata reply.
  Each callback calls `res(...)` several times in a row, and only the first call
  settles the Promise. The model therefore returns early, in source order: the error
  envelope first, then the empty listing, then the search or the fold.
  `if (j.error)` is JavaScript truthiness, so an empty error string counts as no
  error (`Failed`). `clear` is modelled as the sequence of requests it issues.
- **The selector** (`src/lib/datasource.ts`, module `DatasourceSelector` in
  `datasource.dfy`). The process-wide slot `global.datasource` is the field of class
  `Global`. `Global.Load` is the module's top-level code. If the slot is already set,
  nothing is built. Otherwise the discriminator (`s3 | local | supabase | ddrv`) picks
  exactly one constructor, and that constructor gets its own sub-configuration. Any
  other discriminator throws "Invalid datasource type" and leaves the slot empty.
  After a successful load, the default export is whatever the slot holds.

`wrappers.dfy` holds the `Option` and `Result` datatypes.

## Model

| member | source | states |
|---|---|---|
| `DdrvAdapter.Failed` | src/lib/datasources/Ddrv.ts:162 | the truthiness test `if (j.error)` used at lines 104, 129 and 162: an absent error and an empty error string are both falsy; the contracts of `ResolveId`, `FullSize` and `FileSize` state what it decides |
| `DdrvAdapter.Matches` | src/lib/datasources/Ddrv.ts:174-179 | the predicate handed to `find`: a directory never matches, a file matches when its name equals the request exactly; `FindIndex` and `DirectoryNeverResolves` carry what is proved about it |
| `DdrvAdapter.FindIndex` | src/lib/datasources/Ddrv.ts:173-180 | the position `find` stops at is the first entry that is not a directory and whose name equals the request exactly; no earlier entry matches; if there is none, no entry matches |
| `DdrvAdapter.Find` | src/lib/datasources/Ddrv.ts:173-180 | `find` returns the entry at some position k that matches, with no matching entry before k, so it is the first match; it returns nothing exactly when no entry matches |
| `DdrvAdapter.ResolveId` | src/lib/datasources/Ddrv.ts:161-188 | an error envelope gives the empty sentinel whatever the listing holds; so does a listing with no matching file; a non-empty id is the id of a non-directory entry with the requested name |
| `DdrvAdapter.ResolveFirstMatch` | src/lib/datasources/Ddrv.ts:173-184 | on a readable listing, the result is the id of the first matching entry in listing order |
| `DdrvAdapter.ResolveIgnoresLaterEntries` | src/lib/datasources/Ddrv.ts:173-184 | once a listing holds a match, entries appended after it never change the resolved id, so a later duplicate is never chosen |
| `DdrvAdapter.FindIgnoresDirectories` | src/lib/datasources/Ddrv.ts:174-179 | `find` returns the same entry on the listing as on the listing with every directory removed |
| `DdrvAdapter.ResolveIgnoresDirectories` | src/lib/datasources/Ddrv.ts:168-188 | resolution gives the same id on a listing as on that listing with all directories removed, including the empty-listing case |
| `DdrvAdapter.DirectoryNeverResolves` | src/lib/datasources/Ddrv.ts:174-179 | inserting a directory entry anywhere, even one named like the request, leaves the resolved id unchanged |
| `DdrvAdapter.Step` | src/lib/datasources/Ddrv.ts:140-143 | the reducer of `fullSize`: adds the entry's size unless it is a directory; `ReduceSumsNonDirs` and `FullSizeAppend` carry what is proved about it |
| `DdrvAdapter.Reduce` | src/lib/datasources/Ddrv.ts:139-144 | `files.reduce(Step, total)` as a left fold in listing order; the running total never decreases; `ReduceSumsNonDirs` proves what it sums |
| `DdrvAdapter.ReduceSumsNonDirs` | src/lib/datasources/Ddrv.ts:138-145 | the `reduce` left fold adds to its start value exactly the sum of the sizes of the non-directory entries |
| `DdrvAdapter.FullSize` | src/lib/datasources/Ddrv.ts:128-146 | 0 on an error envelope (the first resolution wins) and on an empty listing; otherwise the sum of the sizes of the non-directory entries |
| `DdrvAdapter.FullSizeAppend` | src/lib/datasources/Ddrv.ts:139-144 | appending an entry adds its size if it is a file and 0 if it is a directory |
| `DdrvAdapter.FullSizeConcat` | src/lib/datasources/Ddrv.ts:138-145 | the aggregate size of two concatenated listings is the sum of their aggregate sizes |
| `DdrvAdapter.FullSizeIgnoresDirectories` | src/lib/datasources/Ddrv.ts:140-143 | removing every directory entry from a listing leaves the aggregate size unchanged |
| `DdrvAdapter.FullSizeCountsEachFile` | src/lib/datasources/Ddrv.ts:138-145 | on a readable listing, each file's size is at most the aggregate size |
| `DdrvAdapter.FullSizeZero` | src/lib/datasources/Ddrv.ts:134-145 | on a readable listing, the aggregate is 0 exactly when every non-directory entry has size 0, so an empty folder and a folder of empty files cannot be told apart |
| `DdrvAdapter.FileSize` | src/lib/datasources/Ddrv.ts:103-113 | the call never settles exactly when the reply is a non-empty array (it has no `data`, so reading `data.size` throws before any `res`); it reports 0 exactly for an error envelope, an empty array or an envelope whose file has size 0; any other result is `data.size` of an error-free envelope |
| `DdrvAdapter.Size` | src/lib/datasources/Ddrv.ts:92-116 | an error-free metadata envelope for the resolved id gives `data.size`, and a non-zero size can come only from one; the call stays pending exactly when the reply for the resolved id is a non-empty array; an unresolved name still sends a request, for the empty id, and gets whatever `FileSize` makes of that reply |
| `DdrvAdapter.SizeOfFirstMatch` | src/lib/datasources/Ddrv.ts:92-113 | end to end: on a readable listing whose first match is at k, `size` reports the `data.size` of the error-free metadata envelope for that entry's id |
| `DdrvAdapter.ZeroSizeIsAmbiguous` | src/lib/datasources/Ddrv.ts:104-113 | every error envelope, the empty array and every error-free envelope of a zero-byte file report the same 0 |
| `DdrvAdapter.ClearRequests` | src/lib/datasources/Ddrv.ts:43-74 | clear always deletes the configured directory first; it creates a directory only when the delete reply has no error; that directory is literally named `zipline` under the parent, not after the bucket |
| `DatasourceSelector.Construct` | src/lib/datasource.ts:8-27 | the switch succeeds exactly for `s3`, `local`, `supabase` and `ddrv`; the adapter has the requested kind and is built from its own sub-configuration; any other value throws "Invalid datasource type" |
| `DatasourceSelector.ConstructIsUnique` | src/lib/datasource.ts:8-24 | any adapter of the requested kind that is built from its own sub-configuration is the one constructed |
| `DatasourceSelector.ConstructReadsOwnPartOnly` | src/lib/datasource.ts:8-24 | two configurations with the same discriminator and the same selected sub-configuration give the same adapter |
| `DatasourceSelector.Global.constructor` | src/lib/datasource.ts:32-35 | a process starts with the slot empty |
| `DatasourceSelector.Global.Load` | src/lib/datasource.ts:7-30 | a set slot is left unchanged and exported; an empty slot is filled with the constructed adapter, which is then exported; an unknown discriminator throws and leaves the slot empty |
| `DatasourceSelector.LoadTwice` | src/lib/datasource.ts:7-30 | after a successful load, a second load with any configuration exports the same instance and leaves the slot unchanged |

## Left out

- Every `fetch`, URL, bearer header and JSON parse. Remote replies are parameters: `Listing` and `FileReply` values, and in `Size` a function from id to reply.
- An error-free object envelope without `data`, for a listing or for metadata. In the source the callback then throws before any `res(...)` and the Promise never settles. The model assumes every error-free envelope carries its data. An array metadata reply, which has no `data`, is modelled (`FileSize`).
- The callbacks keep running after the first `res(...)`. An error envelope (`{error, message}`) has no `data`, so after resolving with the sentinel the callback throws a TypeError at `j.data.size` (src/lib/datasources/Ddrv.ts:112), `j.data.files` (line 134) or `j.data.files` (line 168). That rejects a promise chain nobody awaits, an unhandled rejection. The model stops at the first `res(...)` and does not model that rejection; the values it returns are unaffected.
- `save`: it uploads a `FormData` body and only logs an error reply. It has no local logic.
- `get`: resolution (`ResolveId`), then a download wrapped in a Node stream. Only the resolution is modelled.
- `delete`: resolution (`ResolveId`), then a DELETE whose reply is ignored. Only the resolution is modelled. It is sent even for the empty id.
- `clear` is modelled only as the requests it issues (`ClearRequests`). The remote directory tree, the create reply (whose error is only logged) and transport failures are not modelled. Because of this, the model does not show that the recreated directory gets a new id while the adapter keeps the old `bucket` id.
- Sizes are unbounded naturals. JavaScript numbers lose precision above 2^53, and that is not modelled.
- Logger calls, and the logging of the chosen backend in the selector.
- The S3, Local and Supabase adapters and the configuration loader are not part of this model. Their configurations appear only as the values their constructors receive.
- `Global.Load`: a thrown error ends the process in the source. The model returns `Failure` and leaves the slot empty, so a later load in the same model would try again.

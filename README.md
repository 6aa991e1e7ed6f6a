# Local upload provider, modelled in Dafny

This project models the local-disk upload provider of a content-management
framework (`lib/index.js`). `init` checks that the `uploads` folder below the
public directory exists and fixes the size limit, which defaults to 1000000
bytes. It returns three operations. `upload` stores a buffer and
`uploadStream` stores the bytes of a stream. Both first apply the size guard
`verifySize`. Then they take the namespace from the file's declared name: the
capture of the leftmost match of `::(\w*)::`, where an empty capture counts as
no namespace. They create the namespace directory if it is missing, write
`<uploads>/[<namespace>/]<hash><ext>`, and on success set `file.url` to
`/uploads/[<namespace>/]<hash><ext>`. `delete` removes
`<uploads>/<hash><ext>` and never looks in a namespace directory. A file that
is not there is no error: `delete` then resolves with "File doesn't exist".

The project has four modules:

- `Wrappers` (wrappers.dfy) holds Option, Result and Outcome.
- `Paths` (paths.dfy) is pure. It models the pattern `::(\w*)::` exactly: a
  declarative match predicate, the matcher's left-to-right scan with greedy
  `\w*`, and `exec`'s leftmost match. On top of that it derives the namespace,
  the storage location, the absolute path and the URL, and gives the URL an
  inverse.
- `Storage` (storage.dfy) states each operation's effect as a function on an
  abstract disk. The disk is a set of namespace directories and a map from
  location (optional namespace, file name) to bytes. The lemmas relating
  several operations are here.
- `Provider` (provider.dfy) has the objects. `FileSystem` holds the disk
  state. `UploadFile` is the caller's file object, whose `url` a store writes.
  `LocalProvider` is what `init` returns. Its methods change that state step
  by step, as the source does, and each method's postcondition says its
  effect is exactly that of the corresponding Storage function.

Anything the platform decides is a parameter of the operation:
- `StoreEnv.mkdir`: whether `mkdirSync` throws.
- `StoreEnv.write`: whether the write or the pipe completes, and what a
  failed write leaves in the target.
- `unlink`: whether the unlink fails.
- `folderExists`: whether the uploads folder exists at `init`.

The public directory is a parameter of `init`.

## Model

| member | source | states |
|---|---|---|
| `Paths.WordRunEnd` | lib/index.js:36 | greedy `\w*` from index j stops at the first character that is not an ASCII letter, digit or `_`; everything before it is a word character |
| `Paths.CaptureIsWordRun` | lib/index.js:36 | any match at index i captures exactly the maximal word run after the opening `::` (backtracking cannot yield another capture) |
| `Paths.MatchAt` | lib/index.js:36-37 | the matcher trying a single start index; characterised by `Paths.MatchAtCharacterised` |
| `Paths.MatchAtCharacterised` | lib/index.js:36-37 | trying index i finds a match exactly when `::tok::` with word-character `tok` occurs at i, and then `tok` is the only possible capture |
| `Paths.FirstMatchFrom` | lib/index.js:37 | the scan returns a match at or after `from`, and no index between `from` and it (or after `from` at all, when it returns none) matches |
| `Paths.Exec` | lib/index.js:36-37 | `exec` on a fresh pattern returns the leftmost match, or none when the pattern matches nowhere |
| `Paths.LeftmostMatchIsUnique` | lib/index.js:37 | there is at most one leftmost match (index and capture) |
| `Paths.Namespace` | lib/index.js:36-37 | the namespace is the leftmost match's capture when that is non-empty, otherwise there is none; when there is no match there is none; a namespace is non-empty, made of ASCII letters, digits and `_`, and contains no `:` or `/` |
| `Paths.EmptyCaptureHidesLaterToken` | lib/index.js:37-41 | when the leftmost match captures the empty string, every non-empty `::tok::` lies further right and the name has no namespace |
| `Paths.NoNamespaceExample` | lib/index.js:36-41 | `photo.png` has no namespace |
| `Paths.NamespaceExample` | lib/index.js:36-41 | `::user42::avatar.png` has the namespace `user42` |
| `Paths.EmptyCaptureExample` | lib/index.js:36-41 | `::::x::` has no namespace even though `::x::` occurs in it |
| `Paths.TargetLocation` | lib/index.js:40-44 | the file name is `hash + ext`, and the location is the flat one that `delete` uses exactly when there is no namespace (same for `upload`, lib/index.js:71-75) |
| `Paths.FlatLocation` | lib/index.js:94 | the location `delete` looks at: `hash + ext` directly in the folder; by `Paths.TargetLocation` it coincides with a store's location only for a store without namespace |
| `Paths.UploadPath` | lib/index.js:14-25 | the uploads folder `<publicRoot>/uploads`; `Paths.UrlMirrorsDiskPath` ties it to the URLs |
| `Paths.DiskPath` | lib/index.js:40-44 | the path written to, `<uploadPath>/[<ns>/]<hash><ext>` (the same join at lib/index.js:71-75): it lies below the uploads folder and ends with the file name; segments are joined with `/` and not normalised; `Paths.UrlMirrorsDiskPath` ties it to the URL |
| `Paths.Url` | lib/index.js:55-57 | the URL starts with `/uploads/` and ends with `hash + ext` (the same text at lib/index.js:84-86); `Paths.UrlRoundTrip` shows it determines the storage location and `Paths.UrlMirrorsDiskPath` that it mirrors the path on disk |
| `Paths.UrlMirrorsDiskPath` | lib/index.js:25-57 | the path the file is written to is the public directory followed by the URL reported for it, with and without namespace |
| `Paths.UrlRoundTrip` | lib/index.js:55-57 | the URL gives back the storage location (namespace and `hash + ext`), provided the namespace, and for a flat file its name, has no `/` |
| `Storage.InitMessage` | lib/index.js:27-29 | the error text of a failed `init` contains the missing folder's path, right after its fixed opening |
| `Storage.InitSettings` | lib/index.js:17-31 | `init` succeeds exactly when `<publicRoot>/uploads` exists; the size limit is the configured one, or 1000000 when none is given; a failure names `<publicRoot>/uploads` |
| `Storage.Store` | lib/index.js:64-90 | size above the limit rejects with PayloadTooLarge and changes nothing, and only such a size does; past the guard, when the namespace directory is missing and `mkdirSync` throws, the store rejects with that error and changes nothing (an existing directory never calls `mkdirSync`); otherwise a completed write succeeds whatever is on disk, and a failed write rejects with the platform's own error, the target then holding what the write left (or its old contents) and the namespace directory made; on success the target holds the payload, the namespace directory exists and the URL mirrors the location; no file but the target changes; the only directory that can appear is the namespace's; a disk with no file in a missing directory stays so |
| `Storage.Remove` | lib/index.js:92-108 | directories never change; no file but `<hash><ext>` in the folder itself changes; if that file is absent the disk is unchanged and the result is "File doesn't exist"; if it is present, a failed unlink rejects with exactly that error and leaves the disk as it was, and a successful unlink removes the file and resolves without a message |
| `Storage.SizeAllowed` | lib/index.js:18-22 | `verifySize`: the guard admits a size unless it exceeds the limit; `Storage.SizeLimitIsInclusive` shows the limit itself is admitted |
| `Storage.MakesDir` | lib/index.js:43 | `existsSync` first, `mkdirSync` only if that is false: the directory is made only for a namespace whose directory is missing (lib/index.js:74 likewise); its effect is stated in `Storage.Store` |
| `Storage.SizeLimitIsInclusive` | lib/index.js:18-22 | a size equal to the limit passes the guard and one more byte does not |
| `Storage.StoreSucceeds` | lib/index.js:70-89 | a store the guard admits, whose write completes and whose `mkdirSync` does not fail when it is called at all, adds the namespace directory if missing, puts the payload at the target, reports the URL and changes nothing else |
| `Storage.StoreFlat` | lib/index.js:70-89 | a successful store of a name without namespace creates no directory, writes `<hash><ext>` in the folder itself with the payload, reports `/uploads/<hash><ext>` and changes nothing else |
| `Storage.StoreUnderNamespace` | lib/index.js:72-86 | a successful store under namespace `n` creates `n` if missing, writes `<n>/<hash><ext>` with the payload, reports `/uploads/<n>/<hash><ext>` and changes nothing else |
| `Storage.PayloadDecidesOnlyContents` | lib/index.js:36-57 | for two payloads with the same name, hash, ext, size and platform answers, outcome (URL or error) and directories are identical and the disks differ at most at the target |
| `Storage.SecondStoreOverwrites` | lib/index.js:71-79 | after a successful store, a second store to the same (namespace, hash, ext) that the guard admits and whose write completes reports the same URL without error (its `mkdirSync` is never reached, the directory now existing) and leaves the disk as one store of the second payload would |
| `Storage.DeleteMissesNamespacedFile` | lib/index.js:92-108 | after a successful namespaced store, `delete` of the same hash and ext leaves that file with its contents, whatever the unlink does |
| `Storage.DeleteUndoesFlatStore` | lib/index.js:92-108 | after a successful flat store, a successful `delete` resolves without message and removes exactly that file |
| `Storage.FlatStoreExample` | lib/index.js:70-89 | `photo.png` with hash `abc123` and ext `.png` is stored as `abc123.png` in the folder and gets the URL `/uploads/abc123.png` |
| `Storage.NamespacedStoreExample` | lib/index.js:70-89 | `::user42::avatar.png` creates `user42`, is stored as `user42/abc123.png` and gets the URL `/uploads/user42/abc123.png` |
| `Provider.UrlAfter` | lib/index.js:55-57 | `file.url` is set to the URL only in the success callback and left as it was on failure (likewise lib/index.js:84-86) |
| `Provider.Reported` | lib/index.js:52-59 | the promise resolves exactly when the store succeeded, and a rejection carries the store's error (likewise lib/index.js:81-88) |
| `Provider.LocalProvider.Init` | lib/index.js:17-31 | returns a provider over the given filesystem with the settings `InitSettings` gives, or its error; it modifies nothing, so it never creates the folder |
| `Provider.LocalProvider.Upload` | lib/index.js:64-90 | the filesystem ends as `Store` of the buffer says; the caller gets `Store`'s outcome; `file.url` is set to the URL only on success; a consistent filesystem stays consistent |
| `Provider.LocalProvider.UploadStream` | lib/index.js:33-63 | the same postcondition as `Upload` with the streamed bytes in place of the buffer, so both derive the same location, directory and URL |
| `Provider.LocalProvider.Delete` | lib/index.js:92-108 | the filesystem ends as `Remove` says, and the result is `Remove`'s outcome |

## Left out

- Real filesystem calls are not modelled (`pathExistsSync`, `existsSync`, `mkdirSync`, `writeFile`, `createWriteStream`, `unlink`). Their answers are parameters: whether `mkdirSync` throws, whether the write ends cleanly and what a failed write leaves, and whether `unlink` fails.
- Stream mechanics are not modelled (`pipeline`, backpressure, the Promise and callback plumbing). A stream is the byte sequence it delivers. A failing source stream is a failed write.
- A synchronous throw and a rejected promise are not distinguished. `verifySize` throws before any promise exists; both are the error outcome.
- Concurrency is not modelled. That covers the check-then-create race on a namespace directory and last-writer-wins between simultaneous stores.
- Path normalisation by `path.resolve` and `path.join` is not modelled. A `/` or `..` inside `hash` or `ext` is not interpreted, and the file name is the opaque string `hash + ext`.
- Name clashes between a file and a directory in the uploads folder are not modelled. The source's existence checks do not tell files from directories: a flat file named like a namespace makes the later write fail, and a directory named `hash + ext` makes `delete` attempt an unlink that fails. The model checks namespaces against directories only and `delete` against files only. The failing write is still one of the parameterised outcomes.
- Removal of the uploads folder after `init` is not modelled, nor is its re-creation by a recursive `mkdirSync`.
- `file.size` is an integer. JavaScript values such as `NaN` or `undefined`, which make `size > sizeLimit` false, are not modelled. Neither is interpolating an undefined `hash` or `ext` as the text `undefined`.
- The `config` parameter of `upload` and `uploadStream` is unused by the source and omitted.
- The framework's public directory and the internals of `PayloadTooLargeError` are not part of this model. The former is a parameter and the latter is a tag.

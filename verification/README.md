# Drive-to-bucket tree sync, modelled in Dafny

The system mirrors three Google Drive folder trees into one Google Cloud
Storage bucket. The bucket has a flat namespace, so each folder tree is
flattened into object keys. `process_drive_folder` walks a folder in listing
order:
- A subfolder is walked recursively. Its prefix is the current prefix, a
  slash, and the subfolder's name.
- A file is stored under the key `prefix + "/" + name`. If that key already
  exists in the bucket, the file is skipped.
- Otherwise the file is downloaded and then uploaded. A failed upload is
  caught and the walk goes on. A failed download propagates and ends the
  run.

`main` walks the three roots `yelp`, `metadata` and `reviews`, in that order,
against the same bucket.

The model is made of pure functions over immutable data:

- `DriveTree` holds the source side.
  - A `Node` is either a `Folder` with its listed children or a `File`.
  - `Key` builds a key.
  - `Flatten` lists the walk's files in depth-first listing order, with their
    keys.
  - `Entries`, `Path` and `Join` give a second description of the keys, as
    the prefix followed by the names along the file's path.
  - `Holds` states reachability directly on the tree: a File node is reached
    along a path of names.
- `Bucket` holds the destination side.
  - The bucket is a `set<string>` of keys.
  - `Faults` says which calls raise, by the Drive id of the file being
    transferred: its download, or the upload of its downloaded copy.
    Each file's upload call can therefore fail or succeed on its own, even
    when two files share a key.
  - `Sync` is the state the walk threads: the bucket, a log of `Outcome`s
    (`Skipped`, `Transferred`, `Failed`, `Aborted`), and whether the run has
    stopped.
  - `Visit` is the step for one file: the existence check, then download and
    upload.
- `Walker` holds the recursive walk `Walk` and the flat scan `Replay`. It
  proves that the two agree, and proves coverage, bucket growth, prediction
  and idempotence.
- `KeyUniqueness` covers trees where sibling names differ and contain no
  slash. In such a tree every file gets its own key. It also gives a concrete
  collision when a name contains a slash.
- `Driver` is `main`'s run over the three roots.
- `Scenarios` holds small concrete runs.

## Model

| member | source | states |
|---|---|---|
| DriveTree.Key | main.py:73-76 | An item's key is the prefix, then exactly one `/`, then the name, with no normalisation. The key's length is the sum of the parts plus one. |
| DriveTree.Flatten | main.py:63-83 | Every file key produced under a prefix begins with that prefix and a slash, at any depth. |
| DriveTree.FlattenLocatesEntries | main.py:70-76 | Each file's key is the root prefix followed by the names of the folders on its path and then its own name. This is the same as descending one `/` per level. |
| DriveTree.PathIsJoin | main.py:73-76 | Descending through folders `A`, ..., then file `n` from prefix `p` gives `p/A/.../n`. |
| DriveTree.HoldsIffEntry | main.py:65-76 | A File node is reachable from the listing along a path of names exactly when the walk's entries record that file with that path. Nothing reachable is left out and nothing unreachable is listed. |
| DriveTree.FlattenCountsFiles | main.py:65-76 | The walk's file list has exactly one entry per File node in the tree. |
| DriveTree.NestedFileKey | main.py:73-76 | A file `report.csv` in folder `A` under root `yelp` gets the key `yelp/A/report.csv`. |
| Bucket.Predict | main.py:76-83 | A file's outcome is keyed by its destination key. It is `Skipped` exactly when the key is already present. |
| Bucket.Visit | main.py:76-83 | A present key is skipped and the bucket is unchanged. An absent key that downloads and uploads is added. A failed upload is caught: the key stays absent and the run continues. A failed download stops the run with the bucket unchanged. A stopped run does nothing more. Each visit appends exactly one outcome. |
| Bucket.Upload | main.py:23-31 | An upload of a file's copy either adds the file's key or, when that call raises, reports failure and leaves the bucket unchanged. No other key is touched. |
| Walker.Walk | main.py:63-83 | The walk only extends the log and only adds keys to the bucket. A run that has already stopped is unchanged. |
| Walker.Replay | main.py:66-83 | A sequential scan extends the log by at most one outcome per file and only adds keys to the bucket. |
| Walker.ReplayAppend | main.py:66 | Scanning two lists in sequence is the same as scanning their concatenation, because the state is threaded from item to item. |
| Walker.WalkIsReplay | main.py:63-83 | The recursive walk equals a scan of its files in depth-first listing order, each under its flattened key. |
| Walker.ReplayCoverage | main.py:65-83 | Each file gets at most one outcome, in order, under its own key. If no download fails, every file gets one. A stopped run ends with the aborted file and has no outcome after it. |
| Walker.ReplayStore | main.py:25-31 | The bucket gains exactly the keys logged as transferred. A file logged as failed is one whose upload raised. A file logged as transferred is one whose upload did not raise. A skipped key is present. A key present before the scan, or transferred earlier in it, is only ever skipped afterwards, so no key is transferred twice. When no two files share a key, a failed key is absent afterwards. |
| Walker.ReplayTransfersOnce | main.py:76-80 | The existence check runs before every transfer, so a key is transferred at most once in a scan. Once the key is present, whether before the scan or through an earlier transfer in it, every later file with that key is skipped. |
| Walker.ReplayAllPresent | main.py:78-83 | If every key is already present, every file is skipped, nothing is uploaded, and the bucket is unchanged. |
| Walker.ReplayPredicts | main.py:76-83 | When keys are pairwise distinct, each outcome is decided by the bucket as it was when the scan started. |
| Walker.ReplayIdempotent | main.py:76-83 | Take a scan with no failed upload or download. Rescanning from the resulting bucket skips every file and changes nothing, whatever faults the second scan meets. |
| Walker.WalkCoverage | main.py:65-83 | Each outcome is for the file at the same position in depth-first listing order, under its key. If no download fails, every File node gets exactly one outcome. A tree with no files leaves the state unchanged. |
| Walker.WalkCoversReachable | main.py:65-83 | If no download fails, every File node reachable from the listing along a path of names has an outcome under the key that path gives. |
| Walker.WalkIdempotent | main.py:76-83 | Take a walk with no failures. A second walk of the same tree from the resulting bucket makes zero transfers and gives the same bucket. |
| Walker.WalkStore | main.py:78-81 | The bucket only grows, by exactly the transferred keys. Keys present before the walk are only ever skipped. A key transferred during the walk is only skipped afterwards. When no two files of the walk share a key, keys that failed to upload stay absent. |
| KeyUniqueness.JoinInjective | main.py:73-76 | Slash-free names joined by slashes can be read back, so different paths give different joined strings. |
| KeyUniqueness.PathInjective | main.py:73-76 | Different slash-free paths from the same prefix reach different keys. |
| KeyUniqueness.EntriesDistinct | main.py:65-76 | If sibling names are distinct and slash-free, every file has its own path of names. |
| KeyUniqueness.FlattenKeysDistinct | main.py:73-76 | In such a tree, the keys of one walk are pairwise distinct. Each key therefore meets the existence check at most once. When no download fails, `Walker.WalkCoverage` adds that it meets it exactly once. |
| KeyUniqueness.WalkPredicts | main.py:76-83 | In such a tree, each file's outcome is decided by the bucket as it was when the walk began. |
| KeyUniqueness.WalkFailedStaysAbsent | main.py:25-31 | In a tree with distinct, slash-free sibling names, a key whose upload failed is absent at the end of the walk. |
| KeyUniqueness.SlashInNameCollides | main.py:73-76 | A file `b` in folder `a` and a sibling file named `a/b` share the key `yelp/a/b`. The second file is skipped. |
| Driver.Run | main.py:96-102 | The three-root run only adds keys to the bucket. Keys present at the start are only ever skipped. A key transferred in one root's walk is only skipped afterwards, in that walk or a later root's. |
| Driver.RunIsReplay | main.py:96-102 | The run is one scan over the yelp, metadata and reviews files, in that order, threading one bucket. |
| Driver.RootsSeparate | main.py:96-102 | Keys from different roots never coincide. |
| Driver.RunCoverage | main.py:96-102 | Each outcome is for the file at the same position in run order, under its key. If no download fails, every file of the three trees gets exactly one outcome. |
| Driver.RunPredicts | main.py:96-102 | If all three trees have distinct, slash-free sibling names, every outcome is decided by the bucket at the start of the run. |
| Driver.RunIdempotent | main.py:96-102 | After a run with no failures, a second run from the resulting bucket transfers nothing and leaves the bucket unchanged. |
| Scenarios.NestedDescent | main.py:70-80 | Folder `sub` holding `x.txt` under root `metadata` produces one transfer to `metadata/sub/x.txt`. |
| Scenarios.PresentKeySkipped | main.py:78-83 | A present `reviews/x.json` is skipped without a download or upload, and the next sibling is transferred. |
| Scenarios.OneUploadFails | main.py:25-31 | When one of three sibling uploads fails, the other two are transferred, the failed key stays absent, and the run completes. |
| Scenarios.DownloadFailureStops | main.py:79 | A failed download ends the run before any later sibling is visited. |
| Scenarios.RepeatedKeyRetried | main.py:76-80 | Two sibling files with the same name share a key and make two upload calls. When the first raises and the second succeeds, the key logged as failed ends up present. |

The walk visits items in the order the listing returns them. The model
keeps that order.

A failed download is modelled as stopping the run:
- The exception propagates out of every recursive call and out of `main`.
- Nothing after it runs, not even the other roots.
- Uploads that already happened stay in the bucket.

## Left out

- Secret Manager access, credential parsing and client construction (main.py:17-21, 85-94): these are only SDK setup.
- Configuration from environment variables (main.py:11-15): the bucket name and the root folder ids play no part in the walk's logic. The model identifies each root by its listing.
- The Drive query and list call (main.py:33-37): a foreign call. A folder's `children` sequence stands for what one list call returns. The code reads only the first page of results. The model covers exactly the items returned, not any that a page limit would drop.
- Failures of the listing, of the existence check, and of removing the temporary file: these propagate and end the run. The model takes the tree and the existence check as given, so these calls cannot fail in it. Download failure is the only fatal failure modelled.
- Chunked download, progress reporting and the temporary file (main.py:39-55, 79, 81): byte I/O and a floating-point progress value. A download is modelled only by whether it raises.
- Object contents: the bucket is modelled by its set of keys. This matches the code's presence-only check.
- Faults: modelled as fixed sets of Drive ids, one set for failing downloads and one for failing uploads. A Drive file listed in two folders is one id, so its two download calls get the same fault decision, and so do its two upload calls. The idempotence lemmas allow a different fault set for the second run.
- Walker.ReplayStore: promises that a key logged as failed stays absent only when no two files share a key. With a repeated key, a later upload to the same key may succeed (see `Scenarios.RepeatedKeyRetried`).
- Walker.WalkStore: promises that a key logged as failed stays absent only when no two files of the walk share a key, for the same reason. `KeyUniqueness.WalkFailedStaysAbsent` gives the condition for well-named trees.
- All-or-nothing uploads: an upload that raises is taken to have written nothing. If the object is stored but the response is lost, the call still raises and main.py:30-31 reports a failure while the key is present. `Bucket.Upload`, `Walker.ReplayStore`, `Walker.WalkStore` and `KeyUniqueness.WalkFailedStaysAbsent` rely on this assumption when they state that a failed key stays absent.
- Console output (`print`): it has no effect beyond the outcome log.
- Concurrency: the code is strictly sequential.
- Writers outside the run: the bucket and the Drive tree are shared services that others can change during a run. In the model the bucket changes only through the walk's own uploads and the tree is fixed. `ReplayPredicts` and `ReplayIdempotent` rely on this.
- Time-outs: the code sets none, so a stalled network call hangs the run. The model has no notion of time, and every call returns.

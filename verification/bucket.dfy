/** The destination side and the per-file step of the walk: the bucket as a
    set of keys, the existence check that gates each transfer, and the
    download-then-upload transfer with its two failure behaviours. */
module Bucket {
  import opened DriveTree

  /** What the walk did for one file, by bucket key. */
  datatype Outcome =
    | Skipped(key: string)      // an object already occupied the key
    | Transferred(key: string)  // downloaded and uploaded
    | Failed(key: string)       // downloaded, but the upload raised and was caught
    | Aborted(key: string)      // the download raised; the run stops here

  /** Which calls into the two services raise, by the Drive id of the file
      being transferred: its download, or the upload of its downloaded copy.
      Two files that share a bucket key therefore make two independent
      upload calls, either of which may fail. */
  datatype Faults = Faults(downloadFails: set<string>, uploadFails: set<string>)

  /** The state the walk threads through: the keys present in the bucket,
      the outcomes so far, and whether an uncaught failure has stopped the run. */
  datatype Sync = Sync(store: set<string>, log: seq<Outcome>, halted: bool)

  /** A fresh run against a bucket holding `store`. */
  function Start(store: set<string>): Sync
  {
    Sync(store, [], false)
  }

  /** The outcomes `after` added to the log of `before`. */
  function Added(before: Sync, after: Sync): seq<Outcome>
    requires |before.log| <= |after.log|
  {
    after.log[|before.log|..]
  }

  /** The outcome a file gets when its key's presence is judged against
      `store`: skip when present, otherwise download and upload. */
  function Predict(file: FileRef, store: set<string>, faults: Faults): (o: Outcome)
    ensures o.key == file.key
    ensures o.Skipped? <==> file.key in store
  {
    if file.key in store then Skipped(file.key)
    else if file.id in faults.downloadFails then Aborted(file.key)
    else if file.id in faults.uploadFails then Failed(file.key)
    else Transferred(file.key)
  }

  /** One file reached by the walk: check its key, and when absent download
      the file and upload it under that key. An upload failure is caught and
      the walk goes on; a download failure stops the run. Once stopped, the
      run does nothing more. */
  function Visit(file: FileRef, s: Sync, faults: Faults): (r: Sync)
    ensures s.halted ==> r == s
    ensures !s.halted ==> r.log == s.log + [Predict(file, s.store, faults)]
    // the existence check gates the transfer: a present key is left alone
    ensures !s.halted && file.key in s.store ==> r.store == s.store && !r.halted
    // an absent key that downloads and uploads is present afterwards
    ensures (!s.halted && file.key !in s.store && file.id !in faults.downloadFails
             && file.id !in faults.uploadFails) ==> r.store == s.store + {file.key}
    // a caught upload failure leaves the key absent and the run going
    ensures (!s.halted && file.key !in s.store && file.id !in faults.downloadFails
             && file.id in faults.uploadFails) ==> r.store == s.store && file.key !in r.store && !r.halted
    // a download failure stops the run before anything is uploaded
    ensures r.halted <==> s.halted || (file.key !in s.store && file.id in faults.downloadFails)
    ensures r.halted ==> r.store == s.store
  {
    if s.halted then s
    else if file.key in s.store then
      Sync(s.store, s.log + [Skipped(file.key)], false)
    else if file.id in faults.downloadFails then
      Sync(s.store, s.log + [Aborted(file.key)], true)
    else
      var (store', ok) := Upload(s.store, file, faults);
      Sync(store', s.log + [if ok then Transferred(file.key) else Failed(file.key)], false)
  }

  /** Uploading the downloaded copy of `file` to its key: the bucket gains
      the key unless the upload raises, in which case the failure is
      reported and the bucket is unchanged. */
  function Upload(store: set<string>, file: FileRef, faults: Faults): (r: (set<string>, bool))
    ensures r.1 <==> file.id !in faults.uploadFails
    ensures file.key in r.0 <==> file.key in store || r.1
    ensures r.0 - {file.key} == store - {file.key}
  {
    if file.id in faults.uploadFails then (store, false) else (store + {file.key}, true)
  }
}

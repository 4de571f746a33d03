/** The recursive walk over one listed folder, and the flat sequential scan
    over its files that it is equivalent to. */
module Walker {
  import opened DriveTree
  import opened Bucket

  /** The log of `r` extends that of `s`, and the bucket only gained keys. */
  predicate Extends(s: Sync, r: Sync)
  {
    |s.log| <= |r.log| && r.log[..|s.log|] == s.log && s.store <= r.store
  }

  /** Walks the items listed under a folder whose files go under `prefix`,
      in listing order: a subfolder is walked with its name appended to the
      prefix, a file is visited under prefix, slash, name. The state is
      threaded from each item to the next. */
  function Walk(items: seq<Node>, prefix: string, s: Sync, faults: Faults): (r: Sync)
    ensures Extends(s, r)
    ensures s.halted ==> r == s
    ensures !r.halted ==> !s.halted
    decreases items
  {
    if |items| == 0 then s
    else
      var s' := match items[0]
        case Folder(_, name, kids) => Walk(kids, Key(prefix, name), s, faults)
        case File(id, name) => Visit(FileRef(id, Key(prefix, name)), s, faults);
      Walk(items[1..], prefix, s', faults)
  }

  /** Visits `files` one after the other: the walk with the tree flattened away. */
  function Replay(files: seq<FileRef>, s: Sync, faults: Faults): (r: Sync)
    ensures Extends(s, r)
    ensures s.halted ==> r == s
    ensures |r.log| <= |s.log| + |files|
    decreases |files|
  {
    if |files| == 0 then s else Replay(files[1..], Visit(files[0], s, faults), faults)
  }

  lemma {:induction false} ReplayAppend(a: seq<FileRef>, b: seq<FileRef>, s: Sync, faults: Faults)
    ensures Replay(a + b, s, faults) == Replay(b, Replay(a, s, faults), faults)
    decreases |a|
  {
    if |a| > 0 {
      assert (a + b)[0] == a[0];
      assert (a + b)[1..] == a[1..] + b;
      ReplayAppend(a[1..], b, Visit(a[0], s, faults), faults);
    } else {
      assert a + b == b;
    }
  }

  /** Walking the tree is visiting its files in depth-first listing order,
      each under the key the flattening gives it. */
  lemma {:induction false} WalkIsReplay(items: seq<Node>, prefix: string, s: Sync, faults: Faults)
    ensures Walk(items, prefix, s, faults) == Replay(Flatten(items, prefix), s, faults)
    decreases items
  {
    if |items| > 0 {
      match items[0]
      case Folder(_, name, kids) =>
        var inner := Flatten(kids, Key(prefix, name));
        WalkIsReplay(kids, Key(prefix, name), s, faults);
        WalkIsReplay(items[1..], prefix, Walk(kids, Key(prefix, name), s, faults), faults);
        ReplayAppend(inner, Flatten(items[1..], prefix), s, faults);
      case File(id, name) =>
        var f := FileRef(id, Key(prefix, name));
        WalkIsReplay(items[1..], prefix, Visit(f, s, faults), faults);
        assert ([f] + Flatten(items[1..], prefix))[1..] == Flatten(items[1..], prefix);
    }
  }

  /** The outcomes `n` are for the first |n| of `files`, one each, in order. */
  predicate OneEach(n: seq<Outcome>, files: seq<FileRef>)
  {
    |n| <= |files| && forall i :: 0 <= i < |n| ==> n[i].key == files[i].key
  }

  /** Coverage of a scan: every file gets at most one outcome, under its own
      key, in order; unless a download fails, every file gets one; a stopped
      run ends with the aborted file and nothing after it. */
  lemma {:induction false} ReplayCoverage(files: seq<FileRef>, s: Sync, faults: Faults)
    requires !s.halted
    ensures var r := Replay(files, s, faults);
      var n := Added(s, r);
      && OneEach(n, files)
      && (!r.halted ==> |n| == |files|)
      && (r.halted ==> 0 < |n| && n[|n| - 1].Aborted?)
      && (forall i :: 0 <= i < |n| && n[i].Aborted? ==> i == |n| - 1 && r.halted)
    decreases |files|
  {
    var r := Replay(files, s, faults);
    if |files| > 0 {
      var s1 := Visit(files[0], s, faults);
      var o := Predict(files[0], s.store, faults);
      if s1.halted {
        assert r == s1;
        assert Added(s, r) == [o];
      } else {
        ReplayCoverage(files[1..], s1, faults);
        var n1 := Added(s1, r);
        assert Added(s, r) == [o] + n1;
      }
    }
  }

  /** Keys that are pairwise different. */
  predicate DistinctKeys(files: seq<FileRef>)
  {
    forall i, j :: 0 <= i < j < |files| ==> files[i].key != files[j].key
  }

  /** What a scan does to the bucket: it gains exactly the keys logged as
      transferred, none of which was present before; an outcome is a caught
      failure exactly for a file whose upload raised; a key logged as
      skipped is present; a key present before the scan, or transferred
      earlier in it, is only ever skipped afterwards. When no two files
      share a key, a key logged as failed is absent afterwards. With a
      repeated key a later file may upload to it successfully, so that last
      fact needs the keys to differ. */
  lemma ReplayStore(files: seq<FileRef>, s: Sync, faults: Faults)
    ensures var r := Replay(files, s, faults);
      var n := Added(s, r);
      && (forall k :: k in r.store <==> k in s.store || Transferred(k) in n)
      && (forall k | Transferred(k) in n :: k !in s.store)
      && (forall i :: 0 <= i < |n| && n[i].Transferred? ==> files[i].id !in faults.uploadFails)
      && (forall i :: 0 <= i < |n| && n[i].Failed? ==> files[i].id in faults.uploadFails)
      && (forall k | Skipped(k) in n :: k in r.store)
      && (forall o | o in n && o.key in s.store :: o.Skipped?)
      && (DistinctKeys(files) ==> forall k | Failed(k) in n :: k !in r.store)
      && (forall i, j :: 0 <= i < j < |n| && n[i].Transferred? && n[j].key == n[i].key ==> n[j].Skipped?)
  {
    ReplayGrowth(files, s, faults);
    ReplayTransfersOnce(files, s, faults);
  }

  /** The part of `ReplayStore` proved by induction along the scan. */
  lemma {:induction false} ReplayGrowth(files: seq<FileRef>, s: Sync, faults: Faults)
    ensures var r := Replay(files, s, faults);
      var n := Added(s, r);
      && (forall k :: k in r.store <==> k in s.store || Transferred(k) in n)
      && (forall k | Transferred(k) in n :: k !in s.store)
      && (forall i :: 0 <= i < |n| && n[i].Transferred? ==> files[i].id !in faults.uploadFails)
      && (forall i :: 0 <= i < |n| && n[i].Failed? ==> files[i].id in faults.uploadFails)
      && (forall k | Skipped(k) in n :: k in r.store)
      && (DistinctKeys(files) ==> forall k | Failed(k) in n :: k !in r.store)
    decreases |files|
  {
    var r := Replay(files, s, faults);
    if |files| > 0 && !s.halted {
      var s1 := Visit(files[0], s, faults);
      var o := Predict(files[0], s.store, faults);
      ReplayGrowth(files[1..], s1, faults);
      var n1 := Added(s1, r);
      assert Added(s, r) == [o] + n1;
      if DistinctKeys(files) {
        DistinctKeysTail(files);
        if o.Failed? {
          ReplayCoverage(files[1..], s1, faults);
          forall j | 0 <= j < |n1|
            ensures n1[j] != Transferred(o.key)
          {
            assert files[1..][j] == files[j + 1];
          }
        }
      }
    }
  }

  /** A key is transferred at most once in a scan: once present, whether
      before the scan or by a transfer in it, it is only ever skipped. */
  lemma {:induction false} ReplayTransfersOnce(files: seq<FileRef>, s: Sync, faults: Faults)
    ensures var r := Replay(files, s, faults);
      var n := Added(s, r);
      && (forall o | o in n && o.key in s.store :: o.Skipped?)
      && (forall i, j :: 0 <= i < j < |n| && n[i].Transferred? && n[j].key == n[i].key ==> n[j].Skipped?)
    decreases |files|
  {
    var r := Replay(files, s, faults);
    if |files| > 0 && !s.halted {
      var s1 := Visit(files[0], s, faults);
      var o := Predict(files[0], s.store, faults);
      ReplayTransfersOnce(files[1..], s1, faults);
      var n1 := Added(s1, r);
      var n := Added(s, r);
      assert n == [o] + n1;
      forall i, j | 0 <= i < j < |n| && n[i].Transferred? && n[j].key == n[i].key
        ensures n[j].Skipped?
      {
        if i == 0 {
          assert n[j] == n1[j - 1];
        } else {
          assert n1[i - 1] == n[i] && n1[j - 1] == n[j];
        }
      }
    }
  }

  lemma DistinctKeysTail(files: seq<FileRef>)
    requires |files| > 0 && DistinctKeys(files)
    ensures DistinctKeys(files[1..])
    ensures forall f | f in files[1..] :: f.key != files[0].key
  {
    forall f | f in files[1..]
      ensures f.key != files[0].key
    {
      var j :| 0 <= j < |files[1..]| && files[1..][j] == f;
      assert files[j + 1] == f;
    }
  }

  /** When every file's key is already present, a scan skips them all and
      leaves the bucket as it was. */
  lemma {:induction false} ReplayAllPresent(files: seq<FileRef>, s: Sync, faults: Faults)
    requires !s.halted
    requires forall f | f in files :: f.key in s.store
    ensures var r := Replay(files, s, faults);
      && !r.halted
      && r.store == s.store
      && Added(s, r) == seq(|files|, i requires 0 <= i < |files| => Skipped(files[i].key))
    decreases |files|
  {
    if |files| > 0 {
      var s1 := Visit(files[0], s, faults);
      ReplayAllPresent(files[1..], s1, faults);
      var r := Replay(files, s, faults);
      assert Added(s, r) == [Skipped(files[0].key)] + Added(s1, r);
    }
  }

  /** With pairwise different keys, each file's outcome depends only on the
      bucket as it was when the scan began: nothing the scan uploads can
      make a later file skip. */
  lemma {:induction false} ReplayPredicts(files: seq<FileRef>, s: Sync, faults: Faults)
    requires DistinctKeys(files)
    ensures var n := Added(s, Replay(files, s, faults));
      forall i :: 0 <= i < |n| ==> n[i] == Predict(files[i], s.store, faults)
    decreases |files|
  {
    var r := Replay(files, s, faults);
    if |files| > 0 && !s.halted {
      var s1 := Visit(files[0], s, faults);
      ReplayPredicts(files[1..], s1, faults);
      var n1 := Added(s1, r);
      assert Added(s, r) == [Predict(files[0], s.store, faults)] + n1;
      forall i | 0 <= i < |n1|
        ensures Predict(files[1..][i], s1.store, faults) == Predict(files[1..][i], s.store, faults)
      {
        assert files[1..][i] == files[i + 1];
        assert files[i + 1].key != files[0].key;
        assert s1.store - {files[0].key} == s.store - {files[0].key};
      }
    }
  }

  /** Coverage of a walk from a fresh run: unless a download failed, every
      file under the folder has exactly one outcome, under its key, in
      depth-first listing order; an empty folder yields no outcome and an
      unchanged bucket. */
  lemma WalkCoverage(items: seq<Node>, prefix: string, store: set<string>, faults: Faults)
    ensures var r := Walk(items, prefix, Start(store), faults);
      && OneEach(r.log, Flatten(items, prefix))
      && (!r.halted ==> |r.log| == |Flatten(items, prefix)| == FileCount(items))
      && (FileCount(items) == 0 ==> r == Start(store))
  {
    var r := Walk(items, prefix, Start(store), faults);
    WalkIsReplay(items, prefix, Start(store), faults);
    ReplayCoverage(Flatten(items, prefix), Start(store), faults);
    FlattenCountsFiles(items, prefix);
    if FileCount(items) == 0 {
      assert Flatten(items, prefix) == [];
    }
  }

  /** Idempotence of a scan: when a scan from `store` had no failed upload
      and no failed download, scanning the same files again from the
      resulting bucket skips every file and changes nothing, whatever the
      second run's faults. */
  lemma ReplayIdempotent(files: seq<FileRef>, store: set<string>, first: Faults, second: Faults)
    requires var r := Replay(files, Start(store), first);
      !r.halted && forall o | o in r.log :: !o.Failed?
    ensures var r := Replay(files, Start(store), first);
      var r' := Replay(files, Start(r.store), second);
      && !r'.halted
      && r'.store == r.store
      && |r'.log| == |files|
      && forall i :: 0 <= i < |files| ==> r'.log[i] == Skipped(files[i].key)
  {
    var r := Replay(files, Start(store), first);
    ReplayCoverage(files, Start(store), first);
    ReplayStore(files, Start(store), first);
    assert Added(Start(store), r) == r.log;
    forall f | f in files
      ensures f.key in r.store
    {
      var i :| 0 <= i < |files| && files[i] == f;
      var o := r.log[i];
      assert o in r.log;
      if o.Transferred? {
        assert Transferred(o.key) in r.log;
      }
    }
    ReplayAllPresent(files, Start(r.store), second);
    assert Added(Start(r.store), Replay(files, Start(r.store), second))
        == Replay(files, Start(r.store), second).log;
  }

  /** Idempotence of a walk: when a walk from `store` had no failed upload
      and no failed download, walking the same tree again from the resulting
      bucket skips every file and changes nothing, whatever the second run's
      faults. */
  lemma WalkIdempotent(items: seq<Node>, prefix: string, store: set<string>, first: Faults, second: Faults)
    requires var r := Walk(items, prefix, Start(store), first);
      !r.halted && forall o | o in r.log :: !o.Failed?
    ensures var r := Walk(items, prefix, Start(store), first);
      var r' := Walk(items, prefix, Start(r.store), second);
      && !r'.halted
      && r'.store == r.store
      && |r'.log| == FileCount(items)
      && forall o | o in r'.log :: o.Skipped?
  {
    var r := Walk(items, prefix, Start(store), first);
    WalkIsReplay(items, prefix, Start(store), first);
    WalkIsReplay(items, prefix, Start(r.store), second);
    FlattenCountsFiles(items, prefix);
    ReplayIdempotent(Flatten(items, prefix), store, first, second);
  }

  /** What a walk does to the bucket: it gains exactly the keys logged as
      transferred; every key present before the walk is still present and
      was only ever skipped; a key transferred during the walk is only
      skipped afterwards; when no two files of the walk share a key, a
      failed upload's key stays absent. */
  lemma WalkStore(items: seq<Node>, prefix: string, store: set<string>, faults: Faults)
    ensures var r := Walk(items, prefix, Start(store), faults);
      && store <= r.store
      && (forall k :: k in r.store <==> k in store || Transferred(k) in r.log)
      && (DistinctKeys(Flatten(items, prefix)) ==> forall k | Failed(k) in r.log :: k !in r.store)
      && (forall o | o in r.log && o.key in store :: o.Skipped?)
      && (forall i, j :: 0 <= i < j < |r.log| && r.log[i].Transferred? && r.log[j].key == r.log[i].key
                         ==> r.log[j].Skipped?)
  {
    var r := Walk(items, prefix, Start(store), faults);
    WalkIsReplay(items, prefix, Start(store), faults);
    ReplayStore(Flatten(items, prefix), Start(store), faults);
    assert Added(Start(store), r) == r.log;
  }

  /** Coverage stated against the tree itself: when the walk is not stopped,
      every File node reachable from the listing along a path of names has
      an outcome, under the key that path gives, at the position of that
      file in the walk. */
  lemma WalkCoversReachable(items: seq<Node>, prefix: string, store: set<string>, faults: Faults,
                            id: string, segments: seq<string>)
    requires Holds(items, id, segments)
    ensures var r := Walk(items, prefix, Start(store), faults);
      var files := Flatten(items, prefix);
      !r.halted ==>
        exists i :: 0 <= i < |r.log| && i < |files| && files[i].id == id
                    && r.log[i].key == Path(prefix, segments)
  {
    var r := Walk(items, prefix, Start(store), faults);
    var files := Flatten(items, prefix);
    WalkCoverage(items, prefix, store, faults);
    HoldsIffEntry(items, id, segments);
    FlattenLocatesEntries(items, prefix);
    var es := Entries(items);
    var i :| 0 <= i < |es| && es[i] == Entry(id, segments);
    assert files[i] == FileRef(id, Path(prefix, segments));
    if !r.halted {
      assert r.log[i].key == files[i].key;
    }
  }
}

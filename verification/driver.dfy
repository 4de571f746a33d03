/** The whole run: the three sync targets walked one after the other against
    one bucket, each under its own root prefix. */
module Driver {
  import opened DriveTree
  import opened Bucket
  import opened Walker
  import opened KeyUniqueness

  /** What the three root folders list: the yelp, metadata and reviews trees. */
  datatype Roots = Roots(yelp: seq<Node>, metadata: seq<Node>, reviews: seq<Node>)

  /** Mirrors the three roots in their fixed order, threading the bucket and
      the log from one to the next; a failed download stops what remains.
      No key is transferred twice: once present, whether before the run or
      by an earlier transfer in it, a key is only ever skipped. */
  function Run(roots: Roots, store: set<string>, faults: Faults): (r: Sync)
    ensures store <= r.store
    ensures forall o | o in r.log && o.key in store :: o.Skipped?
    ensures forall i, j :: 0 <= i < j < |r.log| && r.log[i].Transferred? && r.log[j].key == r.log[i].key
                           ==> r.log[j].Skipped?
  {
    var s1 := Walk(roots.yelp, "yelp", Start(store), faults);
    var s2 := Walk(roots.metadata, "metadata", s1, faults);
    var r := Walk(roots.reviews, "reviews", s2, faults);
    RunStoreFacts(roots, store, faults, r);
    r
  }

  /** Every file of the run with its key, in the order the run visits them. */
  function AllFiles(roots: Roots): seq<FileRef>
  {
    Flatten(roots.yelp, "yelp") + Flatten(roots.metadata, "metadata") + Flatten(roots.reviews, "reviews")
  }

  lemma RunIsReplayOf(roots: Roots, store: set<string>, faults: Faults, r: Sync)
    requires r == Walk(roots.reviews, "reviews",
                       Walk(roots.metadata, "metadata",
                            Walk(roots.yelp, "yelp", Start(store), faults), faults), faults)
    ensures r == Replay(AllFiles(roots), Start(store), faults)
  {
    var a := Flatten(roots.yelp, "yelp");
    var b := Flatten(roots.metadata, "metadata");
    var c := Flatten(roots.reviews, "reviews");
    var s1 := Walk(roots.yelp, "yelp", Start(store), faults);
    var s2 := Walk(roots.metadata, "metadata", s1, faults);
    WalkIsReplay(roots.yelp, "yelp", Start(store), faults);
    WalkIsReplay(roots.metadata, "metadata", s1, faults);
    WalkIsReplay(roots.reviews, "reviews", s2, faults);
    ReplayAppend(a, b, Start(store), faults);
    ReplayAppend(a + b, c, Start(store), faults);
  }

  lemma RunStoreFacts(roots: Roots, store: set<string>, faults: Faults, r: Sync)
    requires r == Walk(roots.reviews, "reviews",
                       Walk(roots.metadata, "metadata",
                            Walk(roots.yelp, "yelp", Start(store), faults), faults), faults)
    ensures forall o | o in r.log && o.key in store :: o.Skipped?
    ensures forall i, j :: 0 <= i < j < |r.log| && r.log[i].Transferred? && r.log[j].key == r.log[i].key
                           ==> r.log[j].Skipped?
  {
    RunIsReplayOf(roots, store, faults, r);
    ReplayStore(AllFiles(roots), Start(store), faults);
    assert Added(Start(store), r) == r.log;
  }

  /** The run is one scan over all three roots' files in order. */
  lemma RunIsReplay(roots: Roots, store: set<string>, faults: Faults)
    ensures Run(roots, store, faults) == Replay(AllFiles(roots), Start(store), faults)
  {
    RunIsReplayOf(roots, store, faults, Run(roots, store, faults));
  }

  /** Keys from different roots never meet: each begins with its own root
      name and a slash. */
  lemma RootsSeparate(roots: Roots)
    ensures forall f, g | f in Flatten(roots.yelp, "yelp") && g in Flatten(roots.metadata, "metadata") :: f.key != g.key
    ensures forall f, g | f in Flatten(roots.yelp, "yelp") && g in Flatten(roots.reviews, "reviews") :: f.key != g.key
    ensures forall f, g | f in Flatten(roots.metadata, "metadata") && g in Flatten(roots.reviews, "reviews") :: f.key != g.key
  {
    forall f, g | f in Flatten(roots.yelp, "yelp") && g in Flatten(roots.metadata, "metadata")
      ensures f.key != g.key
    {
      assert f.key[0] == "yelp"[0] && g.key[0] == "metadata"[0];
    }
    forall f, g | f in Flatten(roots.yelp, "yelp") && g in Flatten(roots.reviews, "reviews")
      ensures f.key != g.key
    {
      assert f.key[0] == "yelp"[0] && g.key[0] == "reviews"[0];
    }
    forall f, g | f in Flatten(roots.metadata, "metadata") && g in Flatten(roots.reviews, "reviews")
      ensures f.key != g.key
    {
      assert f.key[0] == "metadata"[0] && g.key[0] == "reviews"[0];
    }
  }

  lemma AppendDistinctKeys(a: seq<FileRef>, b: seq<FileRef>)
    requires DistinctKeys(a) && DistinctKeys(b)
    requires forall f, g | f in a && g in b :: f.key != g.key
    ensures DistinctKeys(a + b)
  {
  }

  /** Coverage of the run: unless a download failed, every file of the three
      trees has exactly one outcome, under its key, in run order. */
  lemma RunCoverage(roots: Roots, store: set<string>, faults: Faults)
    ensures var r := Run(roots, store, faults);
      && OneEach(r.log, AllFiles(roots))
      && (!r.halted ==>
            |r.log| == FileCount(roots.yelp) + FileCount(roots.metadata) + FileCount(roots.reviews))
  {
    var r := Run(roots, store, faults);
    RunIsReplay(roots, store, faults);
    ReplayCoverage(AllFiles(roots), Start(store), faults);
    assert Added(Start(store), r) == r.log;
    FlattenCountsFiles(roots.yelp, "yelp");
    FlattenCountsFiles(roots.metadata, "metadata");
    FlattenCountsFiles(roots.reviews, "reviews");
  }

  /** When all three trees are well named, no key is visited twice in a run,
      so every outcome is decided by the bucket as it was at the start. */
  lemma RunPredicts(roots: Roots, store: set<string>, faults: Faults)
    requires WellNamed(roots.yelp) && WellNamed(roots.metadata) && WellNamed(roots.reviews)
    ensures var r := Run(roots, store, faults);
      var files := AllFiles(roots);
      && |r.log| <= |files|
      && forall i :: 0 <= i < |r.log| ==> r.log[i] == Predict(files[i], store, faults)
  {
    var r := Run(roots, store, faults);
    var a := Flatten(roots.yelp, "yelp");
    var b := Flatten(roots.metadata, "metadata");
    var c := Flatten(roots.reviews, "reviews");
    FlattenKeysDistinct(roots.yelp, "yelp");
    FlattenKeysDistinct(roots.metadata, "metadata");
    FlattenKeysDistinct(roots.reviews, "reviews");
    RootsSeparate(roots);
    AppendDistinctKeys(a, b);
    AppendDistinctKeys(a + b, c);
    RunIsReplay(roots, store, faults);
    ReplayCoverage(AllFiles(roots), Start(store), faults);
    ReplayPredicts(AllFiles(roots), Start(store), faults);
    assert Added(Start(store), r) == r.log;
  }

  /** Idempotence of the run: after a run with no failed upload and no
      failed download, running again against the resulting bucket transfers
      nothing and leaves the bucket as it was. */
  lemma RunIdempotent(roots: Roots, store: set<string>, first: Faults, second: Faults)
    requires var r := Run(roots, store, first);
      !r.halted && forall o | o in r.log :: !o.Failed?
    ensures var r := Run(roots, store, first);
      var r' := Run(roots, r.store, second);
      && !r'.halted
      && r'.store == r.store
      && |r'.log| == |AllFiles(roots)|
      && forall o | o in r'.log :: o.Skipped?
  {
    var r := Run(roots, store, first);
    RunIsReplay(roots, store, first);
    RunIsReplay(roots, r.store, second);
    ReplayIdempotent(AllFiles(roots), store, first, second);
    var r' := Run(roots, r.store, second);
    forall o | o in r'.log
      ensures o.Skipped?
    {
      var i :| 0 <= i < |r'.log| && r'.log[i] == o;
    }
  }
}

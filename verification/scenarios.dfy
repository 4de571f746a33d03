/** Small concrete runs of the walk: a nested descent, a key already
    present, one failed upload among siblings, a failed download, and two
    files that share a key. */
module Scenarios {
  import opened DriveTree
  import opened Bucket
  import opened Walker

  const NoFaults := Faults({}, {})

  /** A file `x.txt` in subfolder `sub` of the metadata root is stored at
      `metadata/sub/x.txt` after one descent. */
  lemma NestedDescent()
    ensures var r := Walk([Folder("sub-id", "sub", [File("x-id", "x.txt")])], "metadata", Start({}), NoFaults);
      && r.log == [Transferred("metadata/sub/x.txt")]
      && r.store == {"metadata/sub/x.txt"}
  {
    var kids := [File("x-id", "x.txt")];
    var items := [Folder("sub-id", "sub", kids)];
    assert Key("metadata", "sub") == "metadata/sub";
    assert Key("metadata/sub", "x.txt") == "metadata/sub/x.txt";
    assert kids[1..] == [] && items[1..] == [];
  }

  /** A file whose key the bucket already holds is skipped, and the walk
      goes on to its sibling. */
  lemma PresentKeySkipped()
    ensures var items := [File("x-id", "x.json"), File("y-id", "y.json")];
      var r := Walk(items, "reviews", Start({"reviews/x.json"}), Faults({"x-id"}, {"x-id"}));
      && r.log == [Skipped("reviews/x.json"), Transferred("reviews/y.json")]
      && r.store == {"reviews/x.json", "reviews/y.json"}
  {
    var items := [File("x-id", "x.json"), File("y-id", "y.json")];
    assert Key("reviews", "x.json") == "reviews/x.json";
    assert Key("reviews", "y.json") == "reviews/y.json";
    assert "reviews/x.json" != "reviews/y.json" by {
      assert "reviews/x.json"[8] != "reviews/y.json"[8];
    }
    assert items[1..] == [File("y-id", "y.json")] && items[1..][1..] == [];
  }

  /** One failed upload among three siblings: the other two are still
      transferred, the failed key stays absent, and the run goes on. */
  lemma OneUploadFails()
    ensures var items := [File("1", "a"), File("2", "b"), File("3", "c")];
      var r := Walk(items, "yelp", Start({}), Faults({}, {"2"}));
      && !r.halted
      && r.log == [Transferred("yelp/a"), Failed("yelp/b"), Transferred("yelp/c")]
      && r.store == {"yelp/a", "yelp/c"}
  {
    var items := [File("1", "a"), File("2", "b"), File("3", "c")];
    assert Key("yelp", "a") == "yelp/a";
    assert Key("yelp", "b") == "yelp/b";
    assert Key("yelp", "c") == "yelp/c";
    assert "yelp/a" != "yelp/b" && "yelp/c" != "yelp/b" by {
      assert "yelp/a"[5] != "yelp/b"[5] && "yelp/c"[5] != "yelp/b"[5];
    }
    assert items[1..] == [File("2", "b"), File("3", "c")];
    assert items[1..][1..] == [File("3", "c")];
    assert items[1..][1..][1..] == [];
  }

  /** A failed download stops the run: later siblings are never visited. */
  lemma DownloadFailureStops()
    ensures var items := [File("1", "a"), File("2", "b")];
      var r := Walk(items, "yelp", Start({}), Faults({"1"}, {}));
      && r.halted
      && r.log == [Aborted("yelp/a")]
      && r.store == {}
  {
    var items := [File("1", "a"), File("2", "b")];
    assert Key("yelp", "a") == "yelp/a";
    assert items[1..] == [File("2", "b")] && items[1..][1..] == [];
  }

  /** Two sibling files with the same name share one key and make two
      upload calls: when the first raises and the second succeeds, the key
      logged as failed ends up present. */
  lemma RepeatedKeyRetried()
    ensures var items := [File("1", "x"), File("2", "x")];
      var r := Walk(items, "yelp", Start({}), Faults({}, {"1"}));
      && !r.halted
      && r.log == [Failed("yelp/x"), Transferred("yelp/x")]
      && r.store == {"yelp/x"}
  {
    var items := [File("1", "x"), File("2", "x")];
    assert Key("yelp", "x") == "yelp/x";
    assert items[1..] == [File("2", "x")] && items[1..][1..] == [];
  }
}

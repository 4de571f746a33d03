/** When two files of one walk get the same bucket key. Keys are built by
    plain concatenation, so they are unique exactly as far as the names
    keep them apart: distinct sibling names without slashes give distinct
    keys, and a slash inside a name can make two files share one. */
module KeyUniqueness {
  import opened DriveTree
  import opened Bucket
  import opened Walker

  /** Sibling names differ and no name contains a slash, at every level. */
  predicate WellNamed(items: seq<Node>)
    decreases items
  {
    && (forall i, j :: 0 <= i < j < |items| ==> items[i].name != items[j].name)
    && (forall i :: 0 <= i < |items| ==> '/' !in items[i].name)
    && (forall i :: 0 <= i < |items| && items[i].Folder? ==> WellNamed(items[i].children))
  }

  function Names(items: seq<Node>): set<string>
  {
    set i | 0 <= i < |items| :: items[i].name
  }

  predicate SlashFree(segments: seq<string>)
  {
    forall i :: 0 <= i < |segments| ==> '/' !in segments[i]
  }

  /** Paths that are pairwise different. */
  predicate DistinctPaths(es: seq<Entry>)
  {
    forall i, j :: 0 <= i < j < |es| ==> es[i].segments != es[j].segments
  }

  /** Every path is non-empty, slash-free and starts with a name in `names`. */
  predicate Rooted(es: seq<Entry>, names: set<string>)
  {
    forall e | e in es :: |e.segments| > 0 && SlashFree(e.segments) && e.segments[0] in names
  }

  /** Facts about how `Join` lays a path out: the first name, then a slash
      and the rest, or nothing more for a one-name path. */
  lemma JoinHead(segments: seq<string>)
    requires |segments| > 0
    ensures var j := Join(segments);
      && |segments[0]| <= |j|
      && j[..|segments[0]|] == segments[0]
      && (|segments| == 1 ==> |j| == |segments[0]|)
      && (|segments| > 1 ==> |j| > |segments[0]| && j[|segments[0]|] == '/'
                              && j[|segments[0]| + 1..] == Join(segments[1..]))
  {
  }

  /** Joining slash-free names by slashes loses nothing: the names can be
      read back from the result. */
  lemma {:induction false} JoinInjective(a: seq<string>, b: seq<string>)
    requires |a| > 0 && |b| > 0 && SlashFree(a) && SlashFree(b)
    requires Join(a) == Join(b)
    ensures a == b
    decreases |a|
  {
    var x, y := a[0], b[0];
    JoinHead(a);
    JoinHead(b);
    var j := Join(a);
    assert x == j[..|x|] == y;
    if |a| > 1 && |b| > 1 {
      JoinInjective(a[1..], b[1..]);
      assert a == [x] + a[1..] && b == [y] + b[1..];
    } else if |a| > 1 || |b| > 1 {
      assert false;
    } else {
      assert a == [x] && b == [y];
    }
  }

  /** Slash-free paths reach different keys from the same prefix. */
  lemma PathInjective(prefix: string, a: seq<string>, b: seq<string>)
    requires |a| > 0 && |b| > 0 && SlashFree(a) && SlashFree(b)
    requires a != b
    ensures Path(prefix, a) != Path(prefix, b)
  {
    PathIsJoin(prefix, a);
    PathIsJoin(prefix, b);
    if Path(prefix, a) == Path(prefix, b) {
      var k := Path(prefix, a);
      assert Join(a) == k[|prefix| + 1..] == Join(b);
      JoinInjective(a, b);
    }
  }

  lemma WellNamedTail(items: seq<Node>)
    requires |items| > 0 && WellNamed(items)
    ensures WellNamed(items[1..])
    ensures items[0].name !in Names(items[1..])
    ensures Names(items) == {items[0].name} + Names(items[1..])
  {
  }

  lemma UnderKeepsDistinct(name: string, es: seq<Entry>)
    requires '/' !in name
    requires DistinctPaths(es) && Rooted(es, FirstNames(es))
    ensures DistinctPaths(Under(name, es)) && Rooted(Under(name, es), {name})
  {
    var u := Under(name, es);
    forall i, j | 0 <= i < j < |u|
      ensures u[i].segments != u[j].segments
    {
      assert u[i].segments[1..] == es[i].segments;
      assert u[j].segments[1..] == es[j].segments;
    }
    forall e | e in u
      ensures |e.segments| > 0 && SlashFree(e.segments) && e.segments[0] in {name}
    {
      var i :| 0 <= i < |u| && u[i] == e;
      assert es[i] in es;
      forall k | 0 <= k < |e.segments|
        ensures '/' !in e.segments[k]
      {
        if k > 0 {
          assert e.segments[k] == es[i].segments[k - 1];
        }
      }
    }
  }

  /** The first names of all the paths in `es`. */
  function FirstNames(es: seq<Entry>): set<string>
  {
    set i | 0 <= i < |es| && |es[i].segments| > 0 :: es[i].segments[0]
  }

  lemma RootedWiden(es: seq<Entry>, names: set<string>)
    requires Rooted(es, names)
    ensures Rooted(es, FirstNames(es))
  {
  }

  lemma AppendDistinct(a: seq<Entry>, b: seq<Entry>, na: set<string>, nb: set<string>)
    requires DistinctPaths(a) && DistinctPaths(b)
    requires Rooted(a, na) && Rooted(b, nb) && na !! nb
    ensures DistinctPaths(a + b) && Rooted(a + b, na + nb)
  {
  }

  /** In a well-named tree, every file has its own path of names. */
  lemma {:induction false} EntriesDistinct(items: seq<Node>)
    requires WellNamed(items)
    ensures DistinctPaths(Entries(items)) && Rooted(Entries(items), Names(items))
    decreases items
  {
    if |items| > 0 {
      WellNamedTail(items);
      var rest := items[1..];
      EntriesDistinct(rest);
      var head := match items[0]
        case Folder(_, name, kids) => Under(name, Entries(kids))
        case File(id, name) => [Entry(id, [name])];
      assert '/' !in items[0].name;
      match items[0] {
        case Folder(_, name, kids) =>
          EntriesDistinct(kids);
          RootedWiden(Entries(kids), Names(kids));
          UnderKeepsDistinct(name, Entries(kids));
        case File(id, name) =>
          assert Rooted([Entry(id, [name])], {name});
      }
      AppendDistinct(head, Entries(rest), {items[0].name}, Names(rest));
    }
  }

  /** In a well-named tree every file of one walk gets its own key, so each
      key meets the existence check exactly once. */
  lemma FlattenKeysDistinct(items: seq<Node>, prefix: string)
    requires WellNamed(items)
    ensures DistinctKeys(Flatten(items, prefix))
  {
    FlattenLocatesEntries(items, prefix);
    EntriesDistinct(items);
    var es := Entries(items);
    var files := Flatten(items, prefix);
    forall i, j | 0 <= i < j < |files|
      ensures files[i].key != files[j].key
    {
      assert es[i] in es && es[j] in es;
      PathInjective(prefix, es[i].segments, es[j].segments);
    }
  }

  /** Consequently, in a well-named tree each file's outcome is decided by
      the bucket as it was when the walk began. */
  lemma WalkPredicts(items: seq<Node>, prefix: string, store: set<string>, faults: Faults)
    requires WellNamed(items)
    ensures var r := Walk(items, prefix, Start(store), faults);
      var files := Flatten(items, prefix);
      && |r.log| <= |files|
      && forall i :: 0 <= i < |r.log| ==> r.log[i] == Predict(files[i], store, faults)
  {
    var r := Walk(items, prefix, Start(store), faults);
    WalkIsReplay(items, prefix, Start(store), faults);
    ReplayCoverage(Flatten(items, prefix), Start(store), faults);
    FlattenKeysDistinct(items, prefix);
    ReplayPredicts(Flatten(items, prefix), Start(store), faults);
    assert Added(Start(store), r) == r.log;
  }

  /** In a well-named tree a caught upload failure is final for the walk:
      no later file uploads to the same key, so the key stays absent. */
  lemma WalkFailedStaysAbsent(items: seq<Node>, prefix: string, store: set<string>, faults: Faults)
    requires WellNamed(items)
    ensures var r := Walk(items, prefix, Start(store), faults);
      forall k | Failed(k) in r.log :: k !in r.store
  {
    FlattenKeysDistinct(items, prefix);
    WalkStore(items, prefix, store, faults);
  }

  /** Without the slash-free condition keys can collide: a file `b` in
      folder `a` and a sibling file named `a/b` both go to `yelp/a/b`, so
      the second is skipped though nothing of its own was ever uploaded. */
  lemma SlashInNameCollides()
    ensures var items := [Folder("fa", "a", [File("fb", "b")]), File("fab", "a/b")];
      && Flatten(items, "yelp") == [FileRef("fb", "yelp/a/b"), FileRef("fab", "yelp/a/b")]
      && Walk(items, "yelp", Start({}), Faults({}, {})).log
         == [Transferred("yelp/a/b"), Skipped("yelp/a/b")]
  {
    var kids := [File("fb", "b")];
    var items := [Folder("fa", "a", kids), File("fab", "a/b")];
    assert Key("yelp", "a") == "yelp/a";
    assert Key("yelp/a", "b") == "yelp/a/b";
    assert Key("yelp", "a/b") == "yelp/a/b";
    assert kids[1..] == [];
    assert items[1..] == [File("fab", "a/b")];
    assert items[1..][1..] == [];
    assert Flatten(kids, "yelp/a") == [FileRef("fb", "yelp/a/b")];
    assert Flatten(items[1..], "yelp") == [FileRef("fab", "yelp/a/b")];
    var files := Flatten(items, "yelp");
    assert files == [FileRef("fb", "yelp/a/b")] + [FileRef("fab", "yelp/a/b")];
    WalkIsReplay(items, "yelp", Start({}), Faults({}, {}));
    assert files[1..] == [FileRef("fab", "yelp/a/b")];
    assert files[1..][1..] == [];
  }
}

/** The source side of the mirror: a Drive folder tree, the bucket keys its
    files are stored under, and two independent descriptions of which key
    each file gets. */
module DriveTree {

  /** A Drive item as its parent's listing returns it. Every item whose MIME
      type is not the folder type is a file; a folder carries the items its
      own listing returns, in listing order. */
  datatype Node =
    | Folder(id: string, name: string, children: seq<Node>)
    | File(id: string, name: string)

  /** A file to mirror: its Drive id and the bucket key it is stored under. */
  datatype FileRef = FileRef(id: string, key: string)

  /** Where a file sits below a listed folder: its Drive id and the names of
      the folders walked through, ending with the file's own name. */
  datatype Entry = Entry(id: string, segments: seq<string>)

  /** The key of an item named `name` listed under `prefix`: the prefix, one
      slash, then the name, with no normalisation of either part. */
  function Key(prefix: string, name: string): (r: string)
    ensures |r| == |prefix| + 1 + |name|
    ensures r[..|prefix|] == prefix && r[|prefix|] == '/' && r[|prefix| + 1..] == name
  {
    prefix + "/" + name
  }

  /** `s` begins with `p` followed by a slash. */
  predicate Below(s: string, p: string)
  {
    |p| < |s| && s[..|p|] == p && s[|p|] == '/'
  }

  /** Every file under `items`, depth first in listing order, with the key the
      walk gives it when `items` is listed under `prefix`. */
  function Flatten(items: seq<Node>, prefix: string): (r: seq<FileRef>)
    ensures forall f | f in r :: Below(f.key, prefix)
    decreases items
  {
    if |items| == 0 then []
    else
      var head := (match items[0]
        case Folder(_, name, kids) =>
          var inner := Flatten(kids, Key(prefix, name));
          BelowNested(inner, prefix, name);
          inner
        case File(id, name) => [FileRef(id, Key(prefix, name))]);
      head + Flatten(items[1..], prefix)
  }

  /** A key below `prefix + "/" + name` is also below `prefix`. */
  lemma BelowNested(files: seq<FileRef>, prefix: string, name: string)
    requires forall f | f in files :: Below(f.key, Key(prefix, name))
    ensures forall f | f in files :: Below(f.key, prefix)
  {
  }

  /** The number of files under `items`. */
  function FileCount(items: seq<Node>): nat
    decreases items
  {
    if |items| == 0 then 0
    else
      (match items[0]
         case Folder(_, _, kids) => FileCount(kids)
         case File(_, _) => 1)
      + FileCount(items[1..])
  }

  /** Every file under `items` with its path of names, independent of any prefix. */
  function Entries(items: seq<Node>): seq<Entry>
    decreases items
  {
    if |items| == 0 then []
    else
      (match items[0]
         case Folder(_, name, kids) => Under(name, Entries(kids))
         case File(id, name) => [Entry(id, [name])])
      + Entries(items[1..])
  }

  /** Reachability, stated on the tree itself: some item listed in `items`
      is named `segments[0]` and is either the File `id` (when that is the
      last name) or a Folder whose own listing reaches the rest. */
  predicate Holds(items: seq<Node>, id: string, segments: seq<string>)
    decreases items, 1
  {
    exists i :: 0 <= i < |items| && HoldsHere(items, i, id, segments)
  }

  /** The item at index `i` of `items` reaches the File `id` along `segments`. */
  predicate HoldsHere(items: seq<Node>, i: int, id: string, segments: seq<string>)
    requires 0 <= i < |items|
    decreases items, 0
  {
    && |segments| > 0
    && items[i].name == segments[0]
    && match items[i]
       case File(fid, _) => fid == id && |segments| == 1
       case Folder(_, _, kids) => Holds(kids, id, segments[1..])
  }

  /** The entries `es` seen from one folder up, through a folder named `name`. */
  function Under(name: string, es: seq<Entry>): seq<Entry>
  {
    seq(|es|, i requires 0 <= i < |es| => Entry(es[i].id, [name] + es[i].segments))
  }

  /** The key reached from `prefix` by descending through `segments`, one
      slash per level. */
  function Path(prefix: string, segments: seq<string>): string
    decreases |segments|
  {
    if |segments| == 0 then prefix else Path(Key(prefix, segments[0]), segments[1..])
  }

  /** The segments joined by single slashes. */
  function Join(segments: seq<string>): string
    requires |segments| > 0
  {
    if |segments| == 1 then segments[0] else segments[0] + "/" + Join(segments[1..])
  }

  /** Entries placed under `prefix`. */
  function Locate(es: seq<Entry>, prefix: string): seq<FileRef>
  {
    seq(|es|, i requires 0 <= i < |es| => FileRef(es[i].id, Path(prefix, es[i].segments)))
  }

  /** Descending through a non-empty path from `prefix` yields the prefix, a
      slash, and the path's names joined by slashes. */
  lemma {:induction false} PathIsJoin(prefix: string, segments: seq<string>)
    requires |segments| > 0
    ensures Path(prefix, segments) == prefix + "/" + Join(segments)
    decreases |segments|
  {
    if |segments| > 1 {
      PathIsJoin(Key(prefix, segments[0]), segments[1..]);
      assert Key(prefix, segments[0]) + "/" + Join(segments[1..])
          == prefix + "/" + (segments[0] + "/" + Join(segments[1..]));
    }
  }

  lemma LocateAppend(a: seq<Entry>, b: seq<Entry>, prefix: string)
    ensures Locate(a + b, prefix) == Locate(a, prefix) + Locate(b, prefix)
  {
  }

  lemma {:induction false} LocateUnder(name: string, es: seq<Entry>, prefix: string)
    ensures Locate(Under(name, es), prefix) == Locate(es, Key(prefix, name))
  {
  }

  /** The walk's keys agree with the path description: each file's key is
      the prefix followed by the names from the listed folder down to the
      file. */
  lemma {:induction false} FlattenLocatesEntries(items: seq<Node>, prefix: string)
    ensures Flatten(items, prefix) == Locate(Entries(items), prefix)
    decreases items
  {
    if |items| > 0 {
      FlattenLocatesEntries(items[1..], prefix);
      match items[0]
      case Folder(_, name, kids) =>
        FlattenLocatesEntries(kids, Key(prefix, name));
        LocateUnder(name, Entries(kids), prefix);
        LocateAppend(Under(name, Entries(kids)), Entries(items[1..]), prefix);
      case File(id, name) =>
        assert Path(prefix, [name]) == Key(prefix, name) by {
          assert [name][1..] == [];
        }
        LocateAppend([Entry(id, [name])], Entries(items[1..]), prefix);
    }
  }

  lemma HoldsWitness(items: seq<Node>, id: string, segments: seq<string>) returns (i: int)
    requires Holds(items, id, segments)
    ensures 0 <= i < |items| && HoldsHere(items, i, id, segments)
  {
    i :| 0 <= i < |items| && HoldsHere(items, i, id, segments);
  }

  lemma HoldsSplit(items: seq<Node>, id: string, segments: seq<string>)
    requires |items| > 0
    ensures Holds(items, id, segments)
        <==> HoldsHere(items, 0, id, segments) || Holds(items[1..], id, segments)
  {
    var rest := items[1..];
    if Holds(items, id, segments) && !HoldsHere(items, 0, id, segments) {
      var i := HoldsWitness(items, id, segments);
      assert rest[i - 1] == items[i];
      assert HoldsHere(rest, i - 1, id, segments);
    }
    if Holds(rest, id, segments) {
      var i := HoldsWitness(rest, id, segments);
      assert rest[i] == items[i + 1];
      assert HoldsHere(items, i + 1, id, segments);
    }
  }

  /** The file list agrees with reachability in the tree: a File `id` is
      reached from the listing along `segments` exactly when the entries
      record it with that path. Nothing reachable is left out, and nothing
      is listed that is not reachable. */
  lemma {:induction false} HoldsIffEntry(items: seq<Node>, id: string, segments: seq<string>)
    ensures Holds(items, id, segments) <==> Entry(id, segments) in Entries(items)
    decreases items
  {
    if |items| > 0 {
      var rest := items[1..];
      HoldsSplit(items, id, segments);
      HoldsIffEntry(rest, id, segments);
      match items[0] {
        case File(fid, name) =>
          assert Entries(items) == [Entry(fid, [name])] + Entries(rest);
          assert HoldsHere(items, 0, id, segments) <==> Entry(id, segments) == Entry(fid, [name]) by {
            if |segments| == 1 {
              assert segments == [segments[0]];
            }
          }
        case Folder(_, name, kids) =>
          var under := Under(name, Entries(kids));
          assert Entries(items) == under + Entries(rest);
          if |segments| > 0 {
            HoldsIffEntry(kids, id, segments[1..]);
          }
          if HoldsHere(items, 0, id, segments) {
            var k :| 0 <= k < |Entries(kids)| && Entries(kids)[k] == Entry(id, segments[1..]);
            assert under[k] == Entry(id, [name] + segments[1..]);
            assert [name] + segments[1..] == segments;
          }
          if Entry(id, segments) in under {
            var k :| 0 <= k < |under| && under[k] == Entry(id, segments);
            assert segments[1..] == Entries(kids)[k].segments;
            assert Entries(kids)[k] == Entry(id, segments[1..]);
          }
      }
    }
  }

  /** Each file under `items` appears exactly once in the flattened list. */
  lemma {:induction false} FlattenCountsFiles(items: seq<Node>, prefix: string)
    ensures |Flatten(items, prefix)| == FileCount(items)
    decreases items
  {
    if |items| > 0 {
      FlattenCountsFiles(items[1..], prefix);
      match items[0]
      case Folder(_, name, kids) => FlattenCountsFiles(kids, Key(prefix, name));
      case File(_, _) =>
    }
  }

  /** A file `report.csv` in folder `A` listed under root `yelp` is stored
      at `yelp/A/report.csv`. */
  lemma NestedFileKey()
    ensures Flatten([Folder("a-id", "A", [File("r-id", "report.csv")])], "yelp")
         == [FileRef("r-id", "yelp/A/report.csv")]
  {
    var kids := [File("r-id", "report.csv")];
    assert Key("yelp", "A") == "yelp/A";
    assert Key("yelp/A", "report.csv") == "yelp/A/report.csv";
    assert Flatten(kids, "yelp/A") == [FileRef("r-id", "yelp/A/report.csv")] by {
      assert kids[1..] == [];
    }
    assert [Folder("a-id", "A", kids)][1..] == [];
  }
}

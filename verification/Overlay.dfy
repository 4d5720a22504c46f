/** The merged overlay view against its meaning: replay every stage's changes over the base,
    oldest first. */
module Overlay {
  import opened Wrappers
  import opened Bytes

  type Path = seq<string>

  /** Where a renamed directory's lower content is, for a kernel that records renames: at a path
      from the root, or under another name beside it. */
  datatype Redirect = Absolute(path: Path) | Relative(name: string)

  /** An entry of one layer's tree, as overlayfs stores changes. */
  datatype Entry = File(content: Bytes) | Dir(isOpaque: bool, redirect: Option<Redirect>) | Whiteout

  type Layer = map<Path, Entry>

  function Parent(p: Path): Path
    requires p != []
  {
    p[..|p| - 1]
  }

  function Name(p: Path): string
    requires p != []
  {
    p[|p| - 1]
  }

  /** A tree: a plain root directory, and every entry inside a directory. */
  ghost predicate IsTree(layer: Layer) {
    && [] in layer && layer[[]] == Dir(false, None)
    && forall p :: p in layer && p != [] ==> Parent(p) in layer && layer[Parent(p)].Dir?
  }

  ghost predicate AreTrees(layers: seq<Layer>) {
    forall i :: 0 <= i < |layers| ==> IsTree(layers[i])
  }

  /** What a process sees at a path. */
  datatype Seen = Data(content: Bytes) | Directory

  function SeenAs(e: Entry): Option<Seen> {
    match e
    case File(content) => Some(Data(content))
    case Dir(_, _) => Some(Directory)
    case Whiteout => None
  }

  // ------------------------------------------------------------------- replay

  /** Where the lower content a layer leaves at `p` comes from: nowhere, when the layer has deleted
      or replaced what was there, and from where a directory was renamed. */
  function Origin(layer: Layer, p: Path): Option<Path> {
    if p == [] then Some([])
    else
      var above := Origin(layer, Parent(p));
      if p !in layer then Below(above, Name(p))
      else
        match layer[p]
        case Dir(false, None) => Below(above, Name(p))
        case Dir(false, Some(Relative(name))) => Below(above, name)
        case Dir(false, Some(Absolute(path))) => Some(path)
        case _ => None
  }

  function Below(above: Option<Path>, name: string): Option<Path> {
    if above.Some? then Some(above.value + [name]) else None
  }

  type FileSystem = Path -> Option<Seen>

  /** One stage's changes: its own entries, and what they leave of the older tree, moved along with
      the directories that were renamed. */
  function Apply(fs: FileSystem, layer: Layer): FileSystem {
    (p: Path) =>
      if p in layer then SeenAs(layer[p])
      else match Origin(layer, p) case None => None case Some(from) => fs(from)
  }

  function Nothing(): FileSystem {
    (p: Path) => None
  }

  function Replay(layers: seq<Layer>): FileSystem {
    if layers == [] then Nothing() else Apply(Replay(layers[..|layers| - 1]), layers[|layers| - 1])
  }

  /** No entry of the layer lies between a directory and what is at `x` below it. */
  ghost predicate Untouched(layer: Layer, dir: Path, x: Path) {
    forall k :: 0 < k <= |x| ==> dir + x[..k] !in layer
  }

  lemma UntouchedAbove(layer: Layer, dir: Path, x: Path)
    requires x != [] && Untouched(layer, dir, x)
    ensures Untouched(layer, dir, Parent(x)) && dir + x !in layer
    ensures Parent(dir + x) == dir + Parent(x) && Name(dir + x) == Name(x) && Parent(x) + [Name(x)] == x
  {
    assert x[..|x|] == x;
    forall k | 0 < k <= |Parent(x)|
      ensures dir + Parent(x)[..k] !in layer
    {
      assert Parent(x)[..k] == x[..k];
    }
  }

  /** What a layer leaves below a directory it does not otherwise touch comes from below the place
      the directory itself comes from. */
  lemma {:induction false} OriginBelow(layer: Layer, dir: Path, x: Path)
    requires Untouched(layer, dir, x)
    ensures Origin(layer, dir + x) == match Origin(layer, dir) case None => None case Some(from) => Some(from + x)
  {
    if x == [] {
      assert dir + x == dir;
      assert forall from: Path :: from + x == from;
    } else {
      UntouchedAbove(layer, dir, x);
      OriginBelow(layer, dir, Parent(x));
      assert forall from: Path :: (from + Parent(x)) + [Name(x)] == from + x;
    }
  }

  /** Renaming a directory, as a layer stores it, moves everything the layer leaves below it. */
  lemma {:induction false} RenameMoves(fs: FileSystem, layer: Layer, a: Path, b: Path, x: Path)
    requires a != [] && a in layer && layer[a] == Whiteout
    requires b != [] && b in layer && layer[b] == Dir(false, Some(Absolute(a)))
    requires x != [] && Untouched(layer, a, x) && Untouched(layer, b, x)
    ensures Apply(fs, layer)(b + x) == fs(a + x) && Apply(fs, layer)(a + x) == None
  {
    OriginBelow(layer, a, x);
    OriginBelow(layer, b, x);
    UntouchedAbove(layer, a, x);
    UntouchedAbove(layer, b, x);
  }

  function Reverse(layers: seq<Layer>): (r: seq<Layer>)
    ensures |r| == |layers|
  {
    if layers == [] then [] else [layers[|layers| - 1]] + Reverse(layers[..|layers| - 1])
  }

  /** Replay read from the newest layer down. */
  function Scan(layers: seq<Layer>, p: Path): Option<Seen> {
    if layers == [] then None
    else if p in layers[0] then SeenAs(layers[0][p])
    else match Origin(layers[0], p) case None => None case Some(from) => Scan(layers[1..], from)
  }

  lemma {:induction false} ReplayIsScan(layers: seq<Layer>, p: Path)
    ensures Replay(layers)(p) == Scan(Reverse(layers), p)
  {
    if layers != [] {
      var top, older := layers[|layers| - 1], layers[..|layers| - 1];
      assert Reverse(layers)[1..] == Reverse(older);
      if p !in top && Origin(top, p).Some? {
        ReplayIsScan(older, Origin(top, p).value);
      }
    }
  }

  // ------------------------------------------------------------ overlay lookup

  /** A directory of one layer that takes part in a merge: the layer, the layers below it, and the
      path it has in that layer. */
  datatype Place = Place(layers: seq<Layer>, path: Path)

  /** The directories merged at an absolute path, as followed from the roots down. */
  function FromRoots(layers: seq<Layer>, p: Path): seq<Place> {
    if layers == [] then []
    else
      var below := match Origin(layers[0], p) case None => [] case Some(from) => FromRoots(layers[1..], from);
      if p !in layers[0] then below
      else if layers[0][p].Dir? then [Place(layers, p)] + below
      else []
  }

  /** The directories merged under `name` in the directories `stack`: down to an opaque one or to
      what is no directory; a redirect changes the name to look for, or leaves the stack for the
      roots of the layers below. */
  function DirsIn(stack: seq<Place>, name: string): seq<Place>
    requires forall i :: 0 <= i < |stack| ==> stack[i].layers != []
  {
    if stack == [] then []
    else
      var layers, p := stack[0].layers, stack[0].path + [name];
      if p !in layers[0] then DirsIn(stack[1..], name)
      else
        match layers[0][p]
        case Dir(false, None) => [Place(layers, p)] + DirsIn(stack[1..], name)
        case Dir(false, Some(Relative(other))) => [Place(layers, p)] + DirsIn(stack[1..], other)
        case Dir(false, Some(Absolute(path))) => [Place(layers, p)] + FromRoots(layers[1..], path)
        case Dir(true, _) => [Place(layers, p)]
        case _ => []
  }

  /** What is first found under `name`. */
  function FirstIn(stack: seq<Place>, name: string): Option<Seen>
    requires forall i :: 0 <= i < |stack| ==> stack[i].layers != []
  {
    if stack == [] then None
    else
      var layers, p := stack[0].layers, stack[0].path + [name];
      if p !in layers[0] then FirstIn(stack[1..], name) else SeenAs(layers[0][p])
  }

  ghost predicate Placed(stack: seq<Place>) {
    forall i :: 0 <= i < |stack| ==> stack[i].layers != []
  }

  /** Lookup ends nowhere, at a file, or at a directory merged from some of the layers. */
  datatype Found = NotThere | FoundFile(content: Bytes) | FoundDir(stack: seq<Place>)

  /** Overlay lookup, component by component, in layers topmost first. */
  ghost function Lookup(layers: seq<Layer>, p: Path): (f: Found)
    ensures f.FoundDir? ==> Placed(f.stack)
    decreases |p|
  {
    PlacedFromRoots(layers, []);
    if p == [] then (if layers == [] then NotThere else FoundDir(FromRoots(layers, [])))
    else
      match Lookup(layers, Parent(p))
      case FoundDir(stack) =>
        PlacedDirs(stack, Name(p));
        (match FirstIn(stack, Name(p))
         case None => NotThere
         case Some(Data(content)) => FoundFile(content)
         case Some(Directory) => FoundDir(DirsIn(stack, Name(p))))
      case _ => NotThere
  }

  lemma {:induction false} PlacedFromRoots(layers: seq<Layer>, p: Path)
    ensures Placed(FromRoots(layers, p))
  {
    if layers != [] && Origin(layers[0], p).Some? {
      PlacedFromRoots(layers[1..], Origin(layers[0], p).value);
    }
  }

  lemma {:induction false} PlacedDirs(stack: seq<Place>, name: string)
    requires Placed(stack)
    ensures Placed(DirsIn(stack, name))
  {
    if stack != [] {
      var layers, p := stack[0].layers, stack[0].path + [name];
      PlacedDirs(stack[1..], name);
      if p in layers[0] {
        match layers[0][p] {
          case Dir(false, Some(Relative(other))) => PlacedDirs(stack[1..], other);
          case Dir(false, Some(Absolute(path))) => PlacedFromRoots(layers[1..], path);
          case _ =>
        }
      }
    }
  }

  ghost function View(layers: seq<Layer>, p: Path): Option<Seen> {
    match Lookup(layers, p)
    case NotThere => None
    case FoundFile(content) => Some(Data(content))
    case FoundDir(_) => Some(Directory)
  }

  // ---------------------------------------------------------------- the theorem

  lemma ChildOf(p: Path, name: string)
    ensures Parent(p + [name]) == p && Name(p + [name]) == name
  {
  }

  lemma AbsentBelow(layer: Layer, p: Path, name: string)
    requires IsTree(layer) && (p !in layer || !layer[p].Dir?)
    ensures p + [name] !in layer
  {
    ChildOf(p, name);
  }

  /** Going on from the directories merged at a path finds what following the longer path from the
      roots does. */
  lemma {:induction false} OneMoreName(layers: seq<Layer>, p: Path, name: string)
    requires AreTrees(layers)
    ensures Placed(FromRoots(layers, p))
    ensures DirsIn(FromRoots(layers, p), name) == FromRoots(layers, p + [name])
    ensures FirstIn(FromRoots(layers, p), name) == Scan(layers, p + [name])
  {
    PlacedFromRoots(layers, p);
    if layers != [] {
      var top, q := layers[0], p + [name];
      ChildOf(p, name);
      if p !in top || !top[p].Dir? {
        AbsentBelow(top, p, name);
      }
      if Origin(top, p).Some? {
        var from := Origin(top, p).value;
        OneMoreName(layers[1..], from, name);
        if q in top && top[q].Dir? && top[q].redirect.Some? && top[q].redirect.value.Relative? {
          OneMoreName(layers[1..], from, top[q].redirect.value.name);
        }
      }
      if p in top && top[p].Dir? {
        assert FromRoots(layers, p)[1..] == match Origin(top, p) case None => [] case Some(from) => FromRoots(layers[1..], from);
      }
    }
  }

  /** Only below a directory is anything merged. */
  lemma {:induction false} NothingBelow(layers: seq<Layer>, p: Path)
    requires Scan(layers, p) != Some(Directory)
    ensures FromRoots(layers, p) == []
  {
    if layers != [] && p !in layers[0] && Origin(layers[0], p).Some? {
      NothingBelow(layers[1..], Origin(layers[0], p).value);
    }
  }

  /** Component by component, lookup sees what a scan of the layers does, and goes on from exactly
      the directories that hold everything below. */
  lemma {:induction false} LookupAgrees(layers: seq<Layer>, p: Path)
    requires AreTrees(layers)
    ensures View(layers, p) == Scan(layers, p)
    ensures Lookup(layers, p).FoundDir? ==> Lookup(layers, p).stack == FromRoots(layers, p)
    decreases |p|
  {
    if p != [] {
      LookupAgrees(layers, Parent(p));
      OneMoreName(layers, Parent(p), Name(p));
      assert Parent(p) + [Name(p)] == p;
      if !Lookup(layers, Parent(p)).FoundDir? {
        NothingBelow(layers, Parent(p));
      }
    } else if layers != [] {
      assert IsTree(layers[0]);
    }
  }

  /** Lookup through the layers, topmost first, sees exactly what replaying every layer over the
      base, oldest first, leaves. The base is the oldest layer. */
  lemma ViewIsReplay(oldestFirst: seq<Layer>, p: Path)
    requires AreTrees(oldestFirst)
    ensures View(Reverse(oldestFirst), p) == Replay(oldestFirst)(p)
  {
    ReversedTrees(oldestFirst);
    LookupAgrees(Reverse(oldestFirst), p);
    ReplayIsScan(oldestFirst, p);
  }

  lemma {:induction false} ReversedTrees(layers: seq<Layer>)
    requires AreTrees(layers)
    ensures AreTrees(Reverse(layers))
  {
    if layers != [] {
      ReversedTrees(layers[..|layers| - 1]);
    }
  }

  // ----------------------------------------------------------------- what shows

  /** Both the merged view and the replay show `seen` at `p`. */
  ghost predicate Shows(upper: Layer, older: seq<Layer>, p: Path, seen: Option<Seen>) {
    View([upper] + Reverse(older), p) == seen && Replay(older + [upper])(p) == seen
  }

  /** What shows is what the replay makes of the topmost layer. */
  lemma ShowsTheTop(upper: Layer, older: seq<Layer>, p: Path)
    requires AreTrees(older) && IsTree(upper)
    ensures Shows(upper, older, p, Apply(Replay(older), upper)(p))
  {
    assert (older + [upper])[..|older|] == older;
    ViewIsReplay(older + [upper], p);
  }

  /** An entry of the topmost layer decides its path: a whiteout shows nothing, a file its content,
      a directory a directory, whatever is below. */
  lemma EntryShows(upper: Layer, older: seq<Layer>, p: Path)
    requires AreTrees(older) && IsTree(upper) && p in upper
    ensures upper[p] == Whiteout ==> Shows(upper, older, p, None)
    ensures upper[p].File? ==> Shows(upper, older, p, Some(Data(upper[p].content)))
    ensures upper[p].Dir? ==> Shows(upper, older, p, Some(Directory))
  {
    ShowsTheTop(upper, older, p);
    assert Apply(Replay(older), upper)(p) == SeenAs(upper[p]);
  }

  /** The entry cuts off what is below it in older layers: it deletes it, replaces it with a file,
      or is an opaque directory. */
  predicate CutsOff(e: Entry) {
    e == Whiteout || e.File? || (e.Dir? && e.isOpaque)
  }

  lemma {:induction false} NothingComesFrom(layer: Layer, p: Path, x: Path)
    requires p != [] && p in layer && CutsOff(layer[p])
    requires forall k :: 0 < k <= |x| && p + x[..k] in layer ==>
               !(layer[p + x[..k]].Dir? && layer[p + x[..k]].redirect.Some? && layer[p + x[..k]].redirect.value.Absolute?)
    ensures Origin(layer, p + x) == None
  {
    if x == [] {
      assert p + x == p;
    } else {
      assert x[..|x|] == x;
      assert Parent(p + x) == p + Parent(x);
      forall k | 0 < k <= |Parent(x)|
        ensures p + Parent(x)[..k] == p + x[..k]
      {
        assert Parent(x)[..k] == x[..k];
      }
      NothingComesFrom(layer, p, Parent(x));
    }
  }

  /** Below it nothing older shows, but what an absolute redirect fetches from elsewhere. */
  lemma NothingShowsBelow(upper: Layer, older: seq<Layer>, p: Path, x: Path)
    requires AreTrees(older) && IsTree(upper) && p != [] && p in upper && CutsOff(upper[p]) && p + x !in upper
    requires forall k :: 0 < k <= |x| && p + x[..k] in upper ==>
               !(upper[p + x[..k]].Dir? && upper[p + x[..k]].redirect.Some? && upper[p + x[..k]].redirect.value.Absolute?)
    ensures Shows(upper, older, p + x, None)
  {
    NothingComesFrom(upper, p, x);
    ShowsTheTop(upper, older, p + x);
  }

  lemma {:induction false} NoneBelow(layer: Layer, p: Path, x: Path)
    requires IsTree(layer) && p in layer && !layer[p].Dir? && x != []
    ensures p + x !in layer
  {
    assert Parent(p + x) == p + Parent(x);
    if |x| > 1 {
      NoneBelow(layer, p, Parent(x));
    } else {
      assert p + Parent(x) == p;
    }
  }

  /** So nothing at all shows below a whiteout or a file. */
  lemma NothingBelowFiles(upper: Layer, older: seq<Layer>, p: Path, x: Path)
    requires AreTrees(older) && IsTree(upper) && p in upper && !upper[p].Dir? && x != []
    ensures Shows(upper, older, p + x, None)
  {
    forall k | 0 < k <= |x|
      ensures p + x[..k] !in upper
    {
      NoneBelow(upper, p, x[..k]);
    }
    assert x[..|x|] == x;
    NothingShowsBelow(upper, older, p, x);
  }

  /** On the way to `p` the layer has plain directories at most. */
  ghost predicate LeavesAlone(layer: Layer, p: Path) {
    p !in layer && forall k :: 0 <= k < |p| && p[..k] in layer ==> layer[p[..k]] == Dir(false, None)
  }

  lemma {:induction false} ComesFromThere(layer: Layer, p: Path)
    requires forall k :: 0 <= k <= |p| && p[..k] in layer ==> layer[p[..k]] == Dir(false, None)
    ensures Origin(layer, p) == Some(p)
  {
    if p != [] {
      assert forall k :: 0 <= k < |p| ==> Parent(p)[..k] == p[..k];
      ComesFromThere(layer, Parent(p));
      assert p[..|p|] == p && Parent(p) + [Name(p)] == p;
    }
  }

  /** Where the topmost layer has nothing to say, the older ones show as they are. */
  lemma OlderShows(upper: Layer, older: seq<Layer>, p: Path)
    requires AreTrees(older) && IsTree(upper) && LeavesAlone(upper, p)
    ensures Shows(upper, older, p, Replay(older)(p))
  {
    assert p[..|p|] == p;
    ComesFromThere(upper, p);
    ShowsTheTop(upper, older, p);
  }

  /** A directory renamed beside its old place shows what was below the old name. */
  lemma RenamedBesideShows(upper: Layer, older: seq<Layer>, dir: Path, from: string, to: string, x: Path)
    requires AreTrees(older) && IsTree(upper) && x != []
    requires dir + [to] in upper && upper[dir + [to]] == Dir(false, Some(Relative(from))) && Untouched(upper, dir + [to], x)
    requires forall k :: 0 <= k <= |dir| && dir[..k] in upper ==> upper[dir[..k]] == Dir(false, None)
    ensures Shows(upper, older, dir + [to] + x, Replay(older)(dir + [from] + x))
  {
    ComesFromThere(upper, dir);
    ChildOf(dir, to);
    OriginBelow(upper, dir + [to], x);
    UntouchedAbove(upper, dir + [to], x);
    ShowsTheTop(upper, older, dir + [to] + x);
  }

  /** The upper directory of a fresh scratch image. */
  const FRESH_UPPER: Layer := map[[] := Dir(false, None)]

  lemma {:induction false} FreshLeavesAll(p: Path)
    ensures Origin(FRESH_UPPER, p) == Some(p)
  {
    if p != [] {
      FreshLeavesAll(Parent(p));
      assert Parent(p) + [Name(p)] == p;
    }
  }

  /** A fork of a freshly committed stage shows exactly the merged view its run ended with: the
      committed upper directory joins the lower ones under an empty new one. */
  lemma ForkShowsTheRun(lower: seq<Layer>, upper: Layer, p: Path)
    requires AreTrees(lower) && IsTree(upper)
    ensures View([FRESH_UPPER] + ([upper] + lower), p) == View([upper] + lower, p)
  {
    LookupAgrees([upper] + lower, p);
    LookupAgrees([FRESH_UPPER] + ([upper] + lower), p);
    assert ([FRESH_UPPER] + ([upper] + lower))[1..] == [upper] + lower;
    FreshLeavesAll(p);
    assert IsTree(([upper] + lower)[0]);
  }
}

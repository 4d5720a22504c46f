/** Assembling the root: from the drives found in /dev to the lower directories the kernel is
    given, through mount points and the lowerdir text. */
module OverlayRoot {
  import opened Wrappers
  import opened Overlay
  import opened Devices
  import Text

  /** `layer_mountpoint`. */
  function LayerMountpoint(index: nat): string {
    "/layers/" + Text.Dec(index)
  }

  /** The lower directories named for `n` layers, topmost first, the base last. */
  function LowerParts(n: nat): (parts: seq<string>)
    ensures |parts| == n + 1
  {
    if n == 0 then ["/"] else [LayerMountpoint(n) + "/upper"] + LowerParts(n - 1)
  }

  /** `lowerdir_chain`. */
  function LowerdirChain(n: nat): string {
    Text.Join(LowerParts(n), ":")
  }

  /** What is mounted where: the raw scratch image of a stage, seen as the tree in its `upper`
      directory. */
  type Mounts = map<string, Layer>

  /** The tree behind one lower directory. */
  function DirectoryAt(mounts: Mounts, base: Layer, path: string): Option<Layer> {
    if path == "/" then Some(base)
    else if |path| >= 6 && path[|path| - 6..] == "/upper" && path[..|path| - 6] in mounts then
      Some(mounts[path[..|path| - 6]])
    else None
  }

  function DirectoriesAt(mounts: Mounts, base: Layer, paths: seq<string>): Option<seq<Layer>> {
    if paths == [] then Some([])
    else
      var first, rest := DirectoryAt(mounts, base, paths[0]), DirectoriesAt(mounts, base, paths[1..]);
      if first.Some? && rest.Some? then Some([first.value] + rest.value) else None
  }

  /** How the kernel reads the option: the directories between colons. */
  function MountedLowers(mounts: Mounts, base: Layer, lowerdir: string): Option<seq<Layer>> {
    DirectoriesAt(mounts, base, Text.Split(lowerdir, ':'))
  }

  /** The trees of the first `n` drives. */
  function Trees(disks: map<string, Layer>, n: nat): (trees: seq<Layer>)
    requires forall k :: 0 <= k < n ==> DevPath(DriveName(k)) in disks
    ensures |trees| == n
  {
    seq(n, k requires 0 <= k < n => disks[DevPath(DriveName(k))])
  }

  predicate MountedAt(mounts: Mounts, index: nat, tree: Layer) {
    LayerMountpoint(index) in mounts && mounts[LayerMountpoint(index)] == tree
  }

  predicate MountedInOrder(mounts: Mounts, trees: seq<Layer>) {
    forall i :: 0 <= i < |trees| ==> MountedAt(mounts, i + 1, trees[i])
  }

  lemma MountpointsDiffer(i: nat, j: nat)
    requires LayerMountpoint(i) == LayerMountpoint(j)
    ensures i == j
  {
    assert LayerMountpoint(i)[8..] == Text.Dec(i) && LayerMountpoint(j)[8..] == Text.Dec(j);
    Text.DecInjective(i, j);
  }

  lemma {:induction false} NoColons(n: nat)
    ensures forall i :: 0 <= i < |LowerParts(n)| ==> ':' !in LowerParts(n)[i]
  {
    if n > 0 {
      NoColons(n - 1);
    }
  }

  lemma UpperOfMount(mounts: Mounts, base: Layer, index: nat, tree: Layer)
    requires MountedAt(mounts, index, tree)
    ensures DirectoryAt(mounts, base, LayerMountpoint(index) + "/upper") == Some(tree)
  {
    var path := LayerMountpoint(index) + "/upper";
    assert path[|path| - 6..] == "/upper" && path[..|path| - 6] == LayerMountpoint(index);
  }

  lemma OneMoreDirectory(mounts: Mounts, base: Layer, path: string, tree: Layer, paths: seq<string>, trees: seq<Layer>)
    requires DirectoryAt(mounts, base, path) == Some(tree) && DirectoriesAt(mounts, base, paths) == Some(trees)
    ensures DirectoriesAt(mounts, base, [path] + paths) == Some([tree] + trees)
  {
    assert ([path] + paths)[1..] == paths;
  }

  lemma {:induction false} PartsAreTheTrees(mounts: Mounts, base: Layer, trees: seq<Layer>)
    requires MountedInOrder(mounts, trees)
    ensures DirectoriesAt(mounts, base, LowerParts(|trees|)) == Some(Reverse([base] + trees))
  {
    var n := |trees|;
    if n == 0 {
      OneMoreDirectory(mounts, base, "/", base, [], []);
      assert [base] + trees == [base] && [base][..0] == [];
      assert Reverse([base]) == [base] + Reverse([]);
    } else {
      assert MountedAt(mounts, (n - 1) + 1, trees[n - 1]);
      PartsAreTheTrees(mounts, base, trees[..n - 1]);
      UpperOfMount(mounts, base, n, trees[n - 1]);
      OneMoreDirectory(mounts, base, LayerMountpoint(n) + "/upper", trees[n - 1], LowerParts(n - 1), Reverse([base] + trees[..n - 1]));
      assert ([base] + trees)[..n] == [base] + trees[..n - 1];
    }
  }

  /** Reading the printed text back gives the layers topmost first, over the base. */
  lemma {:induction false} LowerdirReadsBack(mounts: Mounts, base: Layer, trees: seq<Layer>)
    requires MountedInOrder(mounts, trees)
    ensures MountedLowers(mounts, base, LowerdirChain(|trees|)) == Some(Reverse([base] + trees))
  {
    NoColons(|trees|);
    Text.SplitJoin(LowerParts(|trees|), ':');
    PartsAreTheTrees(mounts, base, trees);
  }

  datatype UpperMode = Drive | Ram

  lemma MountsOne(mounts: Mounts, trees: seq<Layer>, tree: Layer)
    requires MountedInOrder(mounts, trees)
    ensures MountedInOrder(mounts[LayerMountpoint(|trees| + 1) := tree], trees + [tree])
  {
    var after := mounts[LayerMountpoint(|trees| + 1) := tree];
    forall i | 0 <= i <= |trees|
      ensures MountedAt(after, i + 1, (trees + [tree])[i])
    {
      if i < |trees| {
        assert MountedAt(mounts, i + 1, trees[i]);
        if LayerMountpoint(i + 1) == LayerMountpoint(|trees| + 1) {
          MountpointsDiffer(i + 1, |trees| + 1);
        }
      }
    }
  }

  /** Each layer device on its own mount point, in device order. */
  method MountLayers(layers: seq<string>, disks: map<string, Layer>) returns (mounts: Mounts)
    requires forall i :: 0 <= i < |layers| ==> layers[i] in disks
    ensures MountedInOrder(mounts, seq(|layers|, i requires 0 <= i < |layers| => disks[layers[i]]))
  {
    mounts := map[];
    ghost var trees: seq<Layer> := [];
    for i := 0 to |layers|
      invariant |trees| == i && forall j :: 0 <= j < i ==> trees[j] == disks[layers[j]]
      invariant MountedInOrder(mounts, trees)
    {
      var tree := disks[layers[i]];
      MountsOne(mounts, trees, tree);
      mounts := mounts[LayerMountpoint(i + 1) := tree];
      trees := trees + [tree];
    }
    assert trees == seq(|layers|, i requires 0 <= i < |layers| => disks[layers[i]]);
  }

  /** `assemble`, the ordering of it: find the drives, mount each layer, print the lowerdir, and
      what the kernel then merges. In drive mode the last drive attached is the scratch. */
  method Assemble(entries: seq<string>, nLayers: nat, upper: UpperMode, disks: map<string, Layer>, base: Layer)
    returns (lowers: Option<seq<Layer>>, scratch: Option<string>)
    requires nLayers + 1 <= 25 && Lists(entries, if upper.Drive? then nLayers + 1 else nLayers)
    requires forall k :: 0 <= k < nLayers ==> DevPath(DriveName(k)) in disks
    ensures lowers == Some(Reverse([base] + Trees(disks, nLayers)))
    ensures scratch == if upper.Drive? then Some(DevPath(DriveName(nLayers))) else None
  {
    var layers: seq<string>;
    if upper.Drive? {
      var device;
      device, layers := FindDrives(entries, nLayers);
      scratch := Some(device);
    } else {
      layers := EnumerateExtraBlockDevices(entries);
      ghost var names :| ExtrasInOrder(entries, layers, names);
      FoundInAttachOrderIff(names, nLayers);
      layers, scratch := layers[..nLayers], None;
    }
    var mounts := MountLayers(layers, disks);
    ghost var trees := Trees(disks, nLayers);
    assert trees == seq(|layers|, i requires 0 <= i < |layers| => disks[layers[i]]);
    LowerdirReadsBack(mounts, base, trees);
    lowers := MountedLowers(mounts, base, LowerdirChain(|layers|));
  }
}

/** From a stored stage to what its guest sees: the chain the store hands out, the drives the host
    attaches for it, the root the guest assembles from them, and the merged view. */
module GuestView {
  import opened Wrappers
  import opened Bytes
  import opened StageForest
  import opened Overlay
  import opened Devices
  import opened OverlayRoot
  import opened Fork
  import StageStore
  import StageTheorems

  /** The drives after the base, in the order the host attaches them: the layers root first, then
      the scratch, if there is one. */
  method AttachDrives(chain: seq<Id>, layers: map<Id, Bytes>, image: Bytes -> Layer, scratch: Option<Layer>)
    returns (drives: seq<Layer>)
    requires HasLayers(layers, chain)
    ensures drives == ChainTrees(layers, image, chain) + (if scratch.Some? then [scratch.value] else [])
  {
    drives := [];
    for i := 0 to |chain|
      invariant drives == ChainTrees(layers, image, chain)[..i]
    {
      drives := drives + [image(layers[chain[i]])];
    }
    if scratch.Some? {
      drives := drives + [scratch.value];
    }
  }

  /** The guest's /dev after `drives` were attached: each under the name the kernel gives it, in
      any directory order, and nothing else that looks like an extra drive. */
  ghost predicate Plugged(entries: seq<string>, disks: map<string, Layer>, drives: seq<Layer>) {
    && NoRepeats(entries)
    && (forall k :: 0 <= k < |drives| ==>
          DriveName(k) in entries && DevPath(DriveName(k)) in disks && disks[DevPath(DriveName(k))] == drives[k])
    && (forall x :: x in entries && IsExtraVirtioDisk(x) ==> x in DriveNames(|drives|))
  }

  /** Over a stage's lower directories a guest with any upper directory sees the changes of every
      stage of the chain, replayed over the base in commit order, and then its own. */
  ghost predicate SeesTheReplay(lowers: seq<Layer>, base: Layer, trees: seq<Layer>) {
    forall upper, p :: IsTree(upper) ==> View([upper] + lowers, p) == Replay([base] + trees + [upper])(p)
  }

  lemma LowersShowTheReplay(layers: map<Id, Bytes>, image: Bytes -> Layer, base: Layer, chain: seq<Id>)
    requires HasLayers(layers, chain) && IsTree(base) && forall c :: IsTree(image(c))
    ensures SeesTheReplay(Lowers(layers, image, base, chain), base, ChainTrees(layers, image, chain))
  {
    var older := [base] + ChainTrees(layers, image, chain);
    forall upper, p | IsTree(upper)
      ensures View([upper] + Lowers(layers, image, base, chain), p) == Replay(older + [upper])(p)
    {
      assert (older + [upper])[..|older|] == older;
      ViewIsReplay(older + [upper], p);
    }
  }

  /** Forking a stored stage: the store lists its chain, the host attaches the drives, and from
      any listing of /dev the guest assembles lower directories that show the replay of the
      chain; its own changes go to the scratch it was given. The store's invariant gives the
      layers of the chain. */
  method BootFork(store: StageStore.StageStore, id: Id, scratch: Option<Layer>, image: Bytes -> Layer, base: Layer,
                  entries: seq<string>, disks: map<string, Layer>)
    returns (lowers: Option<seq<Layer>>, device: Option<string>)
    requires store.Valid() && id in store.metas && HasLayers(store.layers, store.metas[id].chain)
    requires IsTree(base) && forall c :: IsTree(image(c))
    requires var trees := ChainTrees(store.layers, image, store.metas[id].chain);
             Plugged(entries, disks, trees + (if scratch.Some? then [scratch.value] else []))
    ensures lowers.Some? && SeesTheReplay(lowers.value, base, ChainTrees(store.layers, image, store.metas[id].chain))
    ensures device.Some? <==> scratch.Some?
    ensures device.Some? ==> device.value in disks && disks[device.value] == scratch.value
  {
    var paths := store.StoredChainPaths(id);
    var chain := paths.value;
    var drives := AttachDrives(chain, store.layers, image, scratch);
    assert |chain| <= MAX_CHAIN_DEPTH by {
      assert StageTheorems.WellFormed(store.metas, id);
    }
    ListsExactly(entries, |drives|);
    lowers, device := Assemble(entries, |chain|, if scratch.Some? then UpperMode.Drive else Ram, disks, base);
    assert Trees(disks, |chain|) == ChainTrees(store.layers, image, chain);
    LowersShowTheReplay(store.layers, image, base, chain);
  }
}

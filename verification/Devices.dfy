/** Finding the extra drives again in the guest: from attach order to device names, through a
    directory listing in any order, back to layers and scratch. */
module Devices {
  import opened Wrappers
  import Text

  // ------------------------------------------------------- lexicographic order

  /** Byte order on names, a proper prefix first. */
  predicate Less(a: string, b: string) {
    b != [] && (a == [] || a[0] < b[0] || (a[0] == b[0] && Less(a[1..], b[1..])))
  }

  lemma {:induction false} LessTransitive(a: string, b: string, c: string)
    requires Less(a, b) && Less(b, c)
    ensures Less(a, c)
  {
    if a != [] && a[0] == b[0] && b[0] == c[0] {
      LessTransitive(a[1..], b[1..], c[1..]);
    }
  }

  lemma {:induction false} LessIrreflexive(a: string)
    ensures !Less(a, a)
  {
    if a != [] {
      LessIrreflexive(a[1..]);
    }
  }

  lemma {:induction false} LessTotal(a: string, b: string)
    ensures Less(a, b) || a == b || Less(b, a)
  {
    if a != [] && b != [] && a[0] == b[0] {
      LessTotal(a[1..], b[1..]);
      assert a == [a[0]] + a[1..] && b == [b[0]] + b[1..];
    }
  }

  lemma {:induction false} LessAfterPrefix(prefix: string, a: string, b: string)
    ensures Less(prefix + a, prefix + b) == Less(a, b)
  {
    if prefix == [] {
      assert prefix + a == a && prefix + b == b;
    } else {
      LessAfterPrefix(prefix[1..], a, b);
      assert (prefix + a)[1..] == prefix[1..] + a && (prefix + b)[1..] == prefix[1..] + b;
    }
  }

  predicate Ascending(names: seq<string>) {
    forall i, j :: 0 <= i < j < |names| ==> Less(names[i], names[j])
  }

  ghost predicate SameNames(a: seq<string>, b: seq<string>) {
    forall x :: x in a <==> x in b
  }

  /** There is one ascending list of a set of names. */
  lemma {:induction false} AscendingIsUnique(a: seq<string>, b: seq<string>)
    requires Ascending(a) && Ascending(b) && SameNames(a, b)
    ensures a == b
  {
    HasAName(a);
    HasAName(b);
    if a != [] {
      SameFirst(a, b);
      forall x
        ensures x in a[1..] <==> x in b[1..]
      {
        RestWithoutFirst(a, x);
        RestWithoutFirst(b, x);
      }
      AscendingIsUnique(a[1..], b[1..]);
      assert a == [a[0]] + a[1..] && b == [b[0]] + b[1..];
    }
  }

  lemma HasAName(a: seq<string>)
    ensures a == [] || exists x :: x in a
  {
    assert a == [] || a[0] in a;
  }

  lemma SameFirst(a: seq<string>, b: seq<string>)
    requires Ascending(a) && Ascending(b) && SameNames(a, b) && a != [] && b != []
    ensures a[0] == b[0]
  {
    assert a[0] in b && b[0] in a;
    var i :| 0 <= i < |b| && b[i] == a[0];
    var j :| 0 <= j < |a| && a[j] == b[0];
    if i > 0 && j > 0 {
      LessTransitive(a[0], b[0], a[0]);
      LessIrreflexive(a[0]);
    }
  }

  lemma RestWithoutFirst(a: seq<string>, x: string)
    requires Ascending(a) && a != []
    ensures x in a[1..] <==> x in a && x != a[0]
  {
    LessIrreflexive(a[0]);
    if x in a && x != a[0] {
      var i :| 0 <= i < |a| && a[i] == x;
      assert a[1..][i - 1] == x;
    }
    if x in a[1..] {
      var i :| 0 <= i < |a[1..]| && a[1..][i] == x;
      assert Less(a[0], a[i + 1]);
    }
  }

  // --------------------------------------------------------------- device names

  /** `is_extra_virtio_disk`. */
  predicate IsExtraVirtioDisk(name: string) {
    && Text.StartsWith(name, "vd") && name != "vda"
    && |name| > 2 && forall i :: 2 <= i < |name| ==> 'a' <= name[i] <= 'z'
  }

  function Letter(d: nat): char
    requires d < 26
  {
    'a' + (d as char)
  }

  /** The suffix the kernel gives the `i`-th virtio disk: a..z, aa..zz, and so on. */
  function Suffix(i: nat): (s: string)
    ensures |s| > 0 && forall j :: 0 <= j < |s| ==> 'a' <= s[j] <= 'z'
  {
    if i < 26 then [Letter(i)] else Suffix(i / 26 - 1) + [Letter(i % 26)]
  }

  /** The `k`-th drive attached after the root. */
  function DriveName(k: nat): string {
    "vd" + Suffix(k + 1)
  }

  function DriveNames(n: nat): (names: seq<string>)
    ensures |names| == n
  {
    seq(n, k requires 0 <= k < n => DriveName(k))
  }

  lemma DriveIsExtra(k: nat)
    ensures IsExtraVirtioDisk(DriveName(k))
  {
    var name := DriveName(k);
    assert name[..2] == "vd" && name[2..] == Suffix(k + 1);
    SuffixPastRoot(k + 1);
    assert "vda"[2..] == "a";
  }

  lemma SuffixPastRoot(i: nat)
    requires i > 0
    ensures Suffix(i) != "a"
  {
    assert i < 26 || |Suffix(i / 26 - 1)| > 0;
  }

  /** The drive a suffix is given to. */
  function IndexOf(suffix: string): (i: nat)
    requires suffix != "" && forall j :: 0 <= j < |suffix| ==> 'a' <= suffix[j] <= 'z'
  {
    var last := suffix[|suffix| - 1] as nat - 'a' as nat;
    if |suffix| == 1 then last else (IndexOf(suffix[..|suffix| - 1]) + 1) * 26 + last
  }

  lemma {:induction false} SuffixOfIndex(suffix: string)
    requires suffix != "" && forall j :: 0 <= j < |suffix| ==> 'a' <= suffix[j] <= 'z'
    ensures Suffix(IndexOf(suffix)) == suffix
  {
    var last := suffix[|suffix| - 1] as nat - 'a' as nat;
    assert Letter(last) == suffix[|suffix| - 1];
    if |suffix| > 1 {
      var front := suffix[..|suffix| - 1];
      SuffixOfIndex(front);
      DividesBack(IndexOf(front), last);
      assert suffix == front + [suffix[|suffix| - 1]];
    }
  }

  lemma DividesBack(n: nat, last: nat)
    requires last < 26
    ensures ((n + 1) * 26 + last) / 26 - 1 == n && ((n + 1) * 26 + last) % 26 == last && (n + 1) * 26 + last >= 26
  {
  }

  lemma ExtraIsADrive(suffix: string)
    requires suffix != "" && suffix != "a" && forall j :: 0 <= j < |suffix| ==> 'a' <= suffix[j] <= 'z'
    ensures IndexOf(suffix) > 0 && "vd" + suffix == DriveName(IndexOf(suffix) - 1)
  {
    SuffixOfIndex(suffix);
    assert Suffix(0) == "a";
  }

  /** The filter accepts exactly the names the kernel gives the drives after the root. */
  lemma ExtraExactly(name: string)
    ensures IsExtraVirtioDisk(name) <==> exists k: nat :: name == DriveName(k)
  {
    if IsExtraVirtioDisk(name) {
      var suffix := name[2..];
      assert name == "vd" + suffix && "vd" + "a" == "vda";
      assert forall j :: 0 <= j < |suffix| ==> suffix[j] == name[j + 2];
      ExtraIsADrive(suffix);
      hide DriveName, Suffix, IndexOf;
    }
    forall k: nat | name == DriveName(k)
      ensures IsExtraVirtioDisk(name)
    {
      DriveIsExtra(k);
    }
  }

  /** Attach order is name order exactly up to `vdz`. */
  lemma AttachOrderIsNameOrderIff(n: nat)
    ensures Ascending(DriveNames(n)) <==> n <= 25
  {
    var names := DriveNames(n);
    if n <= 25 {
      forall i, j | 0 <= i < j < n
        ensures Less(names[i], names[j])
      {
        LessAfterPrefix("vd", Suffix(i + 1), Suffix(j + 1));
      }
    } else {
      assert names[25] == "vd" + "aa" by {
        assert Suffix(26) == Suffix(0) + ['a'];
      }
      assert names[0] == "vd" + "b";
      LessAfterPrefix("vd", "b", "aa");
      assert !Less(names[0], names[25]);
    }
  }

  // ---------------------------------------------------------------- enumeration

  function DevPath(name: string): string {
    "/dev/" + name
  }

  function DevPaths(names: seq<string>): (paths: seq<string>)
    ensures |paths| == |names|
  {
    seq(|names|, i requires 0 <= i < |names| => DevPath(names[i]))
  }

  /** A directory has each name once. */
  ghost predicate NoRepeats(names: seq<string>) {
    forall i, j :: 0 <= i < j < |names| ==> names[i] != names[j]
  }

  /** The paths of the extra drives among the entries, by ascending name. */
  ghost predicate ExtrasInOrder(entries: seq<string>, paths: seq<string>, names: seq<string>) {
    && Ascending(names) && paths == DevPaths(names)
    && forall x :: x in names <==> x in entries && IsExtraVirtioDisk(x)
  }

  /** `enumerate_extra_block_devices`, over the entries of /dev in directory order. */
  method EnumerateExtraBlockDevices(entries: seq<string>) returns (paths: seq<string>)
    requires NoRepeats(entries)
    ensures exists names :: ExtrasInOrder(entries, paths, names)
  {
    var sorted: seq<string> := [];
    for i := 0 to |entries|
      invariant Ascending(sorted)
      invariant forall x :: x in sorted <==> x in entries[..i] && IsExtraVirtioDisk(x)
    {
      assert entries[..i + 1] == entries[..i] + [entries[i]];
      if IsExtraVirtioDisk(entries[i]) {
        assert entries[i] !in entries[..i];
        sorted := Insert(sorted, entries[i]);
      }
    }
    assert entries[..|entries|] == entries;
    paths := DevPaths(sorted);
    assert ExtrasInOrder(entries, paths, sorted);
  }

  method Insert(sorted: seq<string>, name: string) returns (r: seq<string>)
    requires Ascending(sorted) && name !in sorted
    ensures Ascending(r) && forall x :: x in r <==> x in sorted || x == name
  {
    var i := 0;
    while i < |sorted| && Less(sorted[i], name)
      invariant i <= |sorted| && forall j :: 0 <= j < i ==> Less(sorted[j], name)
      decreases |sorted| - i
    {
      i := i + 1;
    }
    if i < |sorted| {
      LessTotal(sorted[i], name);
    }
    forall j | i <= j < |sorted|
      ensures Less(name, sorted[j])
    {
      if i < j {
        LessTransitive(name, sorted[i], sorted[j]);
      }
    }
    r := sorted[..i] + [name] + sorted[i..];
    InsertedNames(sorted, i, name);
  }

  lemma InsertedNames(s: seq<string>, i: nat, name: string)
    requires i <= |s|
    ensures forall x :: x in s[..i] + [name] + s[i..] <==> x in s || x == name
  {
    assert s == s[..i] + s[i..];
  }

  /** `split_scratch_and_layers`. */
  function SplitScratchAndLayers(extras: seq<string>, nLayers: nat): Option<(string, seq<string>)> {
    if extras == [] then None
    else
      var take := if nLayers <= |extras| - 1 then nLayers else |extras| - 1;
      Some((extras[|extras| - 1], extras[..take]))
  }

  /** With any number of drives the last is the scratch, and as many as are wanted and there of the
      others are the layers. */
  lemma SplitsAtTheLast(extras: seq<string>, scratch: string, nLayers: nat)
    ensures SplitScratchAndLayers([], nLayers) == None
    ensures nLayers <= |extras| ==> SplitScratchAndLayers(extras + [scratch], nLayers) == Some((scratch, extras[..nLayers]))
    ensures nLayers >= |extras| ==> SplitScratchAndLayers(extras + [scratch], nLayers) == Some((scratch, extras))
  {
    var all := extras + [scratch];
    assert all[..|extras|] == extras;
    assert nLayers <= |extras| ==> all[..nLayers] == extras[..nLayers];
  }

  /** A listing of /dev with `n` extra drives among entries that are no such drive. */
  ghost predicate Lists(entries: seq<string>, n: nat) {
    && NoRepeats(entries)
    && forall x :: (x in entries && IsExtraVirtioDisk(x)) <==> x in DriveNames(n)
  }

  /** Such a listing holds every drive attached, and nothing else that looks like one. */
  lemma ListsExactly(entries: seq<string>, n: nat)
    ensures Lists(entries, n) <==>
              && NoRepeats(entries)
              && (forall k :: 0 <= k < n ==> DriveName(k) in entries)
              && (forall x :: x in entries && IsExtraVirtioDisk(x) ==> x in DriveNames(n))
  {
    forall k | 0 <= k < n
      ensures DriveName(k) in DriveNames(n) && IsExtraVirtioDisk(DriveName(k))
    {
      assert DriveNames(n)[k] == DriveName(k);
      DriveIsExtra(k);
    }
    assert forall x :: x in DriveNames(n) ==> exists k :: 0 <= k < n && x == DriveName(k);
  }

  /** The enumeration finds the drives in the order they were attached exactly when there are at
      most 25; with the depth limit there are at most eleven. */
  lemma FoundInAttachOrderIff(names: seq<string>, n: nat)
    requires Ascending(names) && SameNames(names, DriveNames(n))
    ensures names == DriveNames(n) <==> n <= 25
  {
    AttachOrderIsNameOrderIff(n);
    if n <= 25 {
      AscendingIsUnique(names, DriveNames(n));
    }
  }

  /** Filter, sort and split: the layers bottom to top and the last drive as scratch, whatever
      the directory order. */
  method FindDrives(entries: seq<string>, nLayers: nat) returns (scratch: string, layers: seq<string>)
    requires nLayers + 1 <= 25 && Lists(entries, nLayers + 1)
    ensures scratch == "/dev/" + DriveName(nLayers)
    ensures |layers| == nLayers && forall k :: 0 <= k < nLayers ==> layers[k] == "/dev/" + DriveName(k)
    ensures layers == DevPaths(DriveNames(nLayers))
  {
    var extras := EnumerateExtraBlockDevices(entries);
    ghost var names :| ExtrasInOrder(entries, extras, names);
    FoundInAttachOrderIff(names, nLayers + 1);
    var split := SplitScratchAndLayers(extras, nLayers);
    scratch, layers := split.value.0, split.value.1;
  }
}

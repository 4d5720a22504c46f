/** The name of the sibling file a copy is staged in. Names are UTF-8 byte strings. */
module StagingName {
  import opened Bytes
  import Text

  const NAME_MAX: nat := 255

  const DOT: Byte := 46

  /** `str::is_char_boundary`: not in the middle of a UTF-8 sequence. */
  predicate IsBoundary(base: Bytes, i: nat) {
    i == 0 || i == |base| || (i < |base| && !(128 <= base[i] < 192))
  }

  // -------------------------------------------------------- what a boundary is

  /** A character in UTF-8 (RFC 3629 section 3). */
  function Utf8(c: char): (b: Bytes)
    ensures 1 <= |b| <= 4 && !(128 <= b[0] < 192) && forall i :: 0 < i < |b| ==> 128 <= b[i] < 192
  {
    var n := c as int;
    if n < 0x80 then [n]
    else if n < 0x800 then [0xC0 + n / 64, 0x80 + n % 64]
    else if n < 0x1_0000 then [0xE0 + n / 4096, 0x80 + n / 64 % 64, 0x80 + n % 64]
    else [0xF0 + n / 262144, 0x80 + n / 4096 % 64, 0x80 + n / 64 % 64, 0x80 + n % 64]
  }

  lemma SixBitsAtATime(n: nat)
    ensures n == n / 64 * 64 + n % 64
    ensures n / 64 == n / 4096 * 64 + n / 64 % 64
    ensures n / 4096 == n / 262144 * 64 + n / 4096 % 64
  {
    assert n / 4096 == n / 64 / 64 && n / 262144 == n / 4096 / 64;
  }

  /** The number a character's bytes stand for: the first tells how many follow, with six bits each. */
  function Value(b: seq<int>): int
    requires 1 <= |b| <= 4
  {
    if |b| == 1 then b[0]
    else if |b| == 2 then (b[0] - 192) * 64 + (b[1] - 128)
    else if |b| == 3 then ((b[0] - 224) * 64 + (b[1] - 128)) * 64 + (b[2] - 128)
    else (((b[0] - 240) * 64 + (b[1] - 128)) * 64 + (b[2] - 128)) * 64 + (b[3] - 128)
  }

  lemma Utf8ReadsBack(c: char)
    ensures Value(Utf8(c)) == c as int
    ensures var b := Utf8(c);
            |b| == (if b[0] < 128 then 1 else if b[0] < 224 then 2 else if b[0] < 240 then 3 else 4)
  {
    SixBitsAtATime(c as int);
  }

  function Encoded(text: string): Bytes {
    if text == [] then [] else Encoded(text[..|text| - 1]) + Utf8(text[|text| - 1])
  }

  lemma {:induction false} EncodedGrows(text: string, k: nat)
    requires k <= |text|
    ensures |Encoded(text[..k])| <= |Encoded(text)|
  {
    if k < |text| {
      var front := text[..|text| - 1];
      EncodedGrows(front, k);
      assert front[..k] == text[..k];
    } else {
      assert text[..k] == text;
    }
  }

  predicate EndsCharacters(text: string, i: nat, k: nat) {
    k <= |text| && i == |Encoded(text[..k])|
  }

  /** One more character adds one boundary, its end. */
  lemma OneMoreBoundary(front: Bytes, c: char, i: nat)
    requires i <= |front| + |Utf8(c)|
    ensures IsBoundary(front + Utf8(c), i) <==> (i <= |front| && IsBoundary(front, i)) || i == |front| + |Utf8(c)|
  {
    var all := front + Utf8(c);
    if i < |front| {
      assert all[i] == front[i];
    } else if i < |all| {
      assert all[i] == Utf8(c)[i - |front|];
    }
  }

  lemma OneMoreEnd(text: string, i: nat)
    requires text != []
    ensures var front := text[..|text| - 1];
            (exists k: nat :: EndsCharacters(text, i, k)) <==> (exists k: nat :: EndsCharacters(front, i, k)) || i == |Encoded(text)|
  {
    var front := text[..|text| - 1];
    assert text[..|text|] == text;
    hide Encoded;
    if i == |Encoded(text)| {
      assert EndsCharacters(text, i, |text|);
    }
    forall k: nat | EndsCharacters(text, i, k) && k < |text|
      ensures EndsCharacters(front, i, k)
    {
      assert front[..k] == text[..k];
    }
    forall k: nat | EndsCharacters(front, i, k)
      ensures EndsCharacters(text, i, k)
    {
      assert front[..k] == text[..k];
    }
  }

  /** In a UTF-8 text the boundaries are exactly where some number of its characters end. */
  lemma {:induction false} BoundariesEndCharacters(text: string, i: nat)
    requires i <= |Encoded(text)|
    ensures IsBoundary(Encoded(text), i) <==> exists k: nat :: EndsCharacters(text, i, k)
  {
    if text == [] {
      assert EndsCharacters(text, 0, 0);
    } else {
      var n := |text| - 1;
      var front := text[..n];
      assert Encoded(text) == Encoded(front) + Utf8(text[n]);
      OneMoreBoundary(Encoded(front), text[n], i);
      OneMoreEnd(text, i);
      if i <= |Encoded(front)| {
        BoundariesEndCharacters(front, i);
      } else {
        NoEndBeyond(front, i);
      }
      hide EndsCharacters, Encoded, IsBoundary;
    }
  }

  lemma NoEndBeyond(text: string, i: nat)
    requires i > |Encoded(text)|
    ensures forall k: nat :: !EndsCharacters(text, i, k)
  {
    forall k: nat | k <= |text|
      ensures |Encoded(text[..k])| < i
    {
      EncodedGrows(text, k);
    }
  }

  // ------------------------------------------------------------- the staging name

  function Limit(base: Bytes, suffixLen: nat): nat {
    Min(SatSub(NAME_MAX, suffixLen + 1), |base|)
  }

  /** The largest boundary not past `keep`. */
  function BoundaryBefore(base: Bytes, keep: nat): (k: nat)
    requires keep <= |base|
    ensures k <= keep && IsBoundary(base, k)
    ensures forall i :: k < i <= keep ==> !IsBoundary(base, i)
  {
    if keep == 0 || IsBoundary(base, keep) then keep else BoundaryBefore(base, keep - 1)
  }

  /** `clamp_stage_base`: the longest prefix of the name that ends on a character boundary and
      leaves room for the dot and the suffix. */
  method ClampStageBase(base: Bytes, suffixLen: nat) returns (kept: Bytes)
    ensures kept == base[..BoundaryBefore(base, Limit(base, suffixLen))]
    ensures kept <= base && IsBoundary(base, |kept|)
    ensures suffixLen < 255 ==> 1 + |kept| + suffixLen <= 255
    ensures forall i :: |kept| < i <= |base| && 1 + i + suffixLen <= 255 ==> !IsBoundary(base, i)
  {
    var keep: nat := Min(SatSub(NAME_MAX, suffixLen + 1), |base|);
    while keep > 0 && !IsBoundary(base, keep)
      invariant keep <= Limit(base, suffixLen)
      invariant BoundaryBefore(base, keep) == BoundaryBefore(base, Limit(base, suffixLen))
    {
      keep := keep - 1;
    }
    kept := base[..keep];
  }

  /** `.isopod-<pid>-<n>.part`. */
  function Suffix(pid: nat, n: nat): Bytes {
    Ascii(".isopod-" + Text.Dec(pid) + "-" + Text.Dec(n) + ".part")
  }

  function StagingFor(base: Bytes, suffix: Bytes): Bytes {
    [DOT] + base[..BoundaryBefore(base, Limit(base, |suffix|))] + suffix
  }

  /** A suffix starts with a dot, is ASCII, and leaves most of the name. */
  predicate SuffixShape(suffix: Bytes) {
    1 <= |suffix| <= 54 && suffix[0] == DOT && forall i :: 0 <= i < |suffix| ==> suffix[i] < 128
  }

  lemma SuffixHasShape(pid: nat, n: nat)
    requires pid <= U64_MAX && n <= U64_MAX
    ensures SuffixShape(Suffix(pid, n))
  {
    Text.U64Length(pid);
    Text.U64Length(n);
    var text := ".isopod-" + Text.Dec(pid) + "-" + Text.Dec(n) + ".part";
    forall i | 0 <= i < |text|
      ensures text[i] as int < 128
    {
      TextIsAscii(Text.Dec(pid), Text.Dec(n), i);
    }
  }

  lemma TextIsAscii(p: string, n: string, i: nat)
    requires Text.AllDigits(p) && Text.AllDigits(n)
    requires i < |".isopod-" + p + "-" + n + ".part"|
    ensures (".isopod-" + p + "-" + n + ".part")[i] as int < 128
  {
    var head, mid, tail := ".isopod-", "-", ".part";
    var text := head + p + mid + n + tail;
    if i < |head| {
      assert text[i] == head[i];
    } else if i < |head| + |p| {
      assert text[i] == p[i - |head|];
    } else if i < |head| + |p| + 1 {
      assert text[i] == mid[0];
    } else if i < |head| + |p| + 1 + |n| {
      assert text[i] == n[i - |head| - |p| - 1];
    } else {
      assert text[i] == tail[i - |head| - |p| - 1 - |n|];
    }
  }

  function Dots(k: nat): Bytes {
    seq(k, _ => DOT)
  }

  /** The one shape of destination name a copy stages on top of itself: 255 bytes, all dots but
      for the copy's own suffix. */
  predicate SelfStaged(base: Bytes, suffix: Bytes) {
    |base| == NAME_MAX && |suffix| < NAME_MAX && base == Dots(NAME_MAX - |suffix|) + suffix
  }

  lemma {:induction false} ShiftedDots(base: Bytes, k: nat, i: nat)
    requires k < |base| && base[0] == DOT && i <= k
    requires forall j :: 0 <= j < k ==> base[j + 1] == base[j]
    ensures base[i] == DOT
  {
    if i > 0 {
      ShiftedDots(base, k, i - 1);
      assert base[(i - 1) + 1] == base[i - 1];
    }
  }

  lemma SelfStagedOnly(base: Bytes, suffix: Bytes)
    requires SuffixShape(suffix) && StagingFor(base, suffix) == base
    ensures SelfStaged(base, suffix)
  {
    var limit := Limit(base, |suffix|);
    var k := BoundaryBefore(base, limit);
    assert |base| == 1 + k + |suffix|;
    assert limit == NAME_MAX - 1 - |suffix|;
    assert base == ([DOT] + base[..k]) + suffix;
    forall j | 0 <= j < k
      ensures base[j + 1] == base[j]
    {
      assert ([DOT] + base[..k])[j + 1] == base[..k][j];
    }
    forall i | 0 <= i <= k
      ensures base[i] == DOT
    {
      ShiftedDots(base, k, i);
    }
    assert base[k + 1..] == suffix;
    forall i | 0 <= i < |base|
      ensures base[i] < 128
    {
      if i > k {
        assert base[i] == suffix[i - k - 1];
      }
    }
    assert IsBoundary(base, limit);
    assert k == limit;
  }

  /** A copy's staging file is the destination itself exactly for that shape. */
  lemma StagedOnItself(base: Bytes, suffix: Bytes)
    requires SuffixShape(suffix)
    ensures StagingFor(base, suffix) == base <==> SelfStaged(base, suffix)
  {
    if StagingFor(base, suffix) == base {
      SelfStagedOnly(base, suffix);
    }
    if SelfStaged(base, suffix) {
      var limit := Limit(base, |suffix|);
      assert base[limit] == DOT;
      assert IsBoundary(base, limit) && BoundaryBefore(base, limit) == limit;
      assert [DOT] + base[..limit] == Dots(NAME_MAX - |suffix|);
    }
  }

  // ---------------------------------------------------------- one name per copy

  predicate Digits(b: Bytes) {
    forall i :: 0 <= i < |b| ==> 48 <= b[i] < 58
  }

  lemma AsciiConcat(a: string, b: string)
    ensures Ascii(a + b) == Ascii(a) + Ascii(b)
  {
  }

  lemma AsciiDec(n: nat)
    ensures Digits(Ascii(Text.Dec(n)))
  {
    var text := Text.Dec(n);
    forall i | 0 <= i < |text|
      ensures 48 <= Ascii(text)[i] < 58
    {
      assert Text.IsDigit(text[i]);
    }
  }

  lemma AsciiInjective(a: string, b: string)
    requires Ascii(a) == Ascii(b)
    requires Text.AllDigits(a) && Text.AllDigits(b)
    ensures a == b
  {
    assert |a| == |b|;
    forall i | 0 <= i < |a|
      ensures a[i] == b[i]
    {
      assert Ascii(a)[i] == Ascii(b)[i];
    }
  }

  /** The dash is the last byte that is no digit. */
  lemma AfterDash(s: Bytes, v: Bytes, n: Bytes, k: nat)
    requires s == v + [45] + n && Digits(n) && k < |s| && s[k] == 45
    ensures k <= |v| && s[|v|] == 45
  {
    forall i | |v| < i < |s|
      ensures s[i] != 45
    {
      assert s[i] == n[i - |v| - 1];
    }
  }

  /** The digits at the end of a name, back to a dash. */
  lemma SameTail(u: Bytes, m: Bytes, v: Bytes, n: Bytes)
    requires u + [45] + m == v + [45] + n && Digits(m) && Digits(n)
    ensures u == v && m == n
  {
    var s := u + [45] + m;
    AfterDash(s, u, m, |u|);
    AfterDash(s, v, n, |v|);
    AfterDash(s, u, m, |v|);
    AfterDash(s, v, n, |u|);
    assert s[..|u|] == u && s[..|v|] == v && s[|u| + 1..] == m && s[|v| + 1..] == n;
  }

  /** A staging name as its end is read back. */
  lemma NameParts(base: Bytes, pid: nat, n: nat) returns (head: Bytes)
    ensures StagingFor(base, Suffix(pid, n)) == head + [45] + Ascii(Text.Dec(pid)) + [45] + Ascii(Text.Dec(n)) + Ascii(".part")
  {
    var suffix := Suffix(pid, n);
    var p, q := Text.Dec(pid), Text.Dec(n);
    AsciiConcat(".isopod-" + p + "-" + q, ".part");
    AsciiConcat(".isopod-" + p + "-", q);
    AsciiConcat(".isopod-" + p, "-");
    AsciiConcat(".isopod-", p);
    AsciiConcat(".isopod", "-");
    assert Ascii("-") == [45];
    head := [DOT] + base[..BoundaryBefore(base, Limit(base, |suffix|))] + Ascii(".isopod");
    assert ".isopod" + "-" == ".isopod-";
    assert suffix == Ascii(".isopod") + [45] + Ascii(p) + [45] + Ascii(q) + Ascii(".part");
  }

  /** Two copies never pick one staging name, whatever their destinations: the name says which
      process and which of its copies it belongs to. */
  lemma StagingNamesDiffer(a: Bytes, p: nat, n: nat, b: Bytes, q: nat, m: nat)
    requires StagingFor(a, Suffix(p, n)) == StagingFor(b, Suffix(q, m))
    ensures p == q && n == m
  {
    var h := NameParts(a, p, n);
    var g := NameParts(b, q, m);
    var ps, ns, qs, ms := Ascii(Text.Dec(p)), Ascii(Text.Dec(n)), Ascii(Text.Dec(q)), Ascii(Text.Dec(m));
    AsciiDec(p);
    AsciiDec(n);
    AsciiDec(q);
    AsciiDec(m);
    SameFront(h + [45] + ps + [45] + ns, g + [45] + qs + [45] + ms, Ascii(".part"));
    SameTail(h + [45] + ps, ns, g + [45] + qs, ms);
    SameTail(h, ps, g, qs);
    AsciiInjective(Text.Dec(p), Text.Dec(q));
    AsciiInjective(Text.Dec(n), Text.Dec(m));
    Text.DecInjective(p, q);
    Text.DecInjective(n, m);
  }

  lemma SameFront(u: Bytes, v: Bytes, tail: Bytes)
    requires u + tail == v + tail
    ensures u == v
  {
    assert |u| == |v|;
    assert (u + tail)[..|u|] == u && (v + tail)[..|v|] == v;
  }
}

/** The string operations the Rust sources lean on: whitespace trimming, splitting, and
    decimal and hexadecimal numbers in print and parse form. */
module Text {
  import opened Wrappers

  // ---------------------------------------------------------------- whitespace

  /** The Unicode White_Space property, which is what `char::is_whitespace` tests. */
  predicate IsWhitespace(c: char) {
    || '\t' <= c <= '\r'
    || c == ' '
    || c == '\U{85}'
    || c == '\U{A0}'
    || c == '\U{1680}'
    || '\U{2000}' <= c <= '\U{200A}'
    || c == '\U{2028}'
    || c == '\U{2029}'
    || c == '\U{202F}'
    || c == '\U{205F}'
    || c == '\U{3000}'
  }

  function TrimStart(s: string): string {
    if s != [] && IsWhitespace(s[0]) then TrimStart(s[1..]) else s
  }

  function TrimEnd(s: string): string {
    if s != [] && IsWhitespace(s[|s| - 1]) then TrimEnd(s[..|s| - 1]) else s
  }

  /** `str::trim`. */
  function Trim(s: string): string {
    TrimEnd(TrimStart(s))
  }

  /** No white space at either end. */
  predicate BareEdges(s: string) {
    s == [] || (!IsWhitespace(s[0]) && !IsWhitespace(s[|s| - 1]))
  }

  lemma {:induction false} TrimStartBares(s: string)
    ensures |TrimStart(s)| <= |s|
    ensures TrimStart(s) == [] || !IsWhitespace(TrimStart(s)[0])
    ensures (s == [] || !IsWhitespace(s[0])) <==> TrimStart(s) == s
  {
    if s != [] && IsWhitespace(s[0]) {
      TrimStartBares(s[1..]);
    }
  }

  lemma {:induction false} TrimEndBares(s: string)
    ensures TrimEnd(s) <= s
    ensures TrimEnd(s) == [] || !IsWhitespace(TrimEnd(s)[|TrimEnd(s)| - 1])
    ensures (s == [] || !IsWhitespace(s[|s| - 1])) <==> TrimEnd(s) == s
  {
    if s != [] && IsWhitespace(s[|s| - 1]) {
      TrimEndBares(s[..|s| - 1]);
    }
  }

  /** Trimming bares both edges, and changes exactly the strings whose edges are not bare. */
  lemma TrimBares(s: string)
    ensures BareEdges(Trim(s))
    ensures Trim(s) == s <==> BareEdges(s)
  {
    TrimStartBares(s);
    TrimEndBares(TrimStart(s));
  }

  predicate AllWhitespace(s: string) {
    forall i :: 0 <= i < |s| ==> IsWhitespace(s[i])
  }

  lemma {:induction false} StartIsWhitespace(s: string) returns (a: string)
    ensures AllWhitespace(a) && s == a + TrimStart(s)
  {
    a := [];
    if s != [] && IsWhitespace(s[0]) {
      a := StartIsWhitespace(s[1..]);
      a := [s[0]] + a;
    }
  }

  lemma {:induction false} EndIsWhitespace(s: string) returns (b: string)
    ensures AllWhitespace(b) && s == TrimEnd(s) + b
  {
    b := [];
    if s != [] && IsWhitespace(s[|s| - 1]) {
      b := EndIsWhitespace(s[..|s| - 1]);
      b := b + [s[|s| - 1]];
    }
  }

  /** Trimming takes white space off both ends, and nothing else. */
  lemma TrimTakesWhitespace(s: string) returns (a: string, b: string)
    ensures AllWhitespace(a) && AllWhitespace(b) && s == a + Trim(s) + b && BareEdges(Trim(s))
  {
    a := StartIsWhitespace(s);
    b := EndIsWhitespace(TrimStart(s));
    TrimBares(s);
  }

  // ----------------------------------------------------------------- splitting

  /** `c` in front of the first piece. */
  function Prepend(c: char, pieces: seq<string>): (r: seq<string>)
    requires |pieces| >= 1
    ensures |r| == |pieces|
  {
    [[c] + pieces[0]] + pieces[1..]
  }

  /** `str::split` with a character predicate: the pieces between separators, at least one. */
  function SplitOn(s: string, sep: char -> bool): (pieces: seq<string>)
    ensures |pieces| >= 1
  {
    if s == [] then [""]
    else
      var rest := SplitOn(s[1..], sep);
      if sep(s[0]) then [""] + rest else Prepend(s[0], rest)
  }

  function Split(s: string, sep: char): (pieces: seq<string>)
    ensures |pieces| >= 1
  {
    SplitOn(s, c => c == sep)
  }

  lemma PrependConcat(c: char, a: seq<string>, b: seq<string>)
    requires |a| >= 1
    ensures Prepend(c, a + b) == Prepend(c, a) + b
  {
    assert (a + b)[1..] == a[1..] + b;
  }

  lemma ConsConcat(p: string, a: seq<string>, b: seq<string>)
    ensures [p] + (a + b) == ([p] + a) + b
  {
  }

  /** A separator between two texts separates their pieces and nothing else. */
  lemma {:induction false} SplitOnConcat(a: string, c: char, b: string, sep: char -> bool)
    requires sep(c)
    ensures SplitOn(a + [c] + b, sep) == SplitOn(a, sep) + SplitOn(b, sep)
  {
    var s := a + [c] + b;
    if a == [] {
      assert s[0] == c && s[1..] == b;
    } else {
      SplitOnConcat(a[1..], c, b, sep);
      assert s[0] == a[0] && s[1..] == a[1..] + [c] + b;
      PrependConcat(a[0], SplitOn(a[1..], sep), SplitOn(b, sep));
      ConsConcat("", SplitOn(a[1..], sep), SplitOn(b, sep));
    }
  }

  /** A text free of separators is one piece. */
  lemma {:induction false} SplitOnSingle(s: string, sep: char -> bool)
    requires forall i :: 0 <= i < |s| ==> !sep(s[i])
    ensures SplitOn(s, sep) == [s]
  {
    if s != [] {
      SplitOnSingle(s[1..], sep);
      assert [s[0]] + s[1..] == s;
    }
  }

  /** `[..].join(sep)`. */
  function Join(parts: seq<string>, sep: string): string {
    if |parts| == 0 then ""
    else if |parts| == 1 then parts[0]
    else parts[0] + sep + Join(parts[1..], sep)
  }

  /** Splitting undoes joining when no part holds the separator. */
  lemma {:induction false} SplitJoin(parts: seq<string>, sep: char)
    requires |parts| >= 1
    requires forall i :: 0 <= i < |parts| ==> sep !in parts[i]
    ensures Split(Join(parts, [sep]), sep) == parts
  {
    SplitOnSingle(parts[0], c => c == sep);
    if |parts| > 1 {
      SplitJoin(parts[1..], sep);
      SplitOnConcat(parts[0], sep, Join(parts[1..], [sep]), c => c == sep);
      assert [parts[0]] + parts[1..] == parts;
    } else {
      assert parts == [parts[0]];
    }
  }

  function NonEmpty(pieces: seq<string>): seq<string> {
    if pieces == [] then []
    else if pieces[0] == "" then NonEmpty(pieces[1..])
    else [pieces[0]] + NonEmpty(pieces[1..])
  }

  lemma {:induction false} NonEmptyConcat(a: seq<string>, b: seq<string>)
    ensures NonEmpty(a + b) == NonEmpty(a) + NonEmpty(b)
  {
    if a == [] {
      assert a + b == b;
    } else {
      NonEmptyConcat(a[1..], b);
      assert (a + b)[0] == a[0] && (a + b)[1..] == a[1..] + b;
      ConsConcat(a[0], NonEmpty(a[1..]), NonEmpty(b));
    }
  }

  /** `str::split_whitespace`. */
  function Words(s: string): seq<string> {
    NonEmpty(SplitOn(s, IsWhitespace))
  }

  lemma WordsConcat(a: string, c: char, b: string)
    requires IsWhitespace(c)
    ensures Words(a + [c] + b) == Words(a) + Words(b)
  {
    SplitOnConcat(a, c, b, IsWhitespace);
    NonEmptyConcat(SplitOn(a, IsWhitespace), SplitOn(b, IsWhitespace));
  }

  lemma WordsSingle(s: string)
    requires s != ""
    requires forall i :: 0 <= i < |s| ==> !IsWhitespace(s[i])
    ensures Words(s) == [s]
  {
    SplitOnSingle(s, IsWhitespace);
    assert NonEmpty([s]) == [s] + NonEmpty([]);
  }

  /** The index of the first `c`, or the length of `s` when there is none. */
  function FirstIndex(s: string, c: char): (i: nat)
    ensures i <= |s|
    ensures i < |s| ==> s[i] == c
    ensures c !in s[..i]
  {
    if s == [] || s[0] == c then 0 else 1 + FirstIndex(s[1..], c)
  }

  /** `str::split_once`. */
  function SplitOnce(s: string, c: char): (r: Option<(string, string)>)
    ensures r.None? <==> c !in s
    ensures r.Some? ==> c !in r.value.0 && s == r.value.0 + [c] + r.value.1
  {
    var i := FirstIndex(s, c);
    if i == |s| then assert s[..i] == s; None
    else assert s == s[..i] + [c] + s[i + 1..]; Some((s[..i], s[i + 1..]))
  }

  lemma {:induction false} FirstIndexOf(a: string, c: char, b: string)
    requires c !in a
    ensures FirstIndex(a + [c] + b, c) == |a|
  {
    if a != [] {
      FirstIndexOf(a[1..], c, b);
      assert a[0] in a;
      assert (a + [c] + b)[1..] == a[1..] + [c] + b;
    }
  }

  lemma SplitOnceOf(a: string, c: char, b: string)
    requires c !in a
    ensures SplitOnce(a + [c] + b, c) == Some((a, b))
  {
    FirstIndexOf(a, c, b);
    var s := a + [c] + b;
    assert s[|a|] == c && s[..|a|] == a && s[|a| + 1..] == b;
  }

  /** `str::rsplit_once`: split at the last `c`. */
  function RSplitOnce(s: string, c: char): (r: Option<(string, string)>)
    ensures r.None? <==> c !in s
    ensures r.Some? ==> c !in r.value.1 && s == r.value.0 + [c] + r.value.1
  {
    if s == [] then None
    else if s[|s| - 1] == c then Some((s[..|s| - 1], ""))
    else
      assert s == s[..|s| - 1] + [s[|s| - 1]];
      match RSplitOnce(s[..|s| - 1], c)
      case None => None
      case Some((a, b)) => Some((a, b + [s[|s| - 1]]))
  }

  lemma {:induction false} RSplitOnceOf(a: string, c: char, b: string)
    requires c !in b
    ensures RSplitOnce(a + [c] + b, c) == Some((a, b))
  {
    var s := a + [c] + b;
    if b == [] {
      assert s == a + [c] && s[..|s| - 1] == a;
    } else {
      var front := b[..|b| - 1];
      RSplitOnceOf(a, c, front);
      assert b == front + [b[|b| - 1]] && b[|b| - 1] in b;
      assert s[..|s| - 1] == a + [c] + front;
    }
  }

  predicate StartsWith(s: string, prefix: string) {
    prefix <= s
  }

  // ------------------------------------------------------------------- numbers

  predicate IsDigit(c: char) {
    '0' <= c <= '9'
  }

  predicate AllDigits(s: string) {
    forall i :: 0 <= i < |s| ==> IsDigit(s[i])
  }

  function DigitChar(d: nat): (c: char)
    requires d < 10
    ensures IsDigit(c) && DigitValue(c) == d
  {
    ('0' as int + d) as char
  }

  function DigitValue(c: char): (d: nat)
    requires IsDigit(c)
    ensures d < 10
  {
    c as int - '0' as int
  }

  /** `n.to_string()`. */
  function Dec(n: nat): (s: string)
    ensures |s| >= 1 && AllDigits(s)
  {
    if n < 10 then [DigitChar(n)] else Dec(n / 10) + [DigitChar(n % 10)]
  }

  function Value(s: string): nat
    requires AllDigits(s)
  {
    if s == [] then 0 else 10 * Value(s[..|s| - 1]) + DigitValue(s[|s| - 1])
  }

  /** `str::parse` at an unsigned type whose largest value is `max`: an optional plus sign,
      then at least one digit, and a value in range. */
  function ParseUnsigned(s: string, max: nat): Option<nat> {
    var digits := if s != [] && s[0] == '+' then s[1..] else s;
    if digits == [] || !AllDigits(digits) || Value(digits) > max then None
    else Some(Value(digits))
  }

  lemma {:induction false} ValueOfDec(n: nat)
    ensures Value(Dec(n)) == n
  {
    if n >= 10 {
      ValueOfDec(n / 10);
      assert Dec(n)[..|Dec(n)| - 1] == Dec(n / 10);
    } else {
      assert Dec(n)[..0] == [];
    }
  }

  /** Parsing undoes printing exactly when the number fits the type. */
  lemma ParseOfDec(n: nat, max: nat)
    ensures ParseUnsigned(Dec(n), max) == if n <= max then Some(n) else None
  {
    ValueOfDec(n);
    assert IsDigit(Dec(n)[0]);
  }

  function Zeros(k: nat): string {
    seq(k, _ => '0')
  }

  lemma {:induction false} ValueOfNumeral(k: nat, s: string)
    requires AllDigits(s)
    ensures AllDigits(Zeros(k) + s) && Value(Zeros(k) + s) == Value(s)
  {
    var all := Zeros(k) + s;
    if s != [] {
      ValueOfNumeral(k, s[..|s| - 1]);
      assert all[..|all| - 1] == Zeros(k) + s[..|s| - 1];
    } else if k > 0 {
      ValueOfNumeral(k - 1, s);
      assert all[..|all| - 1] == Zeros(k - 1) + s;
    }
  }

  /** The digits are the number printed, after `k` zeros. */
  predicate IsPadded(digits: string, k: nat, v: nat) {
    digits == Zeros(k) + Dec(v)
  }

  lemma OneDigit(c: char)
    requires IsDigit(c)
    ensures IsPadded([c], 0, DigitValue(c))
  {
    assert DigitChar(DigitValue(c)) == c;
    assert Dec(DigitValue(c)) == [c] && Zeros(0) == [];
  }

  /** One more digit after zeros is one more zero and that digit. */
  lemma DigitAfterZeros(digits: string, k: nat, c: char)
    requires IsPadded(digits, k, 0) && IsDigit(c)
    ensures IsPadded(digits + [c], k + 1, DigitValue(c))
  {
    OneDigit(c);
    assert Dec(0) == ['0'] && Zeros(k) + ['0'] == Zeros(k + 1);
    assert Zeros(0) == [];
  }

  /** After any other number it makes the next longer one. */
  lemma DigitAfterNumber(digits: string, k: nat, v: nat, c: char)
    requires IsPadded(digits, k, v) && v > 0 && IsDigit(c)
    ensures IsPadded(digits + [c], k, 10 * v + DigitValue(c))
  {
    var n := 10 * v + DigitValue(c);
    assert DigitChar(DigitValue(c)) == c;
    assert n / 10 == v && n % 10 == DigitValue(c);
    assert Dec(n) == Dec(v) + [c];
    assert (Zeros(k) + Dec(v)) + [c] == Zeros(k) + (Dec(v) + [c]);
  }

  lemma DigitsSnoc(digits: string) returns (front: string, c: char)
    requires digits != [] && AllDigits(digits)
    ensures |front| < |digits| && AllDigits(front) && IsDigit(c) && digits == front + [c]
    ensures Value(digits) == 10 * Value(front) + DigitValue(c)
  {
    front, c := digits[..|digits| - 1], digits[|digits| - 1];
  }

  /** Digits are a printed number after some zeros. */
  lemma {:induction false} NumeralOf(digits: string) returns (k: nat)
    requires digits != [] && AllDigits(digits)
    ensures IsPadded(digits, k, Value(digits))
    decreases |digits|
  {
    var front, c := DigitsSnoc(digits);
    hide IsPadded;
    if front == [] {
      OneDigit(c);
      assert [] + [c] == [c];
      k := 0;
    } else {
      k := NumeralOf(front);
      if Value(front) == 0 {
        DigitAfterZeros(front, k, c);
        k := k + 1;
      } else {
        DigitAfterNumber(front, k, Value(front), c);
      }
    }
  }

  predicate IsNumeralOf(s: string, v: nat, k: nat) {
    IsPadded(s, k, v) || (s != "" && s[0] == '+' && IsPadded(s[1..], k, v))
  }

  /** A text parses as a number exactly when it is that number printed, after any zeros and one plus
      sign at most, and the number fits. */
  lemma ParsesExactly(s: string, max: nat, v: nat)
    ensures ParseUnsigned(s, max) == Some(v) <==> v <= max && exists k: nat :: IsNumeralOf(s, v, k)
  {
    if ParseUnsigned(s, max) == Some(v) {
      var digits := if s[0] == '+' then s[1..] else s;
      var k := NumeralOf(digits);
      assert s[0] == '+' ==> s == "+" + digits;
      assert IsNumeralOf(s, v, k);
    }
    forall k: nat | v <= max && IsNumeralOf(s, v, k)
      ensures ParseUnsigned(s, max) == Some(v)
    {
      ValueOfNumeral(k, Dec(v));
      ValueOfDec(v);
      var digits := Zeros(k) + Dec(v);
      assert IsDigit(digits[0]);
      if s != digits {
        assert s[0] == '+' && s[1..] == digits;
      }
    }
  }

  lemma DecInjective(m: nat, n: nat)
    requires Dec(m) == Dec(n)
    ensures m == n
  {
    ValueOfDec(m);
    ValueOfDec(n);
  }

  function Pow10(k: nat): nat {
    if k == 0 then 1 else 10 * Pow10(k - 1)
  }

  lemma Pow10By5(k: nat)
    ensures Pow10(k + 5) == 100_000 * Pow10(k)
  {
    assert Pow10(k + 2) == 100 * Pow10(k);
    assert Pow10(k + 4) == 100 * Pow10(k + 2);
  }

  /** A number below 10^k has at most k digits. */
  lemma {:induction false} DecLength(n: nat, k: nat)
    requires 1 <= k && n < Pow10(k)
    ensures |Dec(n)| <= k
  {
    if n >= 10 {
      assert Pow10(k) == 10 * Pow10(k - 1);
      assert n / 10 < Pow10(k - 1);
      DecLength(n / 10, k - 1);
    }
  }

  lemma U64Length(n: nat)
    requires n <= 0xFFFF_FFFF_FFFF_FFFF
    ensures |Dec(n)| <= 20
  {
    Pow10By5(0);
    Pow10By5(5);
    Pow10By5(10);
    Pow10By5(15);
    DecLength(n, 20);
  }
}

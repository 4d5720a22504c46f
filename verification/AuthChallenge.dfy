/** The Bearer challenge parser (RFC 9110 sections 11.2 and 11.6.1, RFC 6750 section 3) against a
    printer of parameter lists. */
module AuthChallenge {
  import opened Wrappers
  import Text

  // -------------------------------------------------------------- the scanner

  predicate IsSeparator(c: char) {
    c == ',' || Text.IsWhitespace(c)
  }

  /** A key up to its `=`, which is consumed; commas and white space inside are dropped. */
  function ScanKey(s: string): (r: (string, string))
    ensures |r.1| <= |s| && (r.0 != "" ==> |r.1| < |s|)
  {
    if s == "" then ("", "")
    else if s[0] == '=' then ("", s[1..])
    else
      var (key, rest) := ScanKey(s[1..]);
      (if IsSeparator(s[0]) then key else [s[0]] + key, rest)
  }

  /** A quoted value up to its closing quote, which is consumed. */
  function ScanQuoted(s: string): (r: (string, string))
    ensures |r.1| <= |s|
  {
    if s == "" then ("", "")
    else if s[0] == '"' then ("", s[1..])
    else
      var (value, rest) := ScanQuoted(s[1..]);
      ([s[0]] + value, rest)
  }

  /** A bare value up to the next comma, which is left. */
  function ScanBare(s: string): (r: (string, string))
    ensures |r.1| <= |s|
  {
    if s == "" || s[0] == ',' then ("", s)
    else
      var (value, rest) := ScanBare(s[1..]);
      ([s[0]] + value, rest)
  }

  function ScanValue(s: string): (r: (string, string))
    ensures |r.1| <= |s|
  {
    if s != "" && s[0] == '"' then ScanQuoted(s[1..]) else ScanBare(s)
  }

  function SkipSeparators(s: string): (r: string)
    ensures |r| <= |s|
  {
    if s != "" && IsSeparator(s[0]) then SkipSeparators(s[1..]) else s
  }

  function LowerChar(c: char): char {
    if 'A' <= c <= 'Z' then c + ' ' else c
  }

  /** The 26 capitals become small, in their order, and nothing else changes. */
  lemma LowersCapitals(k: nat)
    requires k < 26
    ensures LowerChar("ABCDEFGHIJKLMNOPQRSTUVWXYZ"[k]) == "abcdefghijklmnopqrstuvwxyz"[k]
    ensures forall c :: c !in "ABCDEFGHIJKLMNOPQRSTUVWXYZ" ==> LowerChar(c) == c
  {
    var capitals, small := "ABCDEFGHIJKLMNOPQRSTUVWXYZ", "abcdefghijklmnopqrstuvwxyz";
    assert forall i :: 0 <= i < 26 ==> capitals[i] as int == 65 + i && small[i] as int == 97 + i;
    forall c | 'A' <= c <= 'Z'
      ensures c in capitals
    {
      assert capitals[c as int - 65] == c;
    }
  }

  /** `to_ascii_lowercase`. */
  function Lower(s: string): (r: string)
    ensures |r| == |s|
  {
    seq(|s|, i requires 0 <= i < |s| => LowerChar(s[i]))
  }

  function ParamsOf(s: string): seq<(string, string)>
    decreases |s|
  {
    var (key, afterKey) := ScanKey(s);
    if key == "" then []
    else
      var (value, afterValue) := ScanValue(afterKey);
      var rest := SkipSeparators(afterValue);
      [(Lower(key), value)] + (if rest == "" then [] else ParamsOf(rest))
  }

  lemma OneMore(read: string, c: char, more: string)
    ensures read + ([c] + more) == (read + [c]) + more
  {
  }

  method TakeKey(s: string, from: nat) returns (key: string, i: nat)
    requires from <= |s|
    ensures from <= i <= |s| && ScanKey(s[from..]).0 == key && ScanKey(s[from..]).1 == s[i..]
  {
    key, i := "", from;
    assert "" + ScanKey(s[from..]).0 == ScanKey(s[from..]).0;
    while i < |s|
      invariant from <= i <= |s|
      invariant ScanKey(s[from..]).0 == key + ScanKey(s[i..]).0
      invariant ScanKey(s[from..]).1 == ScanKey(s[i..]).1
    {
      var c := s[i];
      assert s[i..][0] == c && s[i..][1..] == s[i + 1..];
      OneMore(key, c, ScanKey(s[i + 1..]).0);
      i := i + 1;
      if c == '=' {
        return;
      }
      if c != ',' && !Text.IsWhitespace(c) {
        key := key + [c];
      }
    }
  }

  method TakeValue(s: string, from: nat) returns (value: string, i: nat)
    requires from <= |s|
    ensures from <= i <= |s| && ScanValue(s[from..]).0 == value && ScanValue(s[from..]).1 == s[i..]
  {
    value, i := "", from;
    if i < |s| && s[i] == '"' {
      i := i + 1;
      assert s[from..][1..] == s[from + 1..];
      assert "" + ScanQuoted(s[i..]).0 == ScanQuoted(s[i..]).0;
      while i < |s|
        invariant from < i <= |s|
        invariant ScanQuoted(s[from + 1..]).0 == value + ScanQuoted(s[i..]).0
        invariant ScanQuoted(s[from + 1..]).1 == ScanQuoted(s[i..]).1
      {
        var c := s[i];
        assert s[i..][0] == c && s[i..][1..] == s[i + 1..];
        OneMore(value, c, ScanQuoted(s[i + 1..]).0);
        i := i + 1;
        if c == '"' {
          return;
        }
        value := value + [c];
      }
    } else {
      assert "" + ScanBare(s[i..]).0 == ScanBare(s[i..]).0;
      while i < |s| && s[i] != ','
        invariant from <= i <= |s|
        invariant ScanBare(s[from..]).0 == value + ScanBare(s[i..]).0
        invariant ScanBare(s[from..]).1 == ScanBare(s[i..]).1
        decreases |s| - i
      {
        assert s[i..][0] == s[i] && s[i..][1..] == s[i + 1..];
        OneMore(value, s[i], ScanBare(s[i + 1..]).0);
        value := value + [s[i]];
        i := i + 1;
      }
    }
  }

  method TakeSeparators(s: string, from: nat) returns (i: nat)
    requires from <= |s|
    ensures from <= i <= |s| && s[i..] == SkipSeparators(s[from..])
  {
    i := from;
    while i < |s| && (s[i] == ',' || Text.IsWhitespace(s[i]))
      invariant from <= i <= |s| && SkipSeparators(s[from..]) == SkipSeparators(s[i..])
      decreases |s| - i
    {
      assert s[i..][0] == s[i] && s[i..][1..] == s[i + 1..];
      i := i + 1;
    }
  }

  /** `out` and what is still to be read from `i` on make up the whole list. */
  ghost predicate ReadTo(s: string, out: seq<(string, string)>, i: nat) {
    i <= |s| && ParamsOf(s) == out + ParamsOf(s[i..])
  }

  lemma ParamsStep(s: string, afterValue: string)
    requires ScanKey(s).0 != "" && ScanValue(ScanKey(s).1).1 == afterValue
    ensures ParamsOf(s) == [(Lower(ScanKey(s).0), ScanValue(ScanKey(s).1).0)] + ParamsOf(SkipSeparators(afterValue))
  {
    assert ParamsOf("") == [];
  }

  lemma Regroup(out: seq<(string, string)>, p: (string, string), more: seq<(string, string)>)
    ensures out + ([p] + more) == (out + [p]) + more
  {
  }

  /** `params`. */
  method Params(s: string) returns (out: seq<(string, string)>)
    ensures out == ParamsOf(s)
  {
    out := [];
    var i := 0;
    assert s[0..] == s;
    while i < |s|
      invariant ReadTo(s, out, i)
      decreases |s| - i
    {
      var key, afterKey := TakeKey(s, i);
      if key == "" {
        break;
      }
      var value, afterValue := TakeValue(s, afterKey);
      ParamsStep(s[i..], s[afterValue..]);
      var p := (Lower(key), value);
      var next := TakeSeparators(s, afterValue);
      Regroup(out, p, ParamsOf(s[next..]));
      assert i < next by {
        assert |s[afterKey..]| < |s[i..]|;
      }
      out := out + [p];
      i := next;
    }
  }

  // --------------------------------------------------------------- the printer

  function RenderOne(p: (string, string)): string {
    p.0 + "=\"" + p.1 + "\""
  }

  function Render(ps: seq<(string, string)>): string {
    if ps == [] then ""
    else if |ps| == 1 then RenderOne(ps[0])
    else RenderOne(ps[0]) + "," + Render(ps[1..])
  }

  predicate CleanKey(k: string) {
    k != "" && forall i :: 0 <= i < |k| ==> k[i] != '=' && !IsSeparator(k[i]) && !('A' <= k[i] <= 'Z')
  }

  ghost predicate Clean(ps: seq<(string, string)>) {
    forall i :: 0 <= i < |ps| ==> CleanKey(ps[i].0) && '"' !in ps[i].1
  }

  // ------------------------------------------------------------------ inversion

  lemma {:induction false} ScanKeyOf(k: string, rest: string)
    requires forall i :: 0 <= i < |k| ==> k[i] != '=' && !IsSeparator(k[i])
    ensures ScanKey(k + "=" + rest) == (k, rest)
  {
    var s := k + "=" + rest;
    if k == "" {
      assert s[1..] == rest;
    } else {
      ScanKeyOf(k[1..], rest);
      assert s[1..] == k[1..] + "=" + rest;
      assert [k[0]] + k[1..] == k;
    }
  }

  lemma {:induction false} ScanQuotedOf(v: string, rest: string)
    requires '"' !in v
    ensures ScanQuoted(v + "\"" + rest) == (v, rest)
  {
    var s := v + "\"" + rest;
    if v == "" {
      assert s[1..] == rest;
    } else {
      ScanQuotedOf(v[1..], rest);
      assert s[1..] == v[1..] + "\"" + rest;
      assert [v[0]] + v[1..] == v;
    }
  }

  lemma {:induction false} ScanQuotedHasNoQuote(s: string)
    ensures '"' !in ScanQuoted(s).0
  {
    if s != "" && s[0] != '"' {
      ScanQuotedHasNoQuote(s[1..]);
    }
  }

  lemma LowerOfClean(k: string)
    requires CleanKey(k)
    ensures Lower(k) == k
  {
  }

  predicate PlainKey(key: string) {
    forall i :: 0 <= i < |key| ==> key[i] != '=' && !IsSeparator(key[i])
  }

  lemma {:induction false} ScannedKeyIsPlain(s: string)
    ensures PlainKey(ScanKey(s).0)
  {
    if s != "" && s[0] != '=' {
      ScannedKeyIsPlain(s[1..]);
      var key := ScanKey(s[1..]).0;
      assert forall i :: 0 < i < |[s[0]] + key| ==> ([s[0]] + key)[i] == key[i - 1];
    }
  }

  lemma LowerIsClean(key: string)
    requires key != "" && PlainKey(key)
    ensures CleanKey(Lower(key))
  {
    forall i | 0 <= i < |key|
      ensures Lower(key)[i] != '=' && !IsSeparator(Lower(key)[i]) && !('A' <= Lower(key)[i] <= 'Z')
    {
      assert Lower(key)[i] == LowerChar(key[i]);
    }
  }

  /** How a text that starts with one rendered parameter is read. */
  lemma ScanRendered(p: (string, string), more: string)
    requires CleanKey(p.0) && '"' !in p.1
    ensures ScanKey(RenderOne(p) + more) == (p.0, "\"" + p.1 + "\"" + more)
    ensures ScanValue("\"" + p.1 + "\"" + more) == (p.1, more)
  {
    ScanKeyOf(p.0, "\"" + p.1 + "\"" + more);
    assert RenderOne(p) + more == p.0 + "=" + ("\"" + p.1 + "\"" + more);
    ScanQuotedOf(p.1, more);
    assert ("\"" + p.1 + "\"" + more)[1..] == p.1 + "\"" + more;
  }

  /** What follows the first parameter of a rendered list. */
  function Rest(ps: seq<(string, string)>): string
    requires ps != []
  {
    if |ps| == 1 then "" else "," + Render(ps[1..])
  }

  lemma RenderSplit(ps: seq<(string, string)>)
    requires ps != []
    ensures Render(ps) == RenderOne(ps[0]) + Rest(ps)
  {
    assert RenderOne(ps[0]) + "" == RenderOne(ps[0]);
  }

  lemma RestStartsWithKey(ps: seq<(string, string)>)
    requires |ps| > 1 && CleanKey(ps[1].0)
    ensures SkipSeparators(Rest(ps)) == Render(ps[1..]) && Render(ps[1..]) != ""
  {
    var next := Render(ps[1..]);
    RenderSplit(ps[1..]);
    assert next[0] == ps[1].0[0];
    assert Rest(ps)[1..] == next;
  }

  lemma ParamsOfHead(ps: seq<(string, string)>)
    requires ps != [] && CleanKey(ps[0].0) && '"' !in ps[0].1
    ensures var rest := SkipSeparators(Rest(ps));
            ParamsOf(Render(ps)) == [ps[0]] + (if rest == "" then [] else ParamsOf(rest))
  {
    RenderSplit(ps);
    ScanRendered(ps[0], Rest(ps));
    LowerOfClean(ps[0].0);
  }

  lemma {:induction false} CleanReadsBack(ps: seq<(string, string)>)
    requires Clean(ps)
    ensures ParamsOf(Render(ps)) == ps
  {
    if ps != [] {
      ParamsOfHead(ps);
      if |ps| > 1 {
        RestStartsWithKey(ps);
        CleanReadsBack(ps[1..]);
      }
      assert ps == [ps[0]] + ps[1..];
    }
  }

  lemma {:induction false} KeysReadAreClean(s: string, i: nat)
    requires i < |ParamsOf(s)|
    ensures CleanKey(ParamsOf(s)[i].0)
    decreases |s|
  {
    var (key, afterKey) := ScanKey(s);
    var rest := SkipSeparators(ScanValue(afterKey).1);
    ScannedKeyIsPlain(s);
    LowerIsClean(key);
    if i > 0 {
      KeysReadAreClean(rest, i - 1);
    }
  }

  lemma {:induction false} ReadBackIsClean(ps: seq<(string, string)>)
    requires ParamsOf(Render(ps)) == ps
    ensures Clean(ps)
  {
    if ps != [] {
      KeysReadAreClean(Render(ps), 0);
      RenderSplit(ps);
      FirstValueIsClean(Render(ps), ps[0], Rest(ps));
      ParamsOfHead(ps);
      if |ps| > 1 {
        KeysReadAreClean(Render(ps), 1);
        RestStartsWithKey(ps);
        assert ps[1..] == ParamsOf(Render(ps))[1..];
        ReadBackIsClean(ps[1..]);
        forall i | 0 <= i < |ps|
          ensures CleanKey(ps[i].0) && '"' !in ps[i].1
        {
          assert i > 0 ==> ps[i] == ps[1..][i - 1];
        }
      }
    }
  }

  /** A first value that starts with a quote is read up to the next one. */
  lemma FirstQuotedValue(s: string, key: string, quoted: string)
    requires s == key + "=" + ("\"" + quoted) && PlainKey(key) && ParamsOf(s) != []
    ensures '"' !in ParamsOf(s)[0].1
  {
    ScanKeyOf(key, "\"" + quoted);
    assert ("\"" + quoted)[1..] == quoted;
    ScanQuotedHasNoQuote(quoted);
  }

  lemma FirstValueIsClean(s: string, p: (string, string), more: string)
    requires s == RenderOne(p) + more && PlainKey(p.0) && ParamsOf(s) != []
    ensures '"' !in ParamsOf(s)[0].1
  {
    var quoted := p.1 + "\"" + more;
    assert s == p.0 + "=" + ("\"" + quoted);
    FirstQuotedValue(s, p.0, quoted);
  }

  /** The scanner reads a rendered list back exactly when every key is a non-empty lower-case
      one without `=`, comma or white space, and no value holds a double quote. */
  lemma ReadsBackExactlyWhenClean(ps: seq<(string, string)>)
    ensures ParamsOf(Render(ps)) == ps <==> Clean(ps)
  {
    if Clean(ps) {
      CleanReadsBack(ps);
    }
    if ParamsOf(Render(ps)) == ps {
      ReadBackIsClean(ps);
    }
  }

  // ------------------------------------------------------------ Challenge::parse

  datatype Challenge = Challenge(realm: string, service: Option<string>, scope: Option<string>)

  datatype ChallengeError = NotBearer | NoRealm | NotAUrl | DestinationRefused

  /** The last value given for a key. */
  function Last(ps: seq<(string, string)>, key: string): Option<string> {
    if ps == [] then None
    else if ps[|ps| - 1].0 == key then Some(ps[|ps| - 1].1)
    else Last(ps[..|ps| - 1], key)
  }

  /** The value given last for a key is `value`, or none is given. */
  ghost predicate IsLast(ps: seq<(string, string)>, key: string, value: Option<string>) {
    match value
    case None => forall i :: 0 <= i < |ps| ==> ps[i].0 != key
    case Some(v) => exists i :: 0 <= i < |ps| && ps[i] == (key, v) && forall j :: i < j < |ps| ==> ps[j].0 != key
  }

  lemma OtherKeyAfter(ps: seq<(string, string)>, p: (string, string), key: string, value: Option<string>)
    requires IsLast(ps, key, value) && p.0 != key
    ensures IsLast(ps + [p], key, value)
  {
    if value.Some? {
      var i :| 0 <= i < |ps| && ps[i] == (key, value.value) && forall j :: i < j < |ps| ==> ps[j].0 != key;
      assert (ps + [p])[i] == (key, value.value);
    }
  }

  lemma {:induction false} LastIsLast(ps: seq<(string, string)>, key: string)
    ensures IsLast(ps, key, Last(ps, key))
  {
    if ps != [] {
      var n := |ps| - 1;
      if ps[n].0 == key {
        assert ps[n] == (key, ps[n].1);
      } else {
        hide IsLast;
        LastIsLast(ps[..n], key);
        OtherKeyAfter(ps[..n], ps[n], key, Last(ps[..n], key));
        assert ps == ps[..n] + [ps[n]];
      }
    }
  }

  function AfterScheme(header: string): Option<string> {
    if Text.StartsWith(header, "Bearer ") || Text.StartsWith(header, "bearer ") then Some(header[7..]) else None
  }

  /** What parameters make of a challenge: the values given last, whose realm is there, is a URL and
      is a place a credential may go to. */
  ghost predicate Reads(ps: seq<(string, string)>, isUrl: string -> bool, isAllowed: string -> bool, r: Result<Challenge, ChallengeError>) {
    match r
    case Ok(c) =>
      && IsLast(ps, "realm", Some(c.realm)) && IsLast(ps, "service", c.service) && IsLast(ps, "scope", c.scope)
      && isUrl(c.realm) && isAllowed(c.realm)
    case Err(NoRealm) => IsLast(ps, "realm", None)
    case Err(NotAUrl) => exists realm :: IsLast(ps, "realm", Some(realm)) && !isUrl(realm)
    case Err(DestinationRefused) => exists realm :: IsLast(ps, "realm", Some(realm)) && isUrl(realm) && !isAllowed(realm)
    case Err(NotBearer) => false
  }

  /** `Challenge::parse`; URL parsing and the destination check are parameters. */
  method ParseChallenge(header: string, isUrl: string -> bool, isAllowed: string -> bool)
    returns (r: Result<Challenge, ChallengeError>)
    ensures r == Err(NotBearer) <==> !("Bearer " <= header) && !("bearer " <= header)
    ensures r != Err(NotBearer) ==> Reads(ParamsOf(header[7..]), isUrl, isAllowed, r)
  {
    var scheme := AfterScheme(header);
    if scheme.None? {
      return Err(NotBearer);
    }
    var ps := Params(scheme.value);
    var realm: Option<string>, service: Option<string>, scope: Option<string> := None, None, None;
    for i := 0 to |ps|
      invariant realm == Last(ps[..i], "realm")
      invariant service == Last(ps[..i], "service")
      invariant scope == Last(ps[..i], "scope")
    {
      assert ps[..i + 1][..i] == ps[..i];
      var (k, v) := ps[i];
      match k {
        case "realm" => realm := Some(v);
        case "service" => service := Some(v);
        case "scope" => scope := Some(v);
        case _ =>
      }
    }
    assert ps[..|ps|] == ps;
    LastIsLast(ps, "realm");
    LastIsLast(ps, "service");
    LastIsLast(ps, "scope");
    hide Last, ParamsOf;
    if realm.None? {
      return Err(NoRealm);
    }
    if !isUrl(realm.value) {
      return Err(NotAUrl);
    }
    if !isAllowed(realm.value) {
      return Err(DestinationRefused);
    }
    return Ok(Challenge(realm.value, service, scope));
  }

  /** A challenge rendered from clean parameters is read as those parameters: its realm, service
      and scope come back verbatim, commas included. */
  method ParseRendered(ps: seq<(string, string)>, isUrl: string -> bool, isAllowed: string -> bool)
    returns (r: Result<Challenge, ChallengeError>)
    requires Clean(ps)
    ensures Reads(ps, isUrl, isAllowed, r)
  {
    CleanReadsBack(ps);
    assert ("Bearer " + Render(ps))[..7] == "Bearer " && ("Bearer " + Render(ps))[7..] == Render(ps);
    r := ParseChallenge("Bearer " + Render(ps), isUrl, isAllowed);
  }
}

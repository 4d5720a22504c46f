/** Boot-time network configuration: the text the host puts on the kernel command line and the
    guest's parse of it. */
module NetConfig {
  import opened Wrappers
  import Text

  // --------------------------------------------------------------- IPv4 addresses

  predicate IsIp(a: seq<nat>) {
    |a| == 4 && forall i :: 0 <= i < 4 ==> a[i] < 256
  }

  /** `fmt_ip`. */
  function FmtIp(a: seq<nat>): string
    requires |a| == 4
  {
    Text.Dec(a[0]) + "." + Text.Dec(a[1]) + "." + Text.Dec(a[2]) + "." + Text.Dec(a[3])
  }

  function Octet(piece: string): Option<nat> {
    Text.ParseUnsigned(piece, 255)
  }

  /** Four pieces between dots, each a u8. */
  function ParseIpv4Of(s: string): (r: Option<seq<nat>>)
    ensures r.Some? ==> IsIp(r.value)
  {
    var pieces := Text.Split(s, '.');
    if |pieces| == 4 && forall k :: 0 <= k < 4 ==> Octet(pieces[k]).Some? then
      Some([Octet(pieces[0]).value, Octet(pieces[1]).value, Octet(pieces[2]).value, Octet(pieces[3]).value])
    else None
  }

  /** A text is an address exactly when it is four pieces between dots, each a number that fits an
      octet. */
  lemma AddressExactly(s: string, a: seq<nat>)
    ensures ParseIpv4Of(s) == Some(a) <==>
              |a| == 4 && |Text.Split(s, '.')| == 4 && forall i :: 0 <= i < 4 ==> IsOctetText(Text.Split(s, '.')[i], a[i])
  {
    hide Octet, IsOctetText, Text.Split;
    var pieces := Text.Split(s, '.');
    if |a| == 4 && |pieces| == 4 {
      forall i | 0 <= i < 4
        ensures Octet(pieces[i]) == Some(a[i]) <==> IsOctetText(pieces[i], a[i])
      {
        OctetExactly(pieces[i], a[i]);
      }
      if forall i :: 0 <= i < 4 ==> Octet(pieces[i]) == Some(a[i]) {
        FourOctets(s, a);
      }
    }
  }

  ghost predicate IsOctetText(piece: string, v: nat) {
    v <= 255 && exists k: nat :: Text.IsNumeralOf(piece, v, k)
  }

  lemma OctetExactly(piece: string, v: nat)
    ensures Octet(piece) == Some(v) <==> IsOctetText(piece, v)
  {
    Text.ParsesExactly(piece, 255, v);
  }

  /** `parse_ipv4`: four octets filled in turn from the pieces. */
  method ParseIpv4(s: string) returns (r: Option<seq<nat>>)
    ensures r == ParseIpv4Of(s)
  {
    var octets := new nat[4](_ => 0);
    var pieces := Text.Split(s, '.');
    for i := 0 to 4
      invariant i <= |pieces|
      invariant forall k :: 0 <= k < i ==> Octet(pieces[k]) == Some(octets[k])
    {
      if i >= |pieces| {
        return None;
      }
      var octet := Octet(pieces[i]);
      if octet.None? {
        BadPiece(s, i);
        return None;
      }
      octets[i] := octet.value;
    }
    if |pieces| > 4 {
      return None;
    }
    FourOctets(s, octets[..]);
    return Some(octets[..]);
  }

  lemma BadPiece(s: string, k: nat)
    requires k < 4 && k < |Text.Split(s, '.')| && Octet(Text.Split(s, '.')[k]).None?
    ensures ParseIpv4Of(s) == None
  {
  }

  lemma FourOctets(s: string, octets: seq<nat>)
    requires |octets| == 4 == |Text.Split(s, '.')|
    requires forall k :: 0 <= k < 4 ==> Octet(Text.Split(s, '.')[k]) == Some(octets[k])
    ensures ParseIpv4Of(s) == Some(octets)
  {
    assert octets == [octets[0], octets[1], octets[2], octets[3]];
  }

  lemma FmtIpSplits(a: seq<nat>)
    requires |a| == 4
    ensures Text.Split(FmtIp(a), '.') == [Text.Dec(a[0]), Text.Dec(a[1]), Text.Dec(a[2]), Text.Dec(a[3])]
  {
    var parts := [Text.Dec(a[0]), Text.Dec(a[1]), Text.Dec(a[2]), Text.Dec(a[3])];
    Text.SplitJoin(parts, '.');
    assert parts[1..][1..] == parts[2..] && parts[2..][1..] == parts[3..];
    assert Text.Join(parts[3..], ".") == parts[3];
    assert Text.Join(parts[2..], ".") == parts[2] + "." + parts[3];
    assert Text.Join(parts[1..], ".") == parts[1] + "." + (parts[2] + "." + parts[3]);
    assert Text.Join(parts, ".") == FmtIp(a);
  }

  /** Parsing undoes printing exactly on octets. */
  lemma {:induction false} Ipv4RoundTrip(a: seq<nat>)
    requires |a| == 4
    ensures ParseIpv4Of(FmtIp(a)) == (if IsIp(a) then Some(a) else None)
  {
    FmtIpSplits(a);
    var pieces := Text.Split(FmtIp(a), '.');
    forall k | 0 <= k < 4
      ensures Octet(pieces[k]) == if a[k] < 256 then Some(a[k]) else None
    {
      Text.ParseOfDec(a[k], 255);
    }
    assert a == [a[0], a[1], a[2], a[3]];
  }

  // ------------------------------------------------------------------ parse_config

  /** `cmdline::value` over the tokens: the first whose key is exactly `key`. */
  function ValueIn(tokens: seq<string>, key: string): Option<string> {
    if tokens == [] then None
    else
      match Text.SplitOnce(tokens[0], '=')
      case Some((k, v)) => if k == key then Some(v) else ValueIn(tokens[1..], key)
      case None => ValueIn(tokens[1..], key)
  }

  function CmdlineValue(cmdline: string, key: string): Option<string> {
    ValueIn(Text.Words(cmdline), key)
  }

  datatype NetConfig = NetConfig(ip: seq<nat>, prefix: nat, gw: Option<seq<nat>>, dns: seq<string>)

  datatype ConfigError = MissingNet | NotCidr | BadAddress | BadPrefix | PrefixOutOfRange | BadGateway

  /** The entries that are dotted quads, in order. */
  function KeepDottedQuads(entries: seq<string>): seq<string> {
    if entries == [] then []
    else
      (if IsDottedQuad(entries[0]) then [entries[0]] else []) + KeepDottedQuads(entries[1..])
  }

  predicate IsDottedQuad(s: string) {
    s != "" && ParseIpv4Of(s).Some?
  }

  /** `build_config`. */
  function BuildConfig(cidr: string, gw: Option<string>, dns: seq<string>): Result<NetConfig, ConfigError> {
    match Text.SplitOnce(cidr, '/')
    case None => Err(NotCidr)
    case Some((ipText, prefixText)) =>
      var ip, prefix := ParseIpv4Of(ipText), Text.ParseUnsigned(prefixText, 255);
      if ip.None? then Err(BadAddress)
      else if prefix.None? then Err(BadPrefix)
      else if prefix.value > 32 then Err(PrefixOutOfRange)
      else if gw.Some? && ParseIpv4Of(gw.value).None? then Err(BadGateway)
      else
        Ok(NetConfig(ip.value, prefix.value, if gw.None? then None else ParseIpv4Of(gw.value), KeepDottedQuads(dns)))
  }

  /** Which configuration an address, a gateway that may be absent and resolver entries give, and
      what is wrong otherwise. */
  lemma BuildsExactly(ipText: string, prefixText: string, gw: Option<string>, dns: seq<string>)
    requires '/' !in ipText
    ensures var r, ip, prefix := BuildConfig(ipText + "/" + prefixText, gw, dns), ParseIpv4Of(ipText), Text.ParseUnsigned(prefixText, 255);
            && (r.Ok? <==> ip.Some? && prefix.Some? && prefix.value <= 32 && (gw.Some? ==> ParseIpv4Of(gw.value).Some?))
            && (r.Ok? ==>
                  && r.value.ip == ip.value && r.value.prefix == prefix.value && r.value.dns == KeepDottedQuads(dns)
                  && (gw.None? ==> r.value.gw == None)
                  && (gw.Some? ==> r.value.gw == ParseIpv4Of(gw.value)))
            && (r.Err? ==>
                  && (r.error == BadAddress <==> ip.None?)
                  && (r.error == BadPrefix <==> ip.Some? && prefix.None?)
                  && (r.error == PrefixOutOfRange <==> ip.Some? && prefix.Some? && prefix.value > 32)
                  && (r.error == BadGateway <==>
                        ip.Some? && prefix.Some? && prefix.value <= 32 && gw.Some? && ParseIpv4Of(gw.value).None?))
  {
    Text.SplitOnceOf(ipText, '/', prefixText);
    assert ipText + "/" + prefixText == ipText + ['/'] + prefixText;
  }

  /** Without a slash it is not an address in CIDR form. */
  lemma NeedsASlash(cidr: string, gw: Option<string>, dns: seq<string>)
    ensures BuildConfig(cidr, gw, dns) == Err(NotCidr) <==> '/' !in cidr
  {
  }

  /** An entry is kept exactly when it is an address. */
  lemma KeepsAddresses(entry: string)
    ensures KeepDottedQuads([entry]) == if ParseIpv4Of(entry).Some? then [entry] else []
  {
    assert Text.Split("", '.') == [""];
  }

  /** The entries are kept in order. */
  lemma {:induction false} KeepsInOrder(before: seq<string>, after: seq<string>)
    ensures KeepDottedQuads(before + after) == KeepDottedQuads(before) + KeepDottedQuads(after)
  {
    hide IsDottedQuad;
    if before == [] {
      assert before + after == after;
    } else {
      var rest := before[1..];
      KeepsInOrder(rest, after);
      assert (before + after)[1..] == rest + after;
      var one := if IsDottedQuad(before[0]) then [before[0]] else [];
      assert (one + KeepDottedQuads(rest)) + KeepDottedQuads(after) == one + (KeepDottedQuads(rest) + KeepDottedQuads(after));
    }
  }

  /** A key's value is that of the first token that is the key, an equals sign and a value. */
  lemma {:induction false} ValueIsTheFirst(before: seq<string>, key: string, v: string, after: seq<string>)
    requires '=' !in key && forall i :: 0 <= i < |before| ==> !(key + "=" <= before[i])
    ensures ValueIn(before, key) == None
    ensures ValueIn(before + [key + "=" + v] + after, key) == Some(v)
  {
    if before == [] {
      ValueOfCons(key, v, after, key);
      assert before + [key + "=" + v] + after == [Token(key, v)] + after;
    } else {
      ValueIsTheFirst(before[1..], key, v, after);
      var all := before + [key + "=" + v] + after;
      assert all[0] == before[0] && all[1..] == before[1..] + [key + "=" + v] + after;
      match Text.SplitOnce(before[0], '=') {
        case None =>
        case Some((k, w)) => assert before[0] == k + "=" + w;
      }
    }
  }

  /** `parse_config`. */
  function ParseConfig(cmdline: string): Result<NetConfig, ConfigError> {
    var net, dns := CmdlineValue(cmdline, "isopod.net"), CmdlineValue(cmdline, "isopod.dns");
    if net.None? then Err(MissingNet)
    else BuildConfig(net.value, CmdlineValue(cmdline, "isopod.gw"), Text.Split(if dns.None? then "" else dns.value, ','))
  }

  /** Without an address there is no configuration; without resolvers there are none in it. */
  lemma ConfigNeedsAnAddress(cmdline: string)
    ensures ParseConfig(cmdline) == Err(MissingNet) <==> CmdlineValue(cmdline, "isopod.net") == None
    ensures CmdlineValue(cmdline, "isopod.dns") == None && ParseConfig(cmdline).Ok? ==> ParseConfig(cmdline).value.dns == []
  {
    assert Text.Split("", ',') == [""];
    assert KeepDottedQuads([""]) == [];
  }

  // ----------------------------------------------------------- the host's side

  /** `host_ip`, `guest_ip` and `guest_cidr` of a slot. */
  function HostIpText(i: nat): string { "10.107." + Text.Dec(i) + ".1" }

  function GuestIpText(i: nat): string { "10.107." + Text.Dec(i) + ".2" }

  function GuestCidr(i: nat): string { "10.107." + Text.Dec(i) + ".2/30" }

  function HostIp(i: nat): seq<nat> { [10, 107, i, 1] }

  function GuestIp(i: nat): seq<nat> { [10, 107, i, 2] }

  const DEFAULT_DNS := "1.1.1.1,8.8.8.8"

  function Tokens(i: nat, dns: string): seq<string> {
    [Token("isopod.upper", "ram"), Token("isopod.net", GuestCidr(i)), Token("isopod.gw", HostIpText(i)), Token("isopod.dns", dns)]
  }

  function Token(key: string, value: string): (t: string)
    ensures |t| > |key|
  {
    key + "=" + value
  }

  /** The boot arguments of a warm-pool build, on top of the shared ones. */
  function BootArgs(base: string, i: nat, dns: string): string {
    base + " " + Text.Join(Tokens(i, dns), " ")
  }

  // ------------------------------------------------------------------ round trip

  /** Visible ASCII: no white space. */
  predicate Visible(s: string) {
    forall k :: 0 <= k < |s| ==> '!' <= s[k] <= '~'
  }

  lemma VisibleConcat(a: string, b: string)
    requires Visible(a) && Visible(b)
    ensures Visible(a + b)
  {
  }

  lemma TextOfIps(i: nat)
    ensures HostIpText(i) == FmtIp(HostIp(i)) && GuestIpText(i) == FmtIp(GuestIp(i))
    ensures GuestCidr(i) == GuestIpText(i) + "/" + "30"
  {
    assert Text.Dec(10) == "10" by {
      assert Text.Dec(1) == "1";
    }
    assert Text.Dec(107) == "107" by {
      assert Text.Dec(1) == "1" && Text.Dec(10) == "10";
    }
    assert Text.Dec(1) == "1" && Text.Dec(2) == "2";
  }

  lemma Thirty()
    ensures Text.Dec(30) == "30"
  {
    assert Text.Dec(3) == "3";
  }

  lemma FmtIpHas(a: seq<nat>)
    requires |a| == 4
    ensures Visible(FmtIp(a)) && '/' !in FmtIp(a) && ',' !in FmtIp(a) && FmtIp(a) != ""
  {
    var s := FmtIp(a);
    forall k | 0 <= k < |s|
      ensures Text.IsDigit(s[k]) || s[k] == '.'
    {
      var d0, d1, d2, d3 := Text.Dec(a[0]), Text.Dec(a[1]), Text.Dec(a[2]), Text.Dec(a[3]);
      var t1 := d0 + ".";
      var t2 := t1 + d1 + ".";
      var t3 := t2 + d2 + ".";
      assert s == t3 + d3;
    }
  }

  /** One visible token in front of the rest of the line. */
  predicate Ends(suffix: string) {
    suffix == "" || Text.IsWhitespace(suffix[0])
  }

  lemma TokenThen(token: string, suffix: string)
    requires token != "" && Visible(token) && Ends(suffix)
    ensures Text.Words(token + suffix) == [token] + Text.Words(suffix)
  {
    Text.WordsSingle(token);
    if suffix == "" {
      assert token + suffix == token;
      NoWords();
    } else {
      var c, rest := suffix[0], suffix[1..];
      SeparatorGone(c, rest);
      assert suffix == [c] + rest;
      assert token + suffix == token + [c] + rest;
      Text.WordsConcat(token, c, rest);
    }
  }

  lemma SeparatorGone(c: char, rest: string)
    requires Text.IsWhitespace(c)
    ensures Text.Words([c] + rest) == Text.Words(rest)
  {
    assert [c] + rest == "" + [c] + rest;
    Text.WordsConcat("", c, rest);
    NoWords();
    assert [] + Text.Words(rest) == Text.Words(rest);
  }

  lemma SpaceThen(before: string, after: string)
    ensures Text.Words(before + " " + after) == Text.Words(before) + Text.Words(after)
  {
    Text.WordsConcat(before, ' ', after);
  }

  lemma {:induction false} WordsOfTokens(tokens: seq<string>, suffix: string)
    requires tokens != [] && (forall k :: 0 <= k < |tokens| ==> tokens[k] != "" && Visible(tokens[k])) && Ends(suffix)
    ensures Text.Words(Text.Join(tokens, " ") + suffix) == tokens + Text.Words(suffix)
  {
    if |tokens| == 1 {
      TokenThen(tokens[0], suffix);
      assert tokens == [tokens[0]];
    } else {
      var rest := Text.Join(tokens[1..], " ") + suffix;
      WordsOfTokens(tokens[1..], suffix);
      JoinStep(tokens, suffix);
      TokenAndRest(tokens[0], rest, tokens[1..] + Text.Words(suffix));
      assert tokens == [tokens[0]] + tokens[1..];
      Text.ConsConcat(tokens[0], tokens[1..], Text.Words(suffix));
    }
  }

  lemma JoinStep(tokens: seq<string>, suffix: string)
    requires |tokens| > 1
    ensures Text.Join(tokens, " ") + suffix == tokens[0] + (" " + (Text.Join(tokens[1..], " ") + suffix))
  {
  }

  lemma TokenAndRest(token: string, rest: string, words: seq<string>)
    requires token != "" && Visible(token) && Text.Words(rest) == words
    ensures Text.Words(token + (" " + rest)) == [token] + words
  {
    TokenThen(token, " " + rest);
    SeparatorGone(' ', rest);
  }

  lemma NoWords()
    ensures Text.Words("") == []
  {
    assert Text.SplitOn("", Text.IsWhitespace) == [""];
    assert Text.NonEmpty([""]) == Text.NonEmpty([]);
  }

  lemma TokensVisible(i: nat, dns: string)
    requires Visible(dns)
    ensures forall k :: 0 <= k < 4 ==> Tokens(i, dns)[k] != "" && Visible(Tokens(i, dns)[k])
  {
    TextOfIps(i);
    FmtIpHas(HostIp(i));
    FmtIpHas(GuestIp(i));
    VisibleConcat(GuestIpText(i), "/30");
    TokenVisible("isopod.upper", "ram");
    TokenVisible("isopod.net", GuestCidr(i));
    TokenVisible("isopod.gw", HostIpText(i));
    TokenVisible("isopod.dns", dns);
  }

  lemma TokenVisible(key: string, value: string)
    requires Visible(key) && Visible(value)
    ensures Visible(Token(key, value)) && Token(key, value) != ""
  {
    VisibleConcat(key, "=");
    VisibleConcat(key + "=", value);
  }

  /** The kernel line holds the four tokens between what stands before and after. */
  lemma BootArgsWords(base: string, i: nat, dns: string, suffix: string)
    requires Visible(dns) && Ends(suffix)
    ensures Text.Words(BootArgs(base, i, dns) + suffix) == Text.Words(base) + (Tokens(i, dns) + Text.Words(suffix))
  {
    var line := Text.Join(Tokens(i, dns), " ");
    TokensVisible(i, dns);
    WordsOfTokens(Tokens(i, dns), suffix);
    SpaceThen(base, line + suffix);
    assert BootArgs(base, i, dns) + suffix == base + " " + (line + suffix);
  }

  lemma {:induction false} ValueAfter(before: seq<string>, rest: seq<string>, key: string)
    requires ValueIn(before, key).None?
    ensures ValueIn(before + rest, key) == ValueIn(rest, key)
  {
    if before == [] {
      assert before + rest == rest;
    } else {
      ValueAfter(before[1..], rest, key);
      assert (before + rest)[1..] == before[1..] + rest;
    }
  }

  lemma ValueOfCons(key: string, value: string, rest: seq<string>, wanted: string)
    requires '=' !in key
    ensures ValueIn([Token(key, value)] + rest, wanted) == if key == wanted then Some(value) else ValueIn(rest, wanted)
  {
    Text.SplitOnceOf(key, '=', value);
    assert ([Token(key, value)] + rest)[1..] == rest;
  }

  lemma TokenValues(i: nat, dns: string, after: seq<string>)
    ensures var tokens := Tokens(i, dns) + after;
            && ValueIn(tokens, "isopod.net") == Some(GuestCidr(i))
            && ValueIn(tokens, "isopod.gw") == Some(HostIpText(i))
            && ValueIn(tokens, "isopod.dns") == Some(dns)
  {
    TokenValue(i, dns, after, "isopod.net");
    TokenValue(i, dns, after, "isopod.gw");
    TokenValue(i, dns, after, "isopod.dns");
  }

  lemma TokenValue(i: nat, dns: string, after: seq<string>, wanted: string)
    ensures ValueIn(Tokens(i, dns) + after, wanted)
         == if wanted == "isopod.upper" then Some("ram")
            else if wanted == "isopod.net" then Some(GuestCidr(i))
            else if wanted == "isopod.gw" then Some(HostIpText(i))
            else if wanted == "isopod.dns" then Some(dns)
            else ValueIn(after, wanted)
  {
    var t := Tokens(i, dns);
    var r3 := [t[3]] + after;
    var r2 := [t[2]] + r3;
    var r1 := [t[1]] + r2;
    assert t + after == [t[0]] + r1;
    ValueOfCons("isopod.upper", "ram", r1, wanted);
    ValueOfCons("isopod.net", GuestCidr(i), r2, wanted);
    ValueOfCons("isopod.gw", HostIpText(i), r3, wanted);
    ValueOfCons("isopod.dns", dns, after, wanted);
  }

  /** A list of resolvers, printed with commas. */
  function DnsText(dns: seq<seq<nat>>): string
    requires forall k :: 0 <= k < |dns| ==> IsIp(dns[k])
  {
    Text.Join(DnsNames(dns), ",")
  }

  function DnsNames(dns: seq<seq<nat>>): (names: seq<string>)
    requires forall k :: 0 <= k < |dns| ==> IsIp(dns[k])
    ensures |names| == |dns|
  {
    seq(|dns|, k requires 0 <= k < |dns| && IsIp(dns[k]) => FmtIp(dns[k]))
  }

  lemma {:induction false} JoinVisible(parts: seq<string>)
    requires forall k :: 0 <= k < |parts| ==> Visible(parts[k])
    ensures Visible(Text.Join(parts, ","))
  {
    if |parts| > 1 {
      JoinVisible(parts[1..]);
      VisibleConcat(parts[0], ",");
      VisibleConcat(parts[0] + ",", Text.Join(parts[1..], ","));
    }
  }

  lemma {:induction false} AllKept(entries: seq<string>)
    requires forall k :: 0 <= k < |entries| ==> IsDottedQuad(entries[k])
    ensures KeepDottedQuads(entries) == entries
  {
    if entries != [] {
      AllKept(entries[1..]);
      assert entries == [entries[0]] + entries[1..];
    }
  }

  lemma DnsRoundTrip(dns: seq<seq<nat>>)
    requires forall k :: 0 <= k < |dns| ==> IsIp(dns[k])
    ensures Visible(DnsText(dns))
    ensures KeepDottedQuads(Text.Split(DnsText(dns), ',')) == DnsNames(dns)
  {
    var names := DnsNames(dns);
    forall k | 0 <= k < |names|
      ensures Visible(names[k]) && ',' !in names[k] && IsDottedQuad(names[k])
    {
      FmtIpHas(dns[k]);
      Ipv4RoundTrip(dns[k]);
    }
    JoinVisible(names);
    if names != [] {
      Text.SplitJoin(names, ',');
      AllKept(names);
    } else {
      assert KeepDottedQuads([""]) == [] + KeepDottedQuads([]);
    }
  }

  lemma BuildsBack(i: nat, entries: seq<string>)
    requires i < 256
    ensures BuildConfig(GuestCidr(i), Some(HostIpText(i)), entries)
         == Ok(NetConfig(GuestIp(i), 30, Some(HostIp(i)), KeepDottedQuads(entries)))
  {
    CidrSplits(i);
    SlotIpsParse(i);
    Builds(GuestCidr(i), GuestIpText(i), "30", HostIpText(i), entries, GuestIp(i), 30, HostIp(i));
  }

  lemma SlotIpsParse(i: nat)
    requires i < 256
    ensures ParseIpv4Of(GuestIpText(i)) == Some(GuestIp(i)) && ParseIpv4Of(HostIpText(i)) == Some(HostIp(i))
  {
    TextOfIps(i);
    Ipv4RoundTrip(GuestIp(i));
    Ipv4RoundTrip(HostIp(i));
  }

  lemma Builds(cidr: string, ipText: string, prefixText: string, gwText: string, dns: seq<string>, ip: seq<nat>, prefix: nat, gw: seq<nat>)
    requires Text.SplitOnce(cidr, '/') == Some((ipText, prefixText)) && ParseIpv4Of(ipText) == Some(ip)
    requires Text.ParseUnsigned(prefixText, 255) == Some(prefix) && prefix <= 32 && ParseIpv4Of(gwText) == Some(gw)
    ensures BuildConfig(cidr, Some(gwText), dns) == Ok(NetConfig(ip, prefix, Some(gw), KeepDottedQuads(dns)))
  {
  }

  lemma CidrSplits(i: nat)
    ensures Text.SplitOnce(GuestCidr(i), '/') == Some((GuestIpText(i), "30"))
    ensures Text.ParseUnsigned("30", 255) == Some(30)
  {
    TextOfIps(i);
    FmtIpHas(GuestIp(i));
    Text.SplitOnceOf(GuestIpText(i), '/', "30");
    Thirty();
    Text.ParseOfDec(30, 255);
  }

  /** The guest's parse of the host's boot arguments recovers the slot's guest address, prefix,
      gateway and resolvers, for every slot index that fits an octet, any resolver list, and any
      other tokens around them that do not use these keys first. */
  lemma {:induction false} BootArgsRoundTrip(base: string, i: nat, dns: seq<seq<nat>>, suffix: string)
    requires i < 256 && Ends(suffix) && forall k :: 0 <= k < |dns| ==> IsIp(dns[k])
    requires CmdlineValue(base, "isopod.net").None? && CmdlineValue(base, "isopod.gw").None? && CmdlineValue(base, "isopod.dns").None?
    ensures ParseConfig(BootArgs(base, i, DnsText(dns)) + suffix)
         == Ok(NetConfig(GuestIp(i), 30, Some(HostIp(i)), DnsNames(dns)))
  {
    DnsRoundTrip(dns);
    BootArgsWords(base, i, DnsText(dns), suffix);
    var rest := Tokens(i, DnsText(dns)) + Text.Words(suffix);
    ValueAfter(Text.Words(base), rest, "isopod.net");
    ValueAfter(Text.Words(base), rest, "isopod.gw");
    ValueAfter(Text.Words(base), rest, "isopod.dns");
    TokenValues(i, DnsText(dns), Text.Words(suffix));
    BuildsBack(i, Text.Split(DnsText(dns), ','));
  }

  lemma DefaultText()
    ensures DnsText([[1, 1, 1, 1], [8, 8, 8, 8]]) == DEFAULT_DNS
    ensures DnsNames([[1, 1, 1, 1], [8, 8, 8, 8]]) == ["1.1.1.1", "8.8.8.8"]
  {
    var dns := [[1, 1, 1, 1], [8, 8, 8, 8]];
    assert Text.Dec(1) == "1" && Text.Dec(8) == "8";
    assert FmtIp(dns[0]) == "1.1.1.1" && FmtIp(dns[1]) == "8.8.8.8";
    assert DnsNames(dns)[1..] == ["8.8.8.8"];
  }

  /** With the default the guest ends up with the two documented resolvers. */
  lemma DefaultResolvers(base: string, i: nat, suffix: string)
    requires i < 256 && Ends(suffix)
    requires CmdlineValue(base, "isopod.net").None? && CmdlineValue(base, "isopod.gw").None? && CmdlineValue(base, "isopod.dns").None?
    ensures ParseConfig(BootArgs(base, i, DEFAULT_DNS) + suffix)
         == Ok(NetConfig(GuestIp(i), 30, Some(HostIp(i)), ["1.1.1.1", "8.8.8.8"]))
  {
    DefaultText();
    BootArgsRoundTrip(base, i, [[1, 1, 1, 1], [8, 8, 8, 8]], suffix);
  }
}

/** The guest's resolver file: writing it, and reading it back to see whether it took. */
module ResolvConf {
  import opened Wrappers
  import opened NetConfig
  import Text

  const KEYWORD := "nameserver "

  /** `write_resolv_conf`'s text. */
  function Body(dns: seq<string>): string {
    if dns == [] then "" else Body(dns[..|dns| - 1]) + KEYWORD + dns[|dns| - 1] + "\n"
  }

  method WriteBody(dns: seq<string>) returns (body: string)
    ensures body == Body(dns)
  {
    body := "";
    for i := 0 to |dns|
      invariant body == Body(dns[..i])
    {
      assert dns[..i + 1][..i] == dns[..i];
      body := body + KEYWORD;
      body := body + dns[i];
      body := body + "\n";
    }
    assert dns[..|dns|] == dns;
  }

  /** `str::lines`: the pieces between newlines, each without one carriage return before its
      newline, and no last line after a final newline. */
  function Lines(s: string): seq<string>
    decreases |s|
  {
    match Text.SplitOnce(s, '\n')
    case None => if s == "" then [] else [s]
    case Some((line, rest)) => [if line != "" && line[|line| - 1] == '\r' then line[..|line| - 1] else line] + Lines(rest)
  }

  /** A newline ends a line, with a carriage return before it if there is one, and text after the last
      newline is a line too. */
  lemma LinesInOrder(line: string, rest: string)
    requires '\n' !in line
    ensures Lines(line) == if line == "" then [] else [line]
    ensures Lines(line + "\n" + rest)
         == [if line != "" && line[|line| - 1] == '\r' then line[..|line| - 1] else line] + Lines(rest)
  {
    Text.SplitOnceOf(line, '\n', rest);
    assert line + "\n" + rest == line + ['\n'] + rest;
  }

  /** What the file is taken to name. */
  function Named(lines: seq<string>): seq<string> {
    if lines == [] then []
    else if Text.StartsWith(lines[0], KEYWORD) then [Text.Trim(lines[0][|KEYWORD|..])] + Named(lines[1..])
    else Named(lines[1..])
  }

  /** `resolv_conf_matches`, of a file that can be read. */
  predicate Matches(text: string, want: seq<string>) {
    Named(Lines(text)) == want
  }

  /** A file names what its lines name, one by one. */
  lemma {:induction false} NamedInOrder(before: seq<string>, after: seq<string>)
    ensures Named(before + after) == Named(before) + Named(after)
  {
    if before == [] {
      assert before + after == after;
    } else {
      NamedInOrder(before[1..], after);
      assert (before + after)[0] == before[0] && (before + after)[1..] == before[1..] + after;
    }
  }

  /** A line that starts with the keyword and a blank names the rest of it, trimmed; no other line
      names anything. */
  lemma NamedByOne(line: string)
    ensures forall entry :: line == "nameserver " + entry ==> Named([line]) == [Text.Trim(entry)]
    ensures !("nameserver " <= line) ==> Named([line]) == []
  {
    assert [line][1..] == [];
    assert forall entry :: line == "nameserver " + entry ==> line[|KEYWORD|..] == entry && line[..|KEYWORD|] == "nameserver ";
  }

  /** An entry that survives the round trip. */
  predicate Faithful(entry: string) {
    Text.BareEdges(entry) && '\n' !in entry
  }

  lemma {:induction false} BodyOfCons(first: string, rest: seq<string>)
    ensures Body([first] + rest) == KEYWORD + first + "\n" + Body(rest)
  {
    var all := [first] + rest;
    if rest == [] {
      assert all[..0] == [] && all[0] == first;
    } else {
      BodyOfCons(first, rest[..|rest| - 1]);
      assert all[..|all| - 1] == [first] + rest[..|rest| - 1] && all[|all| - 1] == rest[|rest| - 1];
    }
  }

  /** One line of the file is one entry, when the entry holds no newline. */
  lemma FirstLine(first: string, rest: seq<string>)
    requires '\n' !in first
    ensures Lines(Body([first] + rest))
         == [if first != "" && first[|first| - 1] == '\r' then KEYWORD + first[..|first| - 1] else KEYWORD + first] + Lines(Body(rest))
  {
    BodyOfCons(first, rest);
    var line := KEYWORD + first;
    Text.SplitOnceOf(line, '\n', Body(rest));
    assert Body([first] + rest) == line + ['\n'] + Body(rest);
    assert line[|line| - 1] == if first == "" then ' ' else first[|first| - 1];
    assert first != "" ==> line[..|line| - 1] == KEYWORD + first[..|first| - 1];
  }

  lemma FirstNamed(first: string, rest: seq<string>)
    requires Faithful(first)
    ensures Named(Lines(Body([first] + rest))) == [first] + Named(Lines(Body(rest)))
  {
    FirstLine(first, rest);
    assert first != "" ==> first[|first| - 1] != '\r';
    Text.TrimBares(first);
    assert (KEYWORD + first)[|KEYWORD|..] == first && (KEYWORD + first)[..|KEYWORD|] == KEYWORD;
  }

  lemma {:induction false} FaithfulReadBack(dns: seq<string>)
    requires forall i :: 0 <= i < |dns| ==> Faithful(dns[i])
    ensures Matches(Body(dns), dns)
  {
    if dns != [] {
      FirstNamed(dns[0], dns[1..]);
      FaithfulReadBack(dns[1..]);
      assert dns == [dns[0]] + dns[1..];
    }
  }

  lemma {:induction false} LinesHaveNoNewline(s: string, i: nat)
    requires i < |Lines(s)|
    ensures '\n' !in Lines(s)[i]
    decreases |s|
  {
    match Text.SplitOnce(s, '\n') {
      case None =>
      case Some((line, rest)) =>
        if i > 0 {
          LinesHaveNoNewline(rest, i - 1);
        }
    }
  }

  lemma {:induction false} TrimKeepsOut(s: string, c: char)
    requires c !in s
    ensures c !in Text.Trim(s)
  {
    StartKeepsOut(s, c);
    Text.TrimEndBares(Text.TrimStart(s));
  }

  lemma {:induction false} StartKeepsOut(s: string, c: char)
    requires c !in s
    ensures c !in Text.TrimStart(s)
  {
    if s != "" && Text.IsWhitespace(s[0]) {
      StartKeepsOut(s[1..], c);
    }
  }

  /** Everything the file is taken to name is trimmed and on one line. */
  lemma {:induction false} NamedIsFaithful(lines: seq<string>, i: nat)
    requires i < |Named(lines)| && forall k :: 0 <= k < |lines| ==> '\n' !in lines[k]
    ensures Faithful(Named(lines)[i])
  {
    if Text.StartsWith(lines[0], KEYWORD) {
      if i == 0 {
        var entry := lines[0][|KEYWORD|..];
        Text.TrimBares(entry);
        TrimKeepsOut(entry, '\n');
      } else {
        NamedIsFaithful(lines[1..], i - 1);
      }
    } else {
      NamedIsFaithful(lines[1..], i);
    }
  }

  /** The file written for a list reads back as the list exactly when every entry is trimmed and
      holds no newline. */
  lemma {:induction false} MatchesExactlyWhenFaithful(dns: seq<string>)
    ensures Matches(Body(dns), dns) <==> forall i :: 0 <= i < |dns| ==> Faithful(dns[i])
  {
    if forall i :: 0 <= i < |dns| ==> Faithful(dns[i]) {
      FaithfulReadBack(dns);
    }
    if Matches(Body(dns), dns) {
      var lines := Lines(Body(dns));
      forall k | 0 <= k < |lines|
        ensures '\n' !in lines[k]
      {
        LinesHaveNoNewline(Body(dns), k);
      }
      forall i | 0 <= i < |dns|
        ensures Faithful(dns[i])
      {
        NamedIsFaithful(lines, i);
      }
    }
  }

  // ------------------------------------------------------------ any parsed list

  predicate QuadChar(c: char) {
    Text.IsDigit(c) || c == '+' || c == '.'
  }

  predicate QuadText(s: string) {
    forall k :: 0 <= k < |s| ==> QuadChar(s[k])
  }

  lemma OctetChars(piece: string)
    requires Octet(piece).Some?
    ensures QuadText(piece)
  {
    if piece[0] == '+' {
      assert forall k :: 0 < k < |piece| ==> piece[k] == piece[1..][k - 1];
    }
  }

  /** A text is made of the characters of its pieces and the separator. */
  lemma {:induction false} CharsOfPieces(s: string)
    requires forall i :: 0 <= i < |Text.Split(s, '.')| ==> QuadText(Text.Split(s, '.')[i])
    ensures QuadText(s)
  {
    if s != "" {
      var pieces, rest := Text.Split(s, '.'), Text.Split(s[1..], '.');
      forall i | 0 <= i < |rest|
        ensures QuadText(rest[i])
      {
        if s[0] == '.' {
          assert pieces[i + 1] == rest[i];
        } else if i == 0 {
          assert QuadText(pieces[0]) && rest[0] == pieces[0][1..];
        } else {
          assert pieces[i] == rest[i];
        }
      }
      CharsOfPieces(s[1..]);
      if s[0] != '.' {
        assert QuadText(pieces[0]) && pieces[0][0] == s[0];
      }
      assert forall k :: 0 < k < |s| ==> s[k] == s[1..][k - 1];
    }
  }

  lemma QuadTextIsFaithful(s: string)
    requires QuadText(s)
    ensures Faithful(s)
  {
    assert s != "" ==> QuadChar(s[0]) && QuadChar(s[|s| - 1]);
  }

  lemma DottedQuadIsFaithful(entry: string)
    requires IsDottedQuad(entry)
    ensures Faithful(entry)
  {
    var pieces := Text.Split(entry, '.');
    forall i | 0 <= i < |pieces|
      ensures QuadText(pieces[i])
    {
      OctetChars(pieces[i]);
    }
    CharsOfPieces(entry);
    QuadTextIsFaithful(entry);
  }

  lemma {:induction false} KeptAreDottedQuads(entries: seq<string>, i: nat)
    requires i < |KeepDottedQuads(entries)|
    ensures IsDottedQuad(KeepDottedQuads(entries)[i])
  {
    if IsDottedQuad(entries[0]) {
      if i > 0 {
        KeptAreDottedQuads(entries[1..], i - 1);
      }
    } else {
      KeptAreDottedQuads(entries[1..], i);
    }
  }

  /** The resolvers of any parsed configuration, spelled however they were, read back. */
  lemma {:induction false} ParsedListMatches(cidr: string, gw: Option<string>, dns: seq<string>)
    requires BuildConfig(cidr, gw, dns).Ok?
    ensures var list := BuildConfig(cidr, gw, dns).value.dns; Matches(Body(list), list)
  {
    var list := KeepDottedQuads(dns);
    forall i | 0 <= i < |list|
      ensures Faithful(list[i])
    {
      KeptAreDottedQuads(dns, i);
      DottedQuadIsFaithful(list[i]);
    }
    MatchesExactlyWhenFaithful(list);
  }
}

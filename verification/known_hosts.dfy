/** `hosts` (replace-ssh-key.rb:86-92): the host names the script will visit,
    read from the text of a known_hosts file. */
module KnownHosts {
  import opened Wrappers
  import opened Text
  import opened Order

  /** A line on which one of the script's `.first` calls yields nil, so the
      next method call on it raises and the run stops. */
  datatype HostError = NoHost(line: string)

  const Brackets: set<char> := {'[', ']'}

  /** The lines of the file: `File.read(file).split("\n")`. */
  function Lines(text: string): seq<string> {
    SplitOn(text, '\n')
  }

  /** The host token of one line, computed the way the script does:
      `line.split.first.split(",").first.split(":").first.gsub(/[\[\]]/, '')`. */
  function HostToken(line: string): (r: Result<string, HostError>)
    ensures r.Failure? ==> r.error == NoHost(line)
    ensures r.Success? ==> forall c :: c in r.value ==>
      !IsSpace(c) && c != ',' && c != ':' && c != '[' && c != ']'
  {
    var fields := Words(line);
    if fields == [] then Failure(NoHost(line))
    else
      var aliases := SplitOn(fields[0], ',');
      if aliases == [] then Failure(NoHost(line))
      else
        var parts := SplitOn(aliases[0], ':');
        if parts == [] then Failure(NoHost(line))
        else
          SplitOnFirst(fields[0], ',');
          SplitOnFirst(aliases[0], ':');
          assert forall c :: c in parts[0] ==> c in aliases[0];
          assert forall c :: c in aliases[0] ==> c in fields[0];
          assert forall c :: c in fields[0] ==> !IsSpace(c);
          Success(Without(parts[0], Brackets))
  }

  /** The first whitespace field of a line, when there is one. */
  function HostField(line: string): Option<string> {
    var fields := Words(line);
    if fields == [] then None else Some(fields[0])
  }

  /** A line yields a host exactly when it has a first field and the part of
      that field before its first comma holds some character other than `:`. */
  predicate HasHost(line: string) {
    HostField(line).Some? && !OnlyChar(PrefixBefore(HostField(line).value, ','), ':')
  }

  lemma OnlySeparatorPrefix(s: string)
    requires s != [] && OnlyChar(s, ',')
    ensures PrefixBefore(s, ',') == []
  {
  }

  /** The chain of Ruby calls computes the declarative reading of a host
      token: the first field, cut before its first `,`, cut again before the
      first `:`, with every bracket removed; and it fails exactly on the
      lines without such a host. */
  lemma HostTokenIsCutField(line: string)
    ensures HostToken(line).Success? <==> HasHost(line)
    ensures HostToken(line).Success? ==>
      HostToken(line).value
        == Without(PrefixBefore(PrefixBefore(HostField(line).value, ','), ':'), Brackets)
  {
    var fields := Words(line);
    if fields != [] {
      var f := fields[0];
      SplitOnEmpty(f, ',');
      if OnlyChar(f, ',') {
        OnlySeparatorPrefix(f);
      } else {
        SplitOnFirst(f, ',');
        var a := PrefixBefore(f, ',');
        SplitOnEmpty(a, ':');
        if !OnlyChar(a, ':') {
          SplitOnFirst(a, ':');
        }
      }
    }
  }

  /** A host name as it appears in a known_hosts field: non-empty, with no
      blank, no alias separator, no port separator and no bracket. */
  predicate PlainName(h: string) {
    h != [] && forall i :: 0 <= i < |h| ==>
      !IsSpace(h[i]) && h[i] != ',' && h[i] != ':' && h[i] != '[' && h[i] != ']'
  }

  /** A line `name,alias... key` yields its first name: later aliases are ignored. */
  lemma AliasLineHost(h: string, alias: string, rest: string)
    requires PlainName(h) && NoSpace(alias)
    requires rest == [] || IsSpace(rest[0])
    ensures HostToken(h + "," + alias + rest) == Success(h)
  {
    var f := h + "," + alias;
    var line := h + "," + alias + rest;
    assert line == f + rest;
    assert NoSpace(f) by {
      forall i | 0 <= i < |f| ensures !IsSpace(f[i]) {
        if i < |h| { assert f[i] == h[i]; }
        else if i > |h| { assert f[i] == alias[i - |h| - 1]; }
      }
    }
    WordsOfWordThen(f, rest);
    PrefixBeforeIs(f, ',', h);
    PrefixBeforeIs(h, ':', h);
    WithoutNone(h, Brackets);
    assert h[0] != ':';
    HostTokenIsCutField(line);
  }

  lemma UnbracketName(h: string)
    requires PlainName(h)
    ensures Without("[" + h + "]", Brackets) == h
  {
    WithoutAppend("[" + h, "]", Brackets);
    WithoutAppend("[", h, Brackets);
    WithoutNone(h, Brackets);
  }

  lemma PortFieldPlain(h: string, port: string)
    requires PlainName(h) && NoSpace(port) && ',' !in port
    ensures var f := "[" + h + "]:" + port; NoSpace(f) && ',' !in f
    ensures var f := "[" + h + "]:" + port; PrefixBefore(f, ':') == "[" + h + "]"
  {
    var f := "[" + h + "]:" + port;
    forall i | 0 <= i < |f| ensures !IsSpace(f[i]) && f[i] != ',' {
      if 0 < i < |h| + 1 { assert f[i] == h[i - 1]; }
      else if i > |h| + 2 { assert f[i] == port[i - |h| - 3]; }
    }
    assert ':' !in "[" + h + "]" by {
      forall i | 0 < i < |h| + 1 ensures ("[" + h + "]")[i] != ':' {
        assert ("[" + h + "]")[i] == h[i - 1];
      }
    }
    PrefixBeforeIs(f, ':', "[" + h + "]");
  }

  /** A line `[name]:port key`, the form for a non-default port, yields the
      bare name: brackets and port are dropped. */
  lemma PortLineHost(h: string, port: string, rest: string)
    requires PlainName(h) && NoSpace(port) && ',' !in port
    requires rest == [] || IsSpace(rest[0])
    ensures HostToken("[" + h + "]:" + port + rest) == Success(h)
  {
    var f := "[" + h + "]:" + port;
    var line := "[" + h + "]:" + port + rest;
    assert line == f + rest;
    PortFieldPlain(h, port);
    WordsOfWordThen(f, rest);
    PrefixBeforeIs(f, ',', f);
    UnbracketName(h);
    assert f[0] != ':';
    HostTokenIsCutField(line);
  }

  /** `lines.map { ... }`: the tokens of all lines, or the error of the first
      line that has none. */
  function Tokens(lines: seq<string>): (r: Result<seq<string>, HostError>)
    ensures r.Success? <==> forall i :: 0 <= i < |lines| ==> HostToken(lines[i]).Success?
    ensures r.Success? ==> |r.value| == |lines|
    ensures r.Success? ==> forall i :: 0 <= i < |lines| ==> HostToken(lines[i]) == Success(r.value[i])
    ensures r.Failure? ==> exists i :: 0 <= i < |lines| && HostToken(lines[i]) == Failure(r.error)
  {
    if lines == [] then Success([])
    else match HostToken(lines[0])
      case Failure(e) => Failure(e)
      case Success(t) =>
        match Tokens(lines[1..])
        case Failure(e) =>
          LaterFailure(lines, e);
          Failure(e)
        case Success(ts) =>
          MapCons(HostToken, lines, t, ts);
          Success([t] + ts)
  }

  lemma LaterFailure(lines: seq<string>, e: HostError)
    requires lines != []
    requires exists i :: 0 <= i < |lines[1..]| && HostToken(lines[1..][i]) == Failure(e)
    ensures exists i :: 0 <= i < |lines| && HostToken(lines[i]) == Failure(e)
  {
    var i :| 0 <= i < |lines[1..]| && HostToken(lines[1..][i]) == Failure(e);
    assert lines[1..][i] == lines[i + 1];
  }

  /** Mapping a line function over `lines`: the first line's answer, then the
      rest's answers. */
  lemma MapCons<B>(f: string -> Result<B, HostError>, lines: seq<string>, y: B, ys: seq<B>)
    requires lines != [] && f(lines[0]) == Success(y) && |ys| == |lines| - 1
    requires forall i :: 0 <= i < |lines[1..]| ==> f(lines[1..][i]) == Success(ys[i])
    ensures forall i :: 0 <= i < |lines| ==> f(lines[i]) == Success(([y] + ys)[i])
  {
    forall i | 0 <= i < |lines| ensures f(lines[i]) == Success(([y] + ys)[i]) {
      if i > 0 {
        assert lines[i] == lines[1..][i - 1];
      }
    }
  }

  /** The tokens of the lines, as a set: a name is one exactly when some line
      yields it. */
  lemma TokenSet(lines: seq<string>, ts: seq<string>)
    requires |ts| == |lines|
    requires forall i :: 0 <= i < |lines| ==> HostToken(lines[i]) == Success(ts[i])
    ensures forall h :: h in ts <==> exists i :: 0 <= i < |lines| && HostToken(lines[i]) == Success(h)
  {
    forall h ensures h in ts <==> exists i :: 0 <= i < |lines| && HostToken(lines[i]) == Success(h) {
      if h in ts {
        var i :| 0 <= i < |ts| && ts[i] == h;
        assert HostToken(lines[i]) == Success(h);
      }
    }
  }

  lemma NoSpaceOfChars(h: string)
    requires forall c :: c in h ==> !IsSpace(c)
    ensures NoSpace(h)
  {
    assert forall k :: 0 <= k < |h| ==> h[k] in h;
  }

  lemma TokensBlankFree(lines: seq<string>, ts: seq<string>)
    requires |ts| == |lines|
    requires forall i :: 0 <= i < |lines| ==> HostToken(lines[i]) == Success(ts[i])
    ensures forall h :: h in ts ==> NoSpace(h)
  {
    forall h | h in ts ensures NoSpace(h) {
      var i :| 0 <= i < |ts| && ts[i] == h;
      assert HostToken(lines[i]) == Success(h);
      NoSpaceOfChars(h);
    }
  }

  /** `hosts`: the host tokens of all lines, sorted and without repeats. */
  function Hosts(text: string): (r: Result<seq<string>, HostError>)
    ensures r.Success? <==> forall i :: 0 <= i < |Lines(text)| ==> HostToken(Lines(text)[i]).Success?
    ensures r.Success? ==> StrictlySorted(r.value)
    ensures r.Success? ==> forall h :: h in r.value <==>
      exists i :: 0 <= i < |Lines(text)| && HostToken(Lines(text)[i]) == Success(h)
    ensures r.Success? ==> forall h :: h in r.value ==> NoSpace(h)
    ensures r.Failure? ==> exists i :: 0 <= i < |Lines(text)| && Lines(text)[i] == r.error.line
  {
    var lines := Lines(text);
    match Tokens(lines)
    case Failure(e) => Failure(e)
    case Success(ts) =>
      var hs := SortUniq(ts);
      TokenSet(lines, ts);
      TokensBlankFree(lines, ts);
      Success(hs)
  }

  lemma LinesOfTwo(l1: string, l2: string)
    requires '\n' !in l1 && '\n' !in l2 && l2 != []
    ensures Lines(l1 + "\n" + l2 + "\n") == [l1, l2]
  {
    var text := l1 + "\n" + l2 + "\n";
    assert text == l1 + ['\n'] + (l2 + ['\n'] + []);
    FieldsCons(l1, '\n', l2 + ['\n'] + []);
    FieldsCons(l2, '\n', []);
    assert Fields([], '\n') == [[]];
    var fs := Fields(text, '\n');
    assert fs == [l1, l2, []];
    assert fs[..2] == [l1, l2];
    assert DropTrailingEmpty(fs) == DropTrailingEmpty([l1, l2]);
  }

  lemma HostsOfTwo(lines: seq<string>, h1: string, h2: string, r: Result<seq<string>, HostError>)
    requires |lines| == 2
    requires HostToken(lines[0]) == Success(h1) && HostToken(lines[1]) == Success(h2)
    requires r.Success? ==> forall h :: h in r.value <==>
      exists i :: 0 <= i < |lines| && HostToken(lines[i]) == Success(h)
    requires r.Success? <==> forall i :: 0 <= i < |lines| ==> HostToken(lines[i]).Success?
    ensures r.Success?
    ensures forall h :: h in r.value <==> h == h1 || h == h2
  {
    assert HostToken(lines[0]).Success? && HostToken(lines[1]).Success?;
    forall h ensures h in r.value <==> h == h1 || h == h2 {
      if h in r.value {
        var i :| 0 <= i < |lines| && HostToken(lines[i]) == Success(h);
        assert i == 0 || i == 1;
      }
      if h == h1 { assert HostToken(lines[0]) == Success(h); }
      if h == h2 { assert HostToken(lines[1]) == Success(h); }
    }
  }

  lemma TwoLineHostSet(l1: string, l2: string, h1: string, h2: string)
    requires HostToken(l1) == Success(h1) && HostToken(l2) == Success(h2)
    requires '\n' !in l1 && '\n' !in l2
    ensures Hosts(l1 + "\n" + l2 + "\n").Success?
    ensures forall h :: h in Hosts(l1 + "\n" + l2 + "\n").value <==> h == h1 || h == h2
  {
    HostTokenIsCutField(l2);
    assert Words(l2) != [];
    LinesOfTwo(l1, l2);
    HostsOfTwo([l1, l2], h1, h2, Hosts(l1 + "\n" + l2 + "\n"));
  }

  /** The strictly sorted arrangement of at most two hosts. */
  lemma SortedPair(xs: seq<string>, h1: string, h2: string)
    requires StrictlySorted(xs)
    requires forall h :: h in xs <==> h == h1 || h == h2
    ensures Less(h1, h2) ==> xs == [h1, h2]
    ensures Less(h2, h1) ==> xs == [h2, h1]
    ensures h1 == h2 ==> xs == [h1]
  {
    if Less(h1, h2) {
      StrictlySortedUnique(xs, [h1, h2]);
    }
    if Less(h2, h1) {
      StrictlySortedUnique(xs, [h2, h1]);
    }
    if h1 == h2 {
      StrictlySortedUnique(xs, [h1]);
    }
  }

  /** Two lines, each ended by a newline, give their two hosts in ascending
      order, or one host when both lines name the same one. */
  lemma TwoLineHosts(l1: string, l2: string, h1: string, h2: string)
    requires HostToken(l1) == Success(h1) && HostToken(l2) == Success(h2)
    requires '\n' !in l1 && '\n' !in l2
    ensures Less(h1, h2) ==> Hosts(l1 + "\n" + l2 + "\n") == Success([h1, h2])
    ensures Less(h2, h1) ==> Hosts(l1 + "\n" + l2 + "\n") == Success([h2, h1])
    ensures h1 == h2 ==> Hosts(l1 + "\n" + l2 + "\n") == Success([h1])
  {
    TwoLineHostSet(l1, l2, h1, h2);
    var r := Hosts(l1 + "\n" + l2 + "\n");
    SortedPair(r.value, h1, h2);
  }
}

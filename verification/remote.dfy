/** The `Proxy` class (replace-ssh-key.rb:20-73): running a command through
    the shell, probing whether a key logs in to a host, and building the
    remote command that swaps one authorized key for another.

    What the script cannot see is an `Env`: the contents of files, the MD5
    digest and the exit status of a shell command. Running a command is
    recorded by appending it to the log of executed commands. */
module Remote {
  import opened Wrappers
  import opened Text
  import Cache

  /** The options the script consults: `timeout` (nil unless given),
      `verbose` (only changes what is printed) and `dry_run`. */
  datatype Options = Options(timeout: Option<int>, verbose: bool, dryRun: bool)

  /** Connection timeout, in seconds, when none is configured. */
  const DefaultTimeout := 5

  /** A `Proxy` holds its options and, once it has probed, the MD5 of the key
      file it first probed with. */
  datatype Proxy = Proxy(opts: Options, keyHash: Option<string>)

  function NewProxy(opts: Options): Proxy {
    Proxy(opts, None)
  }

  /** File contents by path, the hex MD5 digest of a text, and whether a
      shell command exits with status zero. */
  datatype Env = Env(read: string -> string, md5: string -> string, succeeds: string -> bool)

  /** `run`: in a dry run nothing is executed and the answer is success;
      otherwise the command runs once and succeeds when it exits with zero. */
  function Run(opts: Options, cmd: string, env: Env, executed: seq<string>): (r: (bool, seq<string>))
    ensures opts.dryRun ==> r.0 && r.1 == executed
    ensures !opts.dryRun ==> r.1 == executed + [cmd] && (r.0 <==> env.succeeds(cmd))
  {
    if opts.dryRun then (true, executed)
    else (env.succeeds(cmd), executed + [cmd])
  }

  /* ---------------------------------------------------------------------- */
  /* can_connect?                                                             */
  /* ---------------------------------------------------------------------- */

  /** `opts.timeout || 5`. */
  function Timeout(opts: Options): int {
    opts.timeout.GetOr(DefaultTimeout)
  }

  /** The non-interactive login attempt that exits at once. */
  function ProbeCommand(timeout: int, key: string, host: string): string {
    "ssh -oBatchMode=yes -oConnectTimeout=" + IntToDecimal(timeout)
      + " -i \"" + key + "\" \"" + host + "\" exit"
  }

  /** The cache key of a probe: the host, a space, the key's hash. */
  function CacheKey(host: string, hash: string): string {
    host + " " + hash
  }

  /** Hosts have no blanks, so a cache key determines both its host and its
      hash: distinct hosts, or distinct hashes, never share an entry. */
  lemma CacheKeyInjective(h1: string, k1: string, h2: string, k2: string)
    requires NoSpace(h1) && NoSpace(h2)
    requires CacheKey(h1, k1) == CacheKey(h2, k2)
    ensures h1 == h2 && k1 == k2
  {
    var c := CacheKey(h1, k1);
    assert c[|h1|] == ' ';
    assert c[|h2|] == ' ';
    assert |h1| == |h2|;
    assert h1 == c[..|h1|] == h2;
    assert k1 == c[|h1| + 1..] == k2;
  }

  /** The hash a probe uses: the remembered one, or else the MD5 of the key file. */
  function ProbeHash(p: Proxy, key: string, env: Env): string {
    p.keyHash.GetOr(env.md5(env.read(key)))
  }

  /** The outcome of `can_connect?`: the proxy afterwards, the cache entries,
      the executed commands, and the answer. */
  datatype Probe = Probe(proxy: Proxy, entries: map<string, bool>, executed: seq<string>, ok: bool)

  /** `can_connect?(host, key)`. */
  function CanConnect(p: Proxy, entries: map<string, bool>, executed: seq<string>,
                      host: string, key: string, env: Env): (r: Probe)
    // the hash is fixed by the first probe and kept for every later one
    ensures r.proxy.opts == p.opts
    ensures p.keyHash.Some? ==> r.proxy == p
    ensures p.keyHash.None? ==> r.proxy.keyHash == Some(env.md5(env.read(key)))
    // a cached answer is returned as it is, with nothing executed
    ensures var k := CacheKey(host, ProbeHash(p, key, env));
            k in entries ==> r.ok == entries[k] && r.entries == entries && r.executed == executed
    // otherwise the login attempt runs once (unless dry-running) and its answer is recorded
    ensures var k := CacheKey(host, ProbeHash(p, key, env));
            var cmd := ProbeCommand(Timeout(p.opts), key, host);
            k !in entries ==>
              && r.entries == entries[k := r.ok]
              && (r.ok <==> p.opts.dryRun || env.succeeds(cmd))
              && r.executed == (if p.opts.dryRun then executed else executed + [cmd])
  {
    var hash := ProbeHash(p, key, env);
    var cmd := ProbeCommand(Timeout(p.opts), key, host);
    var l := Cache.Cache(entries, CacheKey(host, hash), executed, s => Run(p.opts, cmd, env, s));
    Probe(p.(keyHash := Some(hash)), l.entries, l.state, l.value)
  }

  /** Probing a host again through the same proxy answers as the first probe
      did and runs nothing, whatever key path the second probe names: the
      remembered hash, not the key, picks the cache entry. */
  lemma ProbeAgain(p: Proxy, entries: map<string, bool>, executed: seq<string>, host: string,
                   key: string, otherKey: string, env: Env, later: seq<string>)
    ensures var first := CanConnect(p, entries, executed, host, key, env);
            var again := CanConnect(first.proxy, first.entries, later, host, otherKey, env);
            again == Probe(first.proxy, first.entries, later, first.ok)
  {
  }

  /** In a dry run a probe executes nothing, and an uncached one answers
      true and records true. */
  lemma DryRunProbe(p: Proxy, entries: map<string, bool>, executed: seq<string>, host: string,
                    key: string, env: Env)
    requires p.opts.dryRun
    ensures var r := CanConnect(p, entries, executed, host, key, env);
            var k := CacheKey(host, ProbeHash(p, key, env));
            && r.executed == executed
            && (k !in entries ==> r.ok && r.entries == entries[k := true])
  {
  }

  /* ---------------------------------------------------------------------- */
  /* replace_key                                                              */
  /* ---------------------------------------------------------------------- */

  const AuthorizedKeys := "~/.ssh/authorized_keys"
  const AuthorizedKeysTmp := "~/.ssh/authorized_keys.tmp"

  /** The six spaces each line of the command template is indented by. */
  const Indent := "      "

  function Min(a: int, b: int): int {
    if a < b then a else b
  }

  /** `File.read("#{old_key}.pub").split[0..1].join(" ")`: the algorithm and
      key fields of a public key, without its comment. */
  function OldContent(pub: string): (r: string)
    ensures Words(r) == Words(pub)[..Min(2, |Words(pub)|)]
    ensures r == Join(Words(r), " ")
    ensures '\n' !in r
  {
    var ws := Words(pub);
    var kept := ws[..Min(2, |ws|)];
    WordsOfJoin(kept);
    JoinHasNoChar(kept, " ", '\n');
    assert forall i :: 0 <= i < |kept| ==> '\n' !in kept[i] by {
      forall i | 0 <= i < |kept| ensures '\n' !in kept[i] {
        assert forall j :: 0 <= j < |kept[i]| ==> !IsSpace(kept[i][j]);
      }
    }
    Join(kept, " ")
  }

  /** A public key line `algorithm key comment...` is reduced to `algorithm key`. */
  lemma OldContentDropsComment(ws: seq<string>)
    requires |ws| >= 2
    requires forall i :: 0 <= i < |ws| ==> ws[i] != [] && NoSpace(ws[i])
    ensures OldContent(Join(ws, " ")) == ws[0] + " " + ws[1]
  {
    WordsOfJoin(ws);
    OldContentOfFields(Join(ws, " "));
  }

  /** Whatever blanks separate and surround the fields of a public key
      line, its first two fields come out joined by a single space. */
  lemma OldContentOfFields(pub: string)
    requires |Words(pub)| >= 2
    ensures OldContent(pub) == Words(pub)[0] + " " + Words(pub)[1]
  {
    var kept := Words(pub)[..2];
    assert Words(OldContent(pub)) == kept;
    assert kept[1..] == [Words(pub)[1]];
    assert Join(kept, " ") == kept[0] + " " + Join(kept[1..], " ");
  }

  /** `File.read("#{new_key}.pub").strip`: the key file's text with only
      its blank and NUL padding removed from both ends. */
  function NewContent(pub: string): (r: string)
    ensures r == [] || (!IsStripSpace(r[0]) && !IsStripSpace(r[|r| - 1]))
    ensures exists i :: PaddedAt(pub, r, i)
  {
    Strip(pub)
  }

  /** The four commands the remote shell is to run, in order: drop the old
      key's lines into a temporary file, append the new key, make the file
      private, and move it over `authorized_keys`. */
  function Steps(oldText: string, newText: string): seq<string> {
    [ "grep -v \"" + oldText + "\" " + AuthorizedKeys + " > " + AuthorizedKeysTmp,
      "echo \"" + newText + "\" >> " + AuthorizedKeysTmp,
      "chmod 600 " + AuthorizedKeysTmp,
      "mv " + AuthorizedKeysTmp + " " + AuthorizedKeys ]
  }

  /** Lines, each indented by six spaces and ended by a newline. */
  function IndentedLines(ls: seq<string>): string {
    if ls == [] then [] else Indent + ls[0] + "\n" + IndentedLines(ls[1..])
  }

  /** Lines, each ended by a newline. */
  function Terminated(ls: seq<string>): string {
    if ls == [] then [] else ls[0] + "\n" + Terminated(ls[1..])
  }

  /** The command template with the key contents filled in, as the script's
      heredoc holds it: each step on a line of its own, indented by six spaces. */
  function Template(oldText: string, newText: string): string {
    IndentedLines(Steps(oldText, newText))
  }

  /** `gsub(/^\s{6}/, "")`: wherever a line starts with six whitespace
      characters they are deleted; the search resumes after each deletion.
      `atStart` says whether `s` begins a line. */
  function Dedent(s: string, atStart: bool): string
    decreases |s|
  {
    if atStart && |s| >= 6 && forall i :: 0 <= i < 6 ==> IsSpace(s[i]) then Dedent(s[6..], s[5] == '\n')
    else if s == [] then []
    else [s[0]] + Dedent(s[1..], s[0] == '\n')
  }

  lemma {:induction false} DedentLineBody(body: string, rest: string)
    requires '\n' !in body
    ensures Dedent(body + "\n" + rest, false) == body + "\n" + Dedent(rest, true)
  {
    var s := body + "\n" + rest;
    if body == [] {
      assert s[1..] == rest;
    } else {
      assert s[1..] == body[1..] + "\n" + rest;
      DedentLineBody(body[1..], rest);
    }
  }

  lemma DedentLine(body: string, rest: string)
    requires '\n' !in body
    ensures Dedent(Indent + body + "\n" + rest, true) == body + "\n" + Dedent(rest, true)
  {
    var s := Indent + body + "\n" + rest;
    assert s[6..] == body + "\n" + rest;
    DedentLineBody(body, rest);
  }

  lemma StepsHaveNoNewline(oldText: string, newText: string)
    requires '\n' !in oldText && '\n' !in newText
    ensures forall i :: 0 <= i < 4 ==> '\n' !in Steps(oldText, newText)[i]
  {
  }

  /** Deleting the indentation leaves the lines themselves. */
  lemma {:induction false} DedentIndentedLines(ls: seq<string>)
    requires forall i :: 0 <= i < |ls| ==> '\n' !in ls[i]
    ensures Dedent(IndentedLines(ls), true) == Terminated(ls)
  {
    if ls != [] {
      DedentIndentedLines(ls[1..]);
      DedentLine(ls[0], IndentedLines(ls[1..]));
    }
  }

  lemma TerminatedCons(ls: seq<string>)
    requires ls != []
    ensures Terminated(ls) == ls[0] + ['\n'] + Terminated(ls[1..])
  {
  }

  lemma FieldsConsLine(head: string, tail: seq<string>, t: string)
    requires '\n' !in head
    requires Fields(t, '\n') == tail + [[]]
    ensures Fields(head + ['\n'] + t, '\n') == [head] + tail + [[]]
  {
    FieldsCons(head, '\n', t);
  }

  lemma {:induction false} FieldsOfTerminated(ls: seq<string>)
    requires forall i :: 0 <= i < |ls| ==> '\n' !in ls[i]
    ensures Fields(Terminated(ls), '\n') == ls + [[]]
  {
    if ls == [] {
      assert Fields([], '\n') == [[]];
    } else {
      FieldsOfTerminated(ls[1..]);
      TerminatedCons(ls);
      FieldsConsLine(ls[0], ls[1..], Terminated(ls[1..]));
      assert ls == [ls[0]] + ls[1..];
    }
  }

  /** Newline-terminated lines split back into those lines, the last being non-empty. */
  lemma SplitTerminated(ls: seq<string>)
    requires forall i :: 0 <= i < |ls| ==> '\n' !in ls[i]
    requires ls == [] || ls[|ls| - 1] != []
    ensures SplitOn(Terminated(ls), '\n') == ls
  {
    FieldsOfTerminated(ls);
    DropOneTrailingEmpty(ls);
  }

  /** One empty field after a list whose last field is not empty is all
      that is dropped. */
  lemma DropOneTrailingEmpty(ls: seq<string>)
    requires ls == [] || ls[|ls| - 1] != []
    ensures DropTrailingEmpty(ls + [[]]) == ls
  {
    assert (ls + [[]])[..|ls|] == ls;
  }

  /** The lines of the dedented template are exactly the four steps, as long
      as neither key text contains a line break. */
  lemma TemplateLines(oldText: string, newText: string)
    requires '\n' !in oldText && '\n' !in newText
    ensures SplitOn(Dedent(Template(oldText, newText), true), '\n') == Steps(oldText, newText)
  {
    var st := Steps(oldText, newText);
    StepsHaveNoNewline(oldText, newText);
    DedentIndentedLines(st);
    SplitTerminated(st);
  }

  /** The single argument the remote shell receives: the template's lines
      chained with ` && ` and every double quote escaped. */
  function Chained(oldText: string, newText: string): string {
    EscapeQuotes(Join(SplitOn(Dedent(Template(oldText, newText), true), '\n'), " && "))
  }

  /** With single-line key texts the chained command is the four steps, in
      order, joined by ` && ` so that a failing step stops the rest; escaping
      changed nothing but the quotes it protects, and leaves none bare. */
  lemma ChainedIsFourSteps(oldText: string, newText: string)
    requires '\n' !in oldText && '\n' !in newText
    ensures UnescapeQuotes(Chained(oldText, newText)) == Join(Steps(oldText, newText), " && ")
    ensures var c := Chained(oldText, newText);
            forall i :: 0 <= i < |c| && c[i] == '"' ==> 0 < i && c[i - 1] == '\\'
  {
    TemplateLines(oldText, newText);
    EscapeQuotesRoundTrip(Join(Steps(oldText, newText), " && "));
  }

  /** `ssh -i "<old_key>" "<host>" "<chained>"`: the swap runs over one
      session that logs in with the old key. */
  function ReplaceCommand(host: string, oldKey: string, chained: string): string {
    "ssh -i \"" + oldKey + "\" \"" + host + "\" \"" + chained + "\""
  }

  /** The swap command is the login prefix, the chained argument and a
      closing quote. */
  lemma ReplaceCommandShape(host: string, oldKey: string, chained: string)
    ensures var sent := ReplaceCommand(host, oldKey, chained);
            var login := "ssh -i \"" + oldKey + "\" \"" + host + "\" \"";
            && |login| < |sent| && login <= sent
            && sent[|sent| - 1] == '"'
            && sent[|login|..|sent| - 1] == chained
  {
  }

  /** `replace_key(host, old_key, new_key)`: builds the swap command from the
      two public key files and runs it. */
  function ReplaceKey(p: Proxy, executed: seq<string>, host: string, oldKey: string, newKey: string,
                      env: Env): (r: (bool, seq<string>))
    ensures p.opts.dryRun ==> r.0 && r.1 == executed
    ensures !p.opts.dryRun ==>
      && |r.1| == |executed| + 1 && r.1[..|executed|] == executed
      && (r.0 <==> env.succeeds(r.1[|executed|]))
      && var sent := r.1[|executed|];
         var login := "ssh -i \"" + oldKey + "\" \"" + host + "\" \"";
         && |login| < |sent| && login <= sent
         && sent[|sent| - 1] == '"'
         && sent[|login|..|sent| - 1]
              == Chained(OldContent(env.read(oldKey + ".pub")), NewContent(env.read(newKey + ".pub")))
  {
    var chained := Chained(OldContent(env.read(oldKey + ".pub")), NewContent(env.read(newKey + ".pub")));
    var cmd := ReplaceCommand(host, oldKey, chained);
    ReplaceCommandShape(host, oldKey, chained);
    var r := Run(p.opts, cmd, env, executed);
    assert !p.opts.dryRun ==> r.1[|executed|] == cmd;
    r
  }
}

/** The two sweeps over the known hosts: `connect_to_each_server`
    (replace-ssh-key.rb:98-107) reports which hosts the old key logs in to,
    and `replace_on_each_server` (replace-ssh-key.rb:109-118) swaps the key
    on each of them. Both visit the hosts in list order with one `Proxy`, so
    every probe uses the MD5 of the old key file. */
module Driver {
  import opened Wrappers
  import opened Text
  import opened Order
  import opened KnownHosts
  import opened Remote

  /** What a sweep depends on and does not change: the options, the cache as
      the sweep finds it, the two key paths and the environment. */
  datatype Plan = Plan(opts: Options, entries: map<string, bool>, oldKey: string, newKey: string, env: Env)

  /** The hash every probe of the sweep uses. */
  function Hash(pl: Plan): string {
    pl.env.md5(pl.env.read(pl.oldKey))
  }

  function Key(pl: Plan, host: string): string {
    CacheKey(host, Hash(pl))
  }

  function Probing(pl: Plan, host: string): string {
    ProbeCommand(Timeout(pl.opts), pl.oldKey, host)
  }

  /** The answer the probe of `host` gives: the cached one if the cache held
      it when the sweep began, else success in a dry run, else the exit
      status of the login attempt. */
  function Reachable(pl: Plan, host: string): bool {
    var k := Key(pl, host);
    if k in pl.entries then pl.entries[k] else pl.opts.dryRun || pl.env.succeeds(Probing(pl, host))
  }

  /** The commands the probe of `host` executes. */
  function ProbeLog(pl: Plan, host: string): seq<string> {
    if Key(pl, host) in pl.entries || pl.opts.dryRun then [] else [Probing(pl, host)]
  }

  /** The swap command for `host`. */
  function Swap(pl: Plan, host: string): string {
    var oldText := OldContent(pl.env.read(pl.oldKey + ".pub"));
    var newText := NewContent(pl.env.read(pl.newKey + ".pub"));
    ReplaceCommand(host, pl.oldKey, Chained(oldText, newText))
  }

  /** The commands `replace_on_each_server` executes for `host`: its probe,
      then the swap if that probe answers true. */
  function HostLog(pl: Plan, host: string): seq<string> {
    ProbeLog(pl, host) + (if Reachable(pl, host) && !pl.opts.dryRun then [Swap(pl, host)] else [])
  }

  function ConnectLog(pl: Plan, hs: seq<string>): seq<string> {
    if hs == [] then [] else ConnectLog(pl, hs[..|hs| - 1]) + ProbeLog(pl, hs[|hs| - 1])
  }

  function ReplaceLog(pl: Plan, hs: seq<string>): seq<string> {
    if hs == [] then [] else ReplaceLog(pl, hs[..|hs| - 1]) + HostLog(pl, hs[|hs| - 1])
  }

  /** The hosts of `hs` whose probe with the old key answers true (a cached
      `true`, a dry run, or exit status 0), in list order. */
  function ReachableHosts(pl: Plan, hs: seq<string>): seq<string> {
    if hs == [] then []
    else ReachableHosts(pl, hs[..|hs| - 1]) + (if Reachable(pl, hs[|hs| - 1]) then [hs[|hs| - 1]] else [])
  }

  /** The report lines of a sweep over `hs`: each host with its answer. */
  function ReportLines(pl: Plan, hs: seq<string>): seq<(string, bool)> {
    if hs == [] then []
    else ReportLines(pl, hs[..|hs| - 1]) + [(hs[|hs| - 1], Reachable(pl, hs[|hs| - 1]))]
  }

  /** The cache after the probes of `hs`, each host answered by `Reachable`. */
  function CacheOf(pl: Plan, hs: seq<string>): map<string, bool> {
    if hs == [] then pl.entries
    else CacheOf(pl, hs[..|hs| - 1])[Key(pl, hs[|hs| - 1]) := Reachable(pl, hs[|hs| - 1])]
  }

  /** Extending the host list by one host extends each log, and the cache, by
      that host's part. */
  lemma SweepSnoc(pl: Plan, hs: seq<string>, i: nat)
    requires i < |hs|
    ensures ConnectLog(pl, hs[..i + 1]) == ConnectLog(pl, hs[..i]) + ProbeLog(pl, hs[i])
    ensures ReplaceLog(pl, hs[..i + 1]) == ReplaceLog(pl, hs[..i]) + HostLog(pl, hs[i])
    ensures ReachableHosts(pl, hs[..i + 1])
         == ReachableHosts(pl, hs[..i]) + (if Reachable(pl, hs[i]) then [hs[i]] else [])
    ensures ReportLines(pl, hs[..i + 1]) == ReportLines(pl, hs[..i]) + [(hs[i], Reachable(pl, hs[i]))]
  {
    assert hs[..i + 1][..i] == hs[..i];
  }

  lemma CacheOfSnoc(pl: Plan, hs: seq<string>, i: nat)
    requires i < |hs|
    ensures CacheOf(pl, hs[..i + 1]) == CacheOf(pl, hs[..i])[Key(pl, hs[i]) := Reachable(pl, hs[i])]
  {
    assert hs[..i + 1][..i] == hs[..i];
  }

  lemma AppendAssoc<T>(a: seq<T>, b: seq<T>, c: seq<T>)
    ensures a + (b + c) == (a + b) + c
  {
  }

  /** A proxy of the sweep: its options, and either no hash yet or the sweep's. */
  predicate ProxyOf(pl: Plan, p: Proxy) {
    p.opts == pl.opts && (p.keyHash == None || p.keyHash == Some(Hash(pl)))
  }

  /** Hosts as `hosts` returns them: ascending, distinct and blank-free. */
  predicate HostList(hs: seq<string>) {
    StrictlySorted(hs) && forall h :: h in hs ==> NoSpace(h)
  }

  /** The cache after the first `i` hosts of `hs` were probed: older entries
      kept, an answer for each probed host, the others as the sweep found
      them, and nothing else added. */
  predicate CacheAfter(pl: Plan, hs: seq<string>, i: nat, cur: map<string, bool>)
    requires i <= |hs|
  {
    Kept(pl, cur) && Answered(pl, hs, i, cur) && Untouched(pl, hs, i, cur) && OnlyProbed(pl, hs, i, cur)
  }

  predicate Kept(pl: Plan, cur: map<string, bool>) {
    forall k :: k in pl.entries ==> k in cur && cur[k] == pl.entries[k]
  }

  predicate Answered(pl: Plan, hs: seq<string>, i: nat, cur: map<string, bool>)
    requires i <= |hs|
  {
    forall j :: 0 <= j < i ==> Key(pl, hs[j]) in cur && cur[Key(pl, hs[j])] == Reachable(pl, hs[j])
  }

  predicate Untouched(pl: Plan, hs: seq<string>, i: nat, cur: map<string, bool>)
    requires i <= |hs|
  {
    forall j :: i <= j < |hs| ==> (Key(pl, hs[j]) in cur <==> Key(pl, hs[j]) in pl.entries)
  }

  predicate OnlyProbed(pl: Plan, hs: seq<string>, i: nat, cur: map<string, bool>)
    requires i <= |hs|
  {
    forall k :: k in cur ==> k in pl.entries || exists j :: 0 <= j < i && k == Key(pl, hs[j])
  }

  /** Distinct blank-free hosts have distinct cache keys. */
  lemma KeysDistinct(pl: Plan, hs: seq<string>, i: nat, j: nat)
    requires i < j < |hs| && HostList(hs)
    ensures Key(pl, hs[i]) != Key(pl, hs[j])
  {
    LessIrreflexive(hs[i]);
    assert Less(hs[i], hs[j]);
    if Key(pl, hs[i]) == Key(pl, hs[j]) {
      assert hs[j] in hs && hs[i] in hs;
      CacheKeyInjective(hs[j], Hash(pl), hs[i], Hash(pl));
    }
  }

  /** Since the hosts are distinct and blank-free, recording the answer for
      one host answers for no other. */
  lemma CacheStep(pl: Plan, hs: seq<string>, i: nat, cur: map<string, bool>)
    requires i < |hs| && HostList(hs) && CacheAfter(pl, hs, i, cur)
    ensures CacheAfter(pl, hs, i + 1, cur[Key(pl, hs[i]) := Reachable(pl, hs[i])])
  {
    var next := cur[Key(pl, hs[i]) := Reachable(pl, hs[i])];
    assert Kept(pl, next);
    assert Answered(pl, hs, i + 1, next);
    UntouchedStep(pl, hs, i, cur);
    OnlyProbedStep(pl, hs, i, cur);
  }

  lemma UntouchedStep(pl: Plan, hs: seq<string>, i: nat, cur: map<string, bool>)
    requires i < |hs| && HostList(hs) && Untouched(pl, hs, i, cur)
    ensures Untouched(pl, hs, i + 1, cur[Key(pl, hs[i]) := Reachable(pl, hs[i])])
  {
    forall j | i + 1 <= j < |hs|
      ensures Key(pl, hs[j]) in cur[Key(pl, hs[i]) := Reachable(pl, hs[i])] <==> Key(pl, hs[j]) in pl.entries
    {
      KeysDistinct(pl, hs, i, j);
    }
  }

  lemma OnlyProbedStep(pl: Plan, hs: seq<string>, i: nat, cur: map<string, bool>)
    requires i < |hs| && OnlyProbed(pl, hs, i, cur)
    ensures OnlyProbed(pl, hs, i + 1, cur[Key(pl, hs[i]) := Reachable(pl, hs[i])])
  {
  }

  /** `CacheOf` keeps the old entries, answers for exactly the probed hosts,
      and adds nothing else. */
  lemma {:induction false} CacheOfAfter(pl: Plan, hs: seq<string>, i: nat)
    requires i <= |hs| && HostList(hs)
    ensures CacheAfter(pl, hs, i, CacheOf(pl, hs[..i]))
  {
    if i == 0 {
      assert hs[..0] == [];
    } else {
      var n := i - 1;
      var prev := CacheOf(pl, hs[..n]);
      CacheOfAfter(pl, hs, n);
      CacheStep(pl, hs, n, prev);
      CacheOfSnoc(pl, hs, n);
      assert CacheOf(pl, hs[..i]) == prev[Key(pl, hs[n]) := Reachable(pl, hs[n])];
    }
  }

  /** A host not yet probed finds in the cache exactly what the sweep began
      with. */
  lemma CachedAnswer(pl: Plan, hs: seq<string>, i: nat)
    requires i < |hs| && HostList(hs)
    ensures var cur := CacheOf(pl, hs[..i]);
            var k := Key(pl, hs[i]);
            (k in cur <==> k in pl.entries) && (k in cur ==> cur[k] == pl.entries[k])
  {
    CacheOfAfter(pl, hs, i);
    CacheStep(pl, hs, i, CacheOf(pl, hs[..i]));
  }

  /** The probe of `hs[i]` in a sweep, as the loop body performs it: it answers
      `Reachable`, executes `ProbeLog` and records the answer. */
  method ProbeHost(pl: Plan, hs: seq<string>, i: nat, p: Proxy, log: seq<string>)
    returns (r: Probe)
    requires i < |hs| && HostList(hs) && ProxyOf(pl, p)
    ensures r.ok == Reachable(pl, hs[i])
    ensures r.executed == log + ProbeLog(pl, hs[i])
    ensures r.proxy == p.(keyHash := Some(Hash(pl)))
    ensures r.entries == CacheOf(pl, hs[..i + 1])
  {
    CachedAnswer(pl, hs, i);
    CacheOfSnoc(pl, hs, i);
    assert ProbeHash(p, pl.oldKey, pl.env) == Hash(pl);
    r := CanConnect(p, CacheOf(pl, hs[..i]), log, hs[i], pl.oldKey, pl.env);
  }

  /** The swap on `host` in a sweep, as the loop body performs it: `Swap`
      executes unless dry-running. */
  method SwapHost(pl: Plan, p: Proxy, log: seq<string>, host: string) returns (after: seq<string>)
    requires p.opts == pl.opts
    ensures after == log + (if pl.opts.dryRun then [] else [Swap(pl, host)])
  {
    after := ReplaceKey(p, log, host, pl.oldKey, pl.newKey, pl.env).1;
  }

  /** One iteration of `replace_on_each_server`: the probe of `hs[i]`, then
      the swap on it when the probe succeeds. */
  method VisitHost(pl: Plan, hs: seq<string>, i: nat, p: Proxy, log: seq<string>)
    returns (proxy: Proxy, entries: map<string, bool>, after: seq<string>, ok: bool)
    requires i < |hs| && HostList(hs) && ProxyOf(pl, p)
    ensures ok == Reachable(pl, hs[i])
    ensures after == log + HostLog(pl, hs[i])
    ensures ProxyOf(pl, proxy)
    ensures entries == CacheOf(pl, hs[..i + 1])
  {
    var probe := ProbeHost(pl, hs, i, p, log);
    proxy, entries, after, ok := probe.proxy, probe.entries, probe.executed, probe.ok;
    var swap: seq<string> := if ok && !pl.opts.dryRun then [Swap(pl, hs[i])] else [];
    assert HostLog(pl, hs[i]) == ProbeLog(pl, hs[i]) + swap;
    if ok {
      after := SwapHost(pl, proxy, after, hs[i]);
    }
    assert after == (log + ProbeLog(pl, hs[i])) + swap;
    AppendAssoc(log, ProbeLog(pl, hs[i]), swap);
  }

  /** The key is swapped on exactly the listed hosts whose probe with the old
      key answers true: a cached `true`, any uncached host in a dry run, or
      an uncached host whose login attempt exits with status 0. */
  lemma {:induction false} ReachableHostsExactly(pl: Plan, hs: seq<string>)
    ensures forall h :: h in ReachableHosts(pl, hs) <==> h in hs && Reachable(pl, h)
  {
    if hs != [] {
      var init, last := hs[..|hs| - 1], hs[|hs| - 1];
      ReachableHostsExactly(pl, init);
      assert hs == init + [last];
    }
  }

  /** A dry run executes nothing: every probe answers without a login and
      every swap is skipped. */
  lemma {:induction false} DryRunExecutesNothing(pl: Plan, hs: seq<string>)
    requires pl.opts.dryRun
    ensures ConnectLog(pl, hs) == [] && ReplaceLog(pl, hs) == []
  {
    if hs != [] {
      DryRunExecutesNothing(pl, hs[..|hs| - 1]);
    }
  }

  /** A second sweep that starts from the cache the first one left executes
      no probe and finds every host as the first did. */
  lemma SecondSweepCached(pl: Plan, hs: seq<string>)
    requires HostList(hs)
    ensures var again := pl.(entries := CacheOf(pl, hs));
            && ConnectLog(again, hs) == []
            && forall h :: h in hs ==> Reachable(again, h) == Reachable(pl, h)
  {
    var again := pl.(entries := CacheOf(pl, hs));
    CacheOfAfter(pl, hs, |hs|);
    assert hs[..|hs|] == hs;
    forall j | 0 <= j < |hs|
      ensures Key(again, hs[j]) in again.entries
    {
      assert Key(again, hs[j]) == Key(pl, hs[j]);
    }
    NoProbes(again, hs);
  }

  /** With every host's key cached, a sweep executes no probe. */
  lemma {:induction false} NoProbes(pl: Plan, hs: seq<string>)
    requires forall j :: 0 <= j < |hs| ==> Key(pl, hs[j]) in pl.entries
    ensures ConnectLog(pl, hs) == []
  {
    if hs != [] {
      NoProbes(pl, hs[..|hs| - 1]);
    }
  }

  /** Each report line names its host and carries that host's answer. */
  lemma {:induction false} ReportLinesAt(pl: Plan, hs: seq<string>)
    ensures |ReportLines(pl, hs)| == |hs|
    ensures forall i :: 0 <= i < |hs| ==> ReportLines(pl, hs)[i] == (hs[i], Reachable(pl, hs[i]))
  {
    if hs != [] {
      var init := hs[..|hs| - 1];
      ReportLinesAt(pl, init);
      forall i | 0 <= i < |hs|
        ensures ReportLines(pl, hs)[i] == (hs[i], Reachable(pl, hs[i]))
      {
        if i < |init| {
          assert hs[i] == init[i];
        }
      }
    }
  }

  /** What `connect_to_each_server` prints, a line per host: its name and
      whether its probe with the old key answered true. */
  datatype Report = Report(entries: map<string, bool>, executed: seq<string>, lines: seq<(string, bool)>)

  /** The loop of `connect_to_each_server` over a host list. */
  method ProbeEach(pl: Plan, hs: seq<string>, executed: seq<string>) returns (r: Report)
    requires HostList(hs)
    ensures |r.lines| == |hs|
    ensures forall i :: 0 <= i < |hs| ==> r.lines[i] == (hs[i], Reachable(pl, hs[i]))
    ensures r.executed == executed + ConnectLog(pl, hs)
    ensures r.entries == CacheOf(pl, hs)
  {
    var proxy := NewProxy(pl.opts);
    var cur, log, lines := pl.entries, executed, [];
    var i := 0;
    while i < |hs|
      invariant i <= |hs|
      invariant ProxyOf(pl, proxy)
      invariant cur == CacheOf(pl, hs[..i])
      invariant log == executed + ConnectLog(pl, hs[..i])
      invariant lines == ReportLines(pl, hs[..i])
    {
      SweepSnoc(pl, hs, i);
      AppendAssoc(executed, ConnectLog(pl, hs[..i]), ProbeLog(pl, hs[i]));
      var probe := ProbeHost(pl, hs, i, proxy, log);
      proxy, cur, log := probe.proxy, probe.entries, probe.executed;
      lines := lines + [(hs[i], probe.ok)];
      i := i + 1;
    }
    assert hs[..i] == hs;
    ReportLinesAt(pl, hs);
    return Report(cur, log, lines);
  }

  /** `connect_to_each_server`: probes every known host with the old key;
      a known_hosts line without a host stops it before any probe. */
  method ConnectToEachServer(opts: Options, knownHosts: string, oldKey: string, env: Env,
                             entries: map<string, bool>, executed: seq<string>)
    returns (r: Result<Report, HostError>)
    ensures Hosts(knownHosts).Failure? ==> r == Failure(Hosts(knownHosts).error)
    ensures Hosts(knownHosts).Success? ==> r.Success?
    ensures r.Success? ==>
      var hs := Hosts(knownHosts).value;
      var pl := Plan(opts, entries, oldKey, [], env);
      && |r.value.lines| == |hs|
      && (forall i :: 0 <= i < |hs| ==> r.value.lines[i] == (hs[i], Reachable(pl, hs[i])))
      && r.value.executed == executed + ConnectLog(pl, hs)
      && r.value.entries == CacheOf(pl, hs)
  {
    var found := Hosts(knownHosts);
    if found.Failure? {
      return Failure(found.error);
    }
    var pl := Plan(opts, entries, oldKey, [], env);
    var report := ProbeEach(pl, found.value, executed);
    return Success(report);
  }

  /** The effects of `replace_on_each_server`: the cache, the executed
      commands, and the hosts `replace_key` was called on. */
  datatype Outcome = Outcome(entries: map<string, bool>, executed: seq<string>, replaced: seq<string>)

  /** The loop of `replace_on_each_server` over a host list. */
  method ReplaceEach(pl: Plan, hs: seq<string>, executed: seq<string>) returns (r: Outcome)
    requires HostList(hs)
    ensures r.replaced == ReachableHosts(pl, hs)
    ensures r.executed == executed + ReplaceLog(pl, hs)
    ensures r.entries == CacheOf(pl, hs)
  {
    var proxy := NewProxy(pl.opts);
    var cur, log, replaced := pl.entries, executed, [];
    var i := 0;
    while i < |hs|
      invariant i <= |hs|
      invariant ProxyOf(pl, proxy)
      invariant cur == CacheOf(pl, hs[..i])
      invariant log == executed + ReplaceLog(pl, hs[..i])
      invariant replaced == ReachableHosts(pl, hs[..i])
    {
      SweepSnoc(pl, hs, i);
      AppendAssoc(executed, ReplaceLog(pl, hs[..i]), HostLog(pl, hs[i]));
      var ok;
      proxy, cur, log, ok := VisitHost(pl, hs, i, proxy, log);
      if ok {
        replaced := replaced + [hs[i]];
      }
      i := i + 1;
    }
    assert hs[..i] == hs;
    return Outcome(cur, log, replaced);
  }

  /** `replace_on_each_server`: for each known host in turn, probes it with
      the old key and, only when that succeeds, swaps the key on it; a
      known_hosts line without a host stops it before any probe. */
  method ReplaceOnEachServer(opts: Options, knownHosts: string, oldKey: string, newKey: string, env: Env,
                             entries: map<string, bool>, executed: seq<string>)
    returns (r: Result<Outcome, HostError>)
    ensures Hosts(knownHosts).Failure? ==> r == Failure(Hosts(knownHosts).error)
    ensures Hosts(knownHosts).Success? ==> r.Success?
    ensures r.Success? ==>
      var hs := Hosts(knownHosts).value;
      var pl := Plan(opts, entries, oldKey, newKey, env);
      && r.value.replaced == ReachableHosts(pl, hs)
      && r.value.executed == executed + ReplaceLog(pl, hs)
      && r.value.entries == CacheOf(pl, hs)
  {
    var found := Hosts(knownHosts);
    if found.Failure? {
      return Failure(found.error);
    }
    var pl := Plan(opts, entries, oldKey, newKey, env);
    var outcome := ReplaceEach(pl, found.value, executed);
    return Success(outcome);
  }
}

/** `Cache#cache` (replace-ssh-key.rb:9-18): memoisation of a computed
    boolean under a string key. The YAML file the script keeps it in is the
    map threaded through the calls; the block's effects are a state `S` it
    transforms, so "the block did not run" reads "the state is untouched". */
module Cache {

  /** Default name of the file the entries are persisted in. */
  const DefaultFile := "_replace_ssh_key.cache"

  /** The outcome of one lookup: the entries afterwards, the value returned
      and the state after the block ran (or did not). */
  datatype Lookup<S> = Lookup(entries: map<string, bool>, value: bool, state: S)

  /** Returns the stored value for `key`; on a miss runs `block` once and
      stores whatever it yields, `false` included. */
  function Cache<S>(entries: map<string, bool>, key: string, state: S, block: S -> (bool, S)): (r: Lookup<S>)
    ensures key in entries ==> r.value == entries[key] && r.entries == entries && r.state == state
    ensures key !in entries ==> r.value == block(state).0 && r.state == block(state).1
    ensures r.entries.Keys == entries.Keys + {key}
    ensures key in r.entries && r.entries[key] == r.value
    ensures forall k :: k in entries ==> k in r.entries && r.entries[k] == entries[k]
  {
    if key in entries then Lookup(entries, entries[key], state)
    else
      var (v, s) := block(state);
      Lookup(entries[key := v], v, s)
  }

  /** Asking twice is asking once: the second lookup of a key returns what
      the first did, runs no block (whatever block it is given) and changes
      nothing. */
  lemma CacheTwice<S>(entries: map<string, bool>, key: string, s0: S, s1: S,
                      first: S -> (bool, S), second: S -> (bool, S))
    ensures var r1 := Cache(entries, key, s0, first);
            var r2 := Cache(r1.entries, key, s1, second);
            r2 == Lookup(r1.entries, r1.value, s1)
  {
  }

  /** Lookups of different keys do not disturb each other: a lookup of `other`
      leaves the entry of `key` as it found it. */
  lemma CacheOtherKey<S>(entries: map<string, bool>, key: string, other: string, s: S, block: S -> (bool, S))
    requires key != other
    ensures var r := Cache(entries, other, s, block);
            (key in r.entries <==> key in entries)
            && (key in entries ==> r.entries[key] == entries[key])
  {
  }
}

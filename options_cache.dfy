/**
 * `IOptionsMonitorCache<OpenIdConnectOptions>`: the process-wide store of
 * named options, of which the controller uses `TryAdd` only.
 */
module OptionsCache {
  import opened OidcOptions

  /** `TryAdd` on the stored map: insert when the name is absent, otherwise keep what is there. */
  function AddIfAbsent(entries: map<string, Options>, name: string, options: Options): (r: map<string, Options>)
    ensures r.Keys == entries.Keys + {name}
    ensures r[name] == if name in entries then entries[name] else options
    ensures forall other :: other in entries && other != name ==> r[other] == entries[other]
  {
    if name in entries then entries else entries[name := options]
  }

  /** The stored map after a run of `TryAdd(name, …)` calls, in order. */
  function AddAllIfAbsent(entries: map<string, Options>, name: string, runs: seq<Options>): map<string, Options>
    decreases |runs|
  {
    if runs == [] then entries
    else AddAllIfAbsent(AddIfAbsent(entries, name, runs[0]), name, runs[1..])
  }

  /** Once a name is stored, no later `TryAdd` under it changes anything. */
  lemma {:induction false} StoredEntryIsKept(entries: map<string, Options>, name: string, runs: seq<Options>)
    requires name in entries
    ensures AddAllIfAbsent(entries, name, runs) == entries
    decreases |runs|
  {
    if runs != [] {
      StoredEntryIsKept(AddIfAbsent(entries, name, runs[0]), name, runs[1..]);
    }
  }

  /**
   * The first registration under an absent name wins over every later one:
   * the store is add-if-absent, not last-write-wins.
   */
  lemma FirstRegistrationWins(entries: map<string, Options>, name: string, runs: seq<Options>)
    requires name !in entries && runs != []
    ensures var r := AddAllIfAbsent(entries, name, runs);
            r == entries[name := runs[0]] && r[name] == runs[0]
  {
    StoredEntryIsKept(AddIfAbsent(entries, name, runs[0]), name, runs[1..]);
  }

  /** Two registrations with different options leave the first one stored. */
  lemma SecondRegistrationIgnored(name: string, a: Options, b: Options)
    requires a != b
    ensures AddIfAbsent(AddIfAbsent(map[], name, a), name, b)[name] == a
    ensures AddIfAbsent(AddIfAbsent(map[], name, a), name, b)[name] != b
  {
  }

  class Cache {
    var entries: map<string, Options>

    constructor (initial: map<string, Options>)
      ensures entries == initial
    {
      entries := initial;
    }

    /** Adds `options` under `name` unless the name is taken; says whether it added. */
    method TryAdd(name: string, options: Options) returns (added: bool)
      modifies this
      ensures added <==> name !in old(entries)
      ensures entries == AddIfAbsent(old(entries), name, options)
    {
      if name in entries {
        added := false;
      } else {
        entries := entries[name := options];
        added := true;
      }
    }
  }
}

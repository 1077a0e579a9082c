/** The names the services use in Redis. */
module Keys {
  import Store
  import TriageSystem
  import RateLimiting

  /** The statistics, the triage entries, the two counters, the recent list and the rate limits never share a key,
      whatever is hashed and whoever is limited, so that each part can be seen as having the server to itself. */
  lemma KeysNeverMeet(f: TriageSystem.Config, text: string, location: string, identity: string, window: nat)
    ensures var entry, limit := TriageSystem.KeyFor(f, text, location), RateLimiting.CounterKey(identity, window);
      var keys := [Store.STATS_KEY, TriageSystem.HITS_KEY, TriageSystem.MISSES_KEY, TriageSystem.RECENT_KEY, entry,
                   limit];
      forall i, j | 0 <= i < j < |keys| :: keys[i] != keys[j]
  {
    var entry, limit := TriageSystem.KeyFor(f, text, location), RateLimiting.CounterKey(identity, window);
    assert entry[0] == 't' && entry[7] == 'v' && limit[0] == 'r' && Store.STATS_KEY[0] == 's';
    assert TriageSystem.HITS_KEY[0] == 't' && TriageSystem.HITS_KEY[7] == 'c' && TriageSystem.HITS_KEY[13] == 'h';
    assert TriageSystem.MISSES_KEY[0] == 't' && TriageSystem.MISSES_KEY[7] == 'c' && TriageSystem.MISSES_KEY[13] == 'm';
    assert TriageSystem.RECENT_KEY[0] == 't' && TriageSystem.RECENT_KEY[7] == 'r';
  }
}

/** The in-memory store of OAuth state tokens: single-use, bound to a provider,
    expiring, swept in the background. Each locked section is one step. */
module StateStores {
  import opened Values

  datatype StateEntry = StateEntry(provider: string, redirectURI: string, expiresAt: Time)

  type States = map<string, StateEntry>

  const DEFAULT_STATE_TTL: Time := 5 * 60 * SECOND

  /** time.Now().After(expiresAt): good up to and including the instant itself. */
  predicate Expired(e: StateEntry, now: Time) {
    now > e.expiresAt
  }

  /** What a presentation is answered with: the stored redirect, or a refusal. */
  function Verdict(m: States, state: string, provider: string, now: Time): Option<string> {
    if state in m && !Expired(m[state], now) && m[state].provider == provider then Some(m[state].redirectURI) else None
  }

  function Swept(m: States, now: Time): States {
    map k | k in m && !Expired(m[k], now) :: m[k]
  }

  class StateStore {
    var states: map<string, StateEntry>
    const ttl: Time

    constructor ()
      ensures states == map[] && ttl == 300_000_000_000 // five minutes
    {
      states := map[];
      ttl := DEFAULT_STATE_TTL;
    }

    method Generate(state: string, provider: string, now: Time)
      modifies this
      ensures states == old(states)[state := StateEntry(provider, "", now + ttl)]
    {
      GenerateWithRedirect(state, provider, "", now);
    }

    /** `state` is the random token just drawn. */
    method GenerateWithRedirect(state: string, provider: string, redirectURI: string, now: Time)
      modifies this
      ensures states == old(states)[state := StateEntry(provider, redirectURI, now + ttl)]
    {
      states := states[state := StateEntry(provider, redirectURI, now + ttl)];
    }

    method Validate(state: string, provider: string, now: Time) returns (ok: bool)
      modifies this
      ensures ok == Verdict(old(states), state, provider, now).Some?
      ensures states == old(states) - {state}
    {
      var redirectURI;
      redirectURI, ok := ValidateAndConsume(state, provider, now);
    }

    /** Whatever the answer, the token is gone afterwards. */
    method ValidateAndConsume(state: string, provider: string, now: Time) returns (redirectURI: string, ok: bool)
      modifies this
      ensures ok == Verdict(old(states), state, provider, now).Some?
      ensures redirectURI == if ok then Verdict(old(states), state, provider, now).value else ""
      ensures states == old(states) - {state}
    {
      if state !in states {
        return "", false;
      }
      var entry := states[state];
      states := states - {state};
      if now > entry.expiresAt {
        return "", false;
      }
      if entry.provider != provider {
        return "", false;
      }
      return entry.redirectURI, true;
    }

    /** One tick of the background sweep: it removes exactly the expired entries. */
    method Cleanup(now: Time)
      modifies this
      ensures states == Swept(old(states), now)
    {
      var keys := states.Keys;
      while keys != {}
        invariant keys <= old(states).Keys
        invariant forall k :: k in states <==> k in old(states) && (k in keys || !Expired(old(states)[k], now))
        invariant forall k :: k in states ==> states[k] == old(states)[k]
        decreases keys
      {
        var key :| key in keys;
        if now > states[key].expiresAt {
          states := states - {key};
        }
        keys := keys - {key};
      }
    }
  }
}

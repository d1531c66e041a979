/** Bearer tokens, kept by hash: which are registered, which are revoked, and which were
    registered by name (configuration, environment or `AddToken`) and so may come back. */
module Auth {

  /** 24 hours, in nanoseconds. */
  const RETENTION: int := 24 * 3600 * 1_000_000_000

  datatype Tokens = Tokens(live: set<string>, revoked: map<string, int>, named: set<string>)

  datatype Op =
    | Add(hash: string)
    | Generate(hash: string)
    | Revoke(hash: string, now: int)
    | Purge(now: int)

  /** The revocations a purge forgets: old, not of a named token, not of a registered one. */
  predicate Forgets(s: Tokens, hash: string, now: int)
    requires hash in s.revoked
  {
    hash !in s.named && hash !in s.live && now - s.revoked[hash] > RETENTION
  }

  function Apply(s: Tokens, op: Op): Tokens {
    match op
    case Add(h) => s.(live := s.live + {h}, named := s.named + {h})
    case Generate(h) => s.(live := s.live + {h})
    case Revoke(h, now) => s.(live := s.live - {h}, revoked := s.revoked[h := now])
    case Purge(now) => s.(revoked := map h | h in s.revoked && !Forgets(s, h, now) :: s.revoked[h])
  }

  function Run(s: Tokens, ops: seq<Op>): Tokens {
    if ops == [] then s else Apply(Run(s, ops[..|ops| - 1]), ops[|ops| - 1])
  }

  /** `lookupValid` finds the token. */
  predicate Accepts(s: Tokens, hash: string) {
    hash in s.live && hash !in s.revoked
  }

  lemma {:induction false} NamedStaysRevoked(s: Tokens, ops: seq<Op>, hash: string)
    requires hash in s.named && hash in s.revoked
    ensures hash in Run(s, ops).named && hash in Run(s, ops).revoked
  {
    if ops != [] {
      NamedStaysRevoked(s, ops[..|ops| - 1], hash);
    }
  }

  /** A revoked token is refused after every further history exactly when it was registered by
      name: otherwise a purge may forget the revocation, and adding the token revives it. */
  lemma RevokedForever(s: Tokens, hash: string, now: int)
    ensures (forall ops :: !Accepts(Run(Apply(s, Revoke(hash, now)), ops), hash)) <==> hash in s.named
  {
    var r := Apply(s, Revoke(hash, now));
    if hash in s.named {
      forall ops
        ensures !Accepts(Run(r, ops), hash)
      {
        NamedStaysRevoked(r, ops, hash);
      }
    } else {
      var revive := [Purge(now + RETENTION + 1), Add(hash)];
      assert revive[..1] == [Purge(now + RETENTION + 1)] && revive[..1][..0] == [];
      assert Run(r, revive[..1][..0]) == r;
      assert Run(r, revive[..1]) == Apply(r, Purge(now + RETENTION + 1));
      assert Run(r, revive) == Apply(Apply(r, Purge(now + RETENTION + 1)), Add(hash));
      assert Accepts(Run(r, revive), hash);
    }
  }

  class Manager {
    var tokens: set<string>
    var revoked: map<string, int>
    var named: set<string>

    ghost function Model(): Tokens
      reads this
    {
      Tokens(tokens, revoked, named)
    }

    /** With the tokens of the configuration and the environment. */
    constructor (configured: set<string>)
      ensures Model() == Tokens(configured, map[], configured)
    {
      tokens, revoked, named := configured, map[], configured;
    }

    method AddToken(hash: string)
      modifies `tokens, `named
      ensures Model() == Apply(old(Model()), Add(hash))
    {
      named := named + {hash};
      tokens := tokens + {hash};
    }

    method RevokeToken(hash: string, now: int)
      modifies `tokens, `revoked
      ensures Model() == Apply(old(Model()), Revoke(hash, now))
    {
      revoked := revoked[hash := now];
      if hash in tokens {
        tokens := tokens - {hash};
      }
    }

    /** The loop of `purgeExpiredRevokedTokens`, which visits the entries in any order. */
    method PurgeExpired(now: int)
      modifies `revoked
      ensures Model() == Apply(old(Model()), Purge(now))
    {
      ghost var s := Model();
      var rest := revoked.Keys;
      while rest != {}
        invariant rest <= s.revoked.Keys && revoked.Keys <= s.revoked.Keys
        invariant forall h :: h in s.revoked && h in rest ==> h in revoked
        invariant forall h :: h in s.revoked && h !in rest ==> (h in revoked <==> !Forgets(s, h, now))
        invariant forall h :: h in revoked ==> revoked[h] == s.revoked[h]
        decreases rest
      {
        var h :| h in rest;
        rest := rest - {h};
        if h !in named && h !in tokens && now - revoked[h] > RETENTION {
          revoked := revoked - {h};
        }
      }
    }

    /** `lookupValid`: a scan of the registered hashes, then the revocation test. */
    method LookupValid(hash: string) returns (ok: bool)
      ensures ok == Accepts(Model(), hash)
    {
      var rest, matched := tokens, false;
      while rest != {} && !matched
        invariant rest <= tokens && (matched ==> hash in tokens)
        invariant !matched ==> hash !in tokens - rest
        decreases rest, !matched
      {
        var stored :| stored in rest;
        rest := rest - {stored};
        matched := stored == hash;
      }
      ok := matched && hash !in revoked;
    }
  }
}

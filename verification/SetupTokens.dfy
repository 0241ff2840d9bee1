/** The one-time tokens of the local setup page (`internal/web/pages_setup.go`): a bounded table from
    token hash to expiry. */
module SetupTokens {
  import opened Timestamps

  type Table = map<string, Instant>

  const MAX_TOKENS := 64
  const TTL: int := 10 * 60 * 1_000_000_000

  /** The entries that have not expired. */
  function Alive(m: Table, now: Instant): Table {
    map h | h in m && now < m[h] :: m[h]
  }

  /** One call. Issuing into a full table evicts `victim` first. */
  datatype Call =
    | Issue(hash: string, now: Instant, victim: string)
    | Redeem(hash: string, now: Instant)

  predicate Full(m: Table, now: Instant) {
    |Alive(m, now)| >= MAX_TOKENS
  }

  /** The victim of an eviction is an entry that no other entry expires before. */
  predicate Legal(m: Table, c: Call) {
    c.Issue? && Full(m, c.now) ==>
      c.victim in Alive(m, c.now) && forall h :: h in Alive(m, c.now) ==> m[c.victim] <= m[h]
  }

  /** The table after a call, and whether a redemption succeeded. */
  function Step(m: Table, c: Call): (Table, bool) {
    var live := Alive(m, c.now);
    match c
    case Issue(hash, now, victim) =>
      ((if Full(m, now) then live - {victim} else live)[hash := now + TTL], false)
    case Redeem(hash, now) =>
      (live - {hash}, hash in live)
  }

  /** Whenever the table is full there is an entry to evict: one that no other expires before. */
  lemma VictimExists(m: Table, hash: string, now: Instant) returns (victim: string)
    ensures Legal(m, Issue(hash, now, victim))
    ensures Full(m, now) ==> victim in m && forall h :: h in m && now < m[h] ==> m[victim] <= m[h]
  {
    var live := Alive(m, now);
    victim := "";
    if live.Keys != {} {
      victim := Earliest(live, live.Keys);
    } else {
      assert |live| == 0;
    }
  }

  lemma {:induction false} Earliest(m: Table, keys: set<string>) returns (first: string)
    requires keys != {} && keys <= m.Keys
    ensures first in keys && forall h :: h in keys ==> m[first] <= m[h]
    decreases |keys|
  {
    first :| first in keys;
    var rest := keys - {first};
    assert forall h :: h in keys ==> h in rest || h == first;
    if rest != {} {
      var other := Earliest(m, rest);
      if m[other] < m[first] {
        first := other;
      }
    }
  }

  // ----- The table in place -----

  class Tracker {
    var tokens: Table
    const hash: string -> string

    constructor (hash: string -> string)
      ensures tokens == map[] && this.hash == hash
    {
      this.tokens, this.hash := map[], hash;
    }

    method RemoveExpired(now: Instant)
      modifies this
      ensures tokens == Alive(old(tokens), now)
    {
      ghost var before := tokens;
      var rest := tokens.Keys;
      while rest != {}
        invariant rest <= before.Keys
        invariant tokens == map h | h in before && (h in rest || now < before[h]) :: before[h]
        decreases |rest|
      {
        var h :| h in rest;
        if !(now < tokens[h]) {
          tokens := tokens - {h};
        }
        rest := rest - {h};
      }
    }

    /** The zero time marks "nothing seen yet", so the scan finds a minimum when no expiry is zero. */
    method Oldest() returns (oldest: string)
      requires tokens != map[]
      ensures oldest in tokens
      ensures ZERO_TIME !in tokens.Values ==> forall h :: h in tokens ==> tokens[oldest] <= tokens[h]
    {
      oldest :| oldest in tokens;
      var oldestExpiry := ZERO_TIME;
      var rest := tokens.Keys;
      while rest != {}
        invariant rest <= tokens.Keys && oldest in tokens
        invariant oldestExpiry == ZERO_TIME || oldestExpiry == tokens[oldest]
        invariant ZERO_TIME !in tokens.Values && rest != tokens.Keys ==> oldestExpiry != ZERO_TIME
        invariant ZERO_TIME !in tokens.Values ==>
          forall h :: h in tokens && h !in rest ==> tokens[oldest] <= tokens[h]
        decreases |rest|
      {
        var candidate :| candidate in rest;
        var expiry := tokens[candidate];
        assert expiry in tokens.Values;
        if oldestExpiry == ZERO_TIME || expiry < oldestExpiry {
          oldest, oldestExpiry := candidate, expiry;
        }
        rest := rest - {candidate};
      }
    }

    method Create(token: string, now: Instant) returns (ghost victim: string)
      modifies this
      ensures tokens == Step(old(tokens), Issue(hash(token), now, victim)).0
      ensures now >= ZERO_TIME ==> Legal(old(tokens), Issue(hash(token), now, victim))
    {
      var h := hash(token);
      RemoveExpired(now);
      victim := "";
      if |tokens| >= MAX_TOKENS {
        var oldest := Oldest();
        victim := oldest;
        tokens := tokens - {oldest};
      }
      tokens := tokens[h := now + TTL];
    }

    method Consume(token: string, now: Instant) returns (ok: bool)
      modifies this
      ensures (tokens, ok) == Step(old(tokens), Redeem(hash(token), now))
    {
      var h := hash(token);
      RemoveExpired(now);
      if h !in tokens {
        assert tokens - {h} == tokens;
        return false;
      }
      tokens := tokens - {h};
      return true;
    }
  }

  // ----- Runs -----

  function After(m: Table, cs: seq<Call>): Table
    decreases |cs|
  {
    if cs == [] then m else Step(After(m, cs[..|cs| - 1]), cs[|cs| - 1]).0
  }

  ghost predicate AllLegal(m: Table, cs: seq<Call>) {
    forall i :: 0 <= i < |cs| ==> Legal(After(m, cs[..i]), cs[i])
  }

  /** Whether the call at i is a redemption of the hash that succeeds. */
  predicate Redeemed(m: Table, cs: seq<Call>, i: nat, hash: string)
    requires i < |cs|
  {
    cs[i].Redeem? && cs[i].hash == hash && Step(After(m, cs[..i]), cs[i]).1
  }

  /** Whether the call at i takes a hash, alive until then, out of the table to make room. */
  predicate Evicted(m: Table, cs: seq<Call>, i: nat, hash: string)
    requires i < |cs|
  {
    cs[i].Issue? && Full(After(m, cs[..i]), cs[i].now) && cs[i].victim == hash
  }

  function Redemptions(m: Table, cs: seq<Call>, hash: string): nat
    decreases |cs|
  {
    if cs == [] then 0
    else Redemptions(m, cs[..|cs| - 1], hash) + if Redeemed(m, cs, |cs| - 1, hash) then 1 else 0
  }

  function Issues(cs: seq<Call>, hash: string): nat
    decreases |cs|
  {
    if cs == [] then 0
    else Issues(cs[..|cs| - 1], hash) + if cs[|cs| - 1].Issue? && cs[|cs| - 1].hash == hash then 1 else 0
  }

  lemma StepBounded(m: Table, c: Call)
    requires |m| <= MAX_TOKENS && Legal(m, c)
    ensures |Step(m, c).0| <= MAX_TOKENS
  {
    hide Alive;
    var live := Alive(m, c.now);
    AliveSmaller(m, c.now);
    match c
    case Issue(hash, now, victim) =>
      RemoveSize(live, victim);
      InsertSize(if Full(m, now) then live - {victim} else live, hash, now + TTL);
    case Redeem(hash, now) =>
      RemoveSize(live, hash);
  }

  lemma RemoveSize(m: Table, hash: string)
    ensures |m - {hash}| == if hash in m then |m| - 1 else |m|
  {
    assert (m - {hash}).Keys == m.Keys - {hash};
  }

  lemma InsertSize(m: Table, hash: string, expiry: Instant)
    ensures |m[hash := expiry]| <= |m| + 1
  {
    assert m[hash := expiry].Keys == m.Keys + {hash};
  }

  lemma AliveSmaller(m: Table, now: Instant)
    ensures |Alive(m, now)| <= |m|
  {
    SubsetSize(Alive(m, now).Keys, m.Keys);
  }

  lemma {:induction false} SubsetSize(a: set<string>, b: set<string>)
    requires a <= b
    ensures |a| <= |b|
    decreases a
  {
    if x :| x in a {
      SubsetSize(a - {x}, b - {x});
    }
  }

  /** The table never holds more than its limit. */
  lemma {:induction false} Bounded(m: Table, cs: seq<Call>)
    requires |m| <= MAX_TOKENS && AllLegal(m, cs)
    ensures |After(m, cs)| <= MAX_TOKENS
    decreases |cs|
  {
    if cs != [] {
      var before := cs[..|cs| - 1];
      forall i | 0 <= i < |before| ensures Legal(After(m, before[..i]), before[i]) {
        assert before[..i] == cs[..i];
      }
      Bounded(m, before);
      StepBounded(After(m, before), cs[|cs| - 1]);
    }
  }

  /** A token is redeemed at most as often as it was issued: with fresh tokens, at most once. */
  lemma {:induction false} RedeemedAtMostIssued(cs: seq<Call>, hash: string)
    ensures Redemptions(map[], cs, hash) + (if hash in After(map[], cs) then 1 else 0) <= Issues(cs, hash)
    decreases |cs|
  {
    if cs != [] {
      var before := cs[..|cs| - 1];
      RedeemedAtMostIssued(before, hash);
    }
  }

  /** The token issued at i expires at `expiry`, and nothing has ended its life: it was not issued anew,
      redeemed or evicted, and no call since came at or after its expiry. */
  ghost predicate Survives(m: Table, cs: seq<Call>, i: nat, hash: string, expiry: Instant) {
    && i < |cs| && cs[i].Issue? && cs[i].hash == hash && expiry == cs[i].now + TTL
    && forall k :: i < k < |cs| ==> Harmless(m, cs, k, hash, expiry)
  }

  predicate Harmless(m: Table, cs: seq<Call>, k: nat, hash: string, expiry: Instant)
    requires k < |cs|
  {
    cs[k].now < expiry && !Redeemed(m, cs, k, hash) && !Evicted(m, cs, k, hash) && !(cs[k].Issue? && cs[k].hash == hash)
  }

  /** Exactly what the table holds after any sequence of calls: the tokens whose life nothing has ended,
      each with the expiry its issue gave it. */
  lemma {:induction false} HoldsExactly(cs: seq<Call>, hash: string, expiry: Instant)
    ensures hash in After(map[], cs) && After(map[], cs)[hash] == expiry <==>
            exists i :: Survives(map[], cs, i, hash, expiry)
    decreases |cs|
  {
    if cs == [] {
      assert forall i :: !Survives(map[], cs, i, hash, expiry);
    } else {
      var n := |cs| - 1;
      var before := cs[..n];
      HoldsExactly(before, hash, expiry);
      HoldsLast(cs, hash, expiry);
      var ends := !Harmless(map[], cs, n, hash, expiry);
      forall i: nat | i < n
        ensures Survives(map[], cs, i, hash, expiry) <==> Survives(map[], before, i, hash, expiry) && !ends
      {
        SurvivesLast(cs, i, hash, expiry);
      }
      if cs[n].Issue? && cs[n].hash == hash && expiry == cs[n].now + TTL {
        assert Survives(map[], cs, n, hash, expiry);
      }
      if i :| Survives(map[], before, i, hash, expiry) {
        assert Survives(map[], cs, i, hash, expiry) <==> Harmless(map[], cs, n, hash, expiry);
      }
    }
  }

  lemma SurvivesLast(cs: seq<Call>, i: nat, hash: string, expiry: Instant)
    requires i < |cs| - 1
    ensures var n := |cs| - 1;
            Survives(map[], cs, i, hash, expiry)
            <==> Survives(map[], cs[..n], i, hash, expiry) && Harmless(map[], cs, n, hash, expiry)
  {
    hide After, Step;
    var n := |cs| - 1;
    var before := cs[..n];
    forall k | 0 <= k < n ensures Harmless(map[], cs, k, hash, expiry) == Harmless(map[], before, k, hash, expiry) {
      assert cs[..k] == before[..k];
    }
  }

  lemma HoldsLast(cs: seq<Call>, hash: string, expiry: Instant)
    requires cs != []
    ensures var n := |cs| - 1;
            var m := After(map[], cs[..n]);
            hash in After(map[], cs) && After(map[], cs)[hash] == expiry <==>
              if cs[n].Issue? && cs[n].hash == hash then expiry == cs[n].now + TTL
              else hash in m && m[hash] == expiry && Harmless(map[], cs, n, hash, expiry)
  {
  }

  /** A redemption succeeds exactly for a token whose life nothing has ended and strictly before its
      expiry. */
  lemma RedeemsExactly(cs: seq<Call>, hash: string, now: Instant)
    ensures Step(After(map[], cs), Redeem(hash, now)).1 <==>
            exists i, expiry :: Survives(map[], cs, i, hash, expiry) && now < expiry
  {
    hide After;
    var m := After(map[], cs);
    if hash in m {
      HoldsExactly(cs, hash, m[hash]);
    }
    forall i, expiry | Survives(map[], cs, i, hash, expiry) ensures hash in m && m[hash] == expiry {
      HoldsExactly(cs, hash, expiry);
    }
  }
}

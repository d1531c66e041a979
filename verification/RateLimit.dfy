/** The token bucket rate limiter.  Clock readings are the `at` of each event, in seconds; token
    arithmetic is over the reals. */
module RateLimits {
  import opened Sets

  const IDLE_LIMIT := 300.0
  const MAX_KEYS := 100000
  const DEFAULT_RATE := 100

  /** `gain` is what the refill adds in a span of time. */
  datatype Config = Config(gain: real -> real, burst: real, maxKeys: nat) {
    ghost predicate Valid() {
      1.0 <= burst && (forall a, b :: Adds(gain, a, b)) && forall a :: 0.0 <= a ==> 0.0 <= gain(a)
    }
  }

  ghost predicate Adds(gain: real -> real, a: real, b: real) {
    gain(a + b) == gain(a) + gain(b)
  }

  /** The configuration of a limiter that refills `rate` tokens a second. */
  function Steady(rate: nat, burst: nat, maxKeys: nat): (c: Config)
    requires 0 < rate && 0 < burst
    ensures c.Valid()
  {
    var gain := (elapsed: real) => rate as real * elapsed;
    assert forall a, b :: Adds(gain, a, b);
    Config(gain, burst as real, maxKeys)
  }

  datatype Bucket = Bucket(tokens: real, last: real)

  type State = map<string, Bucket>

  lemma GainOver(c: Config, a: real, b: real, d: real)
    requires c.Valid()
    ensures c.gain(b - a) + c.gain(d - b) == c.gain(d - a)
  {
    assert Adds(c.gain, b - a, d - b);
    assert (b - a) + (d - b) == d - a;
  }

  lemma NoGain(c: Config)
    requires c.Valid()
    ensures c.gain(0.0) == 0.0
  {
    assert Adds(c.gain, 0.0, 0.0);
  }

  function Capped(c: Config, tokens: real): real {
    if tokens > c.burst then c.burst else tokens
  }

  /** The tokens the key has at time `t`; a key without a bucket has a full one. */
  function Available(c: Config, s: State, key: string, t: real): real {
    if key in s then Capped(c, s[key].tokens + c.gain(t - s[key].last)) else c.burst
  }

  /** One event: a request, with the key that eviction takes out should the table be full ("" for
      none), or the periodic cleanup. */
  datatype Event = Request(key: string, at: real, victim: string) | Cleanup(at: real)

  /** The table a new key is entered into. */
  function Room(c: Config, s: State, e: Event): State
    requires e.Request?
  {
    if e.key !in s && |s| >= c.maxKeys && e.victim != "" then s - {e.victim} else s
  }

  predicate Allows(c: Config, s: State, e: Event) {
    e.Request? && Available(c, s, e.key, e.at) >= 1.0
  }

  function Step(c: Config, s: State, e: Event): State {
    match e
    case Request(key, at, _) =>
      var left := Available(c, s, key, at) - (if Allows(c, s, e) then 1.0 else 0.0);
      Room(c, s, e)[key := Bucket(left, at)]
    case Cleanup(at) => map k | k in s && at - s[k].last <= IDLE_LIMIT :: s[k]
  }

  function RunOn(c: Config, s: State, events: seq<Event>): State {
    if events == [] then s else Step(c, RunOn(c, s, events[..|events| - 1]), events[|events| - 1])
  }

  function Run(c: Config, events: seq<Event>): State {
    RunOn(c, map[], events)
  }

  ghost predicate Ordered(events: seq<Event>) {
    forall i, j :: 0 <= i <= j < |events| ==> events[i].at <= events[j].at
  }

  /** Whether step `i` admits a request of the key. */
  predicate Admits(c: Config, events: seq<Event>, key: string, i: nat)
    requires i < |events|
  {
    events[i].Request? && events[i].key == key && Allows(c, Run(c, events[..i]), events[i])
  }

  /** Whether step `i` takes the key's bucket away. */
  predicate Drops(c: Config, events: seq<Event>, key: string, i: nat)
    requires i < |events|
  {
    key in Run(c, events[..i]) && key !in Run(c, events[..i + 1])
  }

  // ----- the table

  ghost predicate Inv(c: Config, s: State, now: real) {
    forall k :: k in s ==> 0.0 <= s[k].tokens <= c.burst && s[k].last <= now
  }

  lemma AvailableBounds(c: Config, s: State, key: string, t: real, now: real)
    requires c.Valid() && Inv(c, s, now) && now <= t
    ensures 0.0 <= Available(c, s, key, t) <= c.burst
  {
  }

  lemma StepInv(c: Config, s: State, now: real, e: Event)
    requires c.Valid() && Inv(c, s, now) && now <= e.at
    ensures Inv(c, Step(c, s, e), e.at)
  {
    if e.Request? {
      AvailableBounds(c, s, e.key, e.at, now);
    }
  }

  /** A step takes one token from the key it admits, fills up a key it drops, and leaves every
      other key as it was. */
  lemma StepAvailable(c: Config, s: State, e: Event, key: string)
    requires c.Valid() && Inv(c, s, e.at)
    ensures Available(c, Step(c, s, e), key, e.at) ==
      if e.Request? && e.key == key && Allows(c, s, e) then Available(c, s, key, e.at) - 1.0
      else if key in s && key !in Step(c, s, e) then c.burst
      else Available(c, s, key, e.at)
  {
    if e.Request? && e.key == key {
      AvailableBounds(c, s, key, e.at, e.at);
      AskedKey(c, s, e);
    } else {
      var s' := Step(c, s, e);
      assert key in s' ==> key in s && s'[key] == s[key];
    }
  }

  lemma AskedKey(c: Config, s: State, e: Event)
    requires c.Valid() && e.Request? && Available(c, s, e.key, e.at) <= c.burst
    ensures e.key in Step(c, s, e)
    ensures Available(c, Step(c, s, e), e.key, e.at) ==
      Available(c, s, e.key, e.at) - if Allows(c, s, e) then 1.0 else 0.0
  {
    var left := Available(c, s, e.key, e.at) - (if Allows(c, s, e) then 1.0 else 0.0);
    assert Step(c, s, e)[e.key] == Bucket(left, e.at);
    NoGain(c);
    assert e.at - e.at == 0.0;
  }

  lemma {:induction false} RunInv(c: Config, events: seq<Event>, now: real)
    requires c.Valid() && Ordered(events) && (events != [] ==> events[|events| - 1].at <= now)
    ensures Inv(c, Run(c, events), now)
  {
    if events != [] {
      var before := events[..|events| - 1];
      RunInv(c, before, events[|events| - 1].at);
      StepInv(c, Run(c, before), events[|events| - 1].at, events[|events| - 1]);
    }
  }

  /** What step `j` does to the key's tokens at the time of that step. */
  lemma StepAt(c: Config, events: seq<Event>, key: string, j: nat)
    requires c.Valid() && Ordered(events) && j < |events|
    ensures Inv(c, Run(c, events[..j]), events[j].at) && Inv(c, Run(c, events[..j + 1]), events[j].at)
    ensures !(Admits(c, events, key, j) && Drops(c, events, key, j))
    ensures Available(c, Run(c, events[..j + 1]), key, events[j].at) ==
      if Admits(c, events, key, j) then Available(c, Run(c, events[..j]), key, events[j].at) - 1.0
      else if Drops(c, events, key, j) then c.burst
      else Available(c, Run(c, events[..j]), key, events[j].at)
  {
    RunInv(c, events[..j], events[j].at);
    RunInv(c, events[..j + 1], events[j].at);
    assert events[..j + 1][..j] == events[..j];
    StepAvailable(c, Run(c, events[..j]), events[j], key);
  }

  // ----- one key's ledger

  /** What one step did to a key: the tokens before and after it, at its time. */
  datatype Entry = Entry(at: real, before: real, after: real, admits: bool, drops: bool)

  ghost function EntryAt(c: Config, events: seq<Event>, key: string, j: nat): Entry
    requires j < |events|
  {
    Entry(events[j].at, Available(c, Run(c, events[..j]), key, events[j].at),
          Available(c, Run(c, events[..j + 1]), key, events[j].at), Admits(c, events, key, j), Drops(c, events, key, j))
  }

  ghost function Ledger(c: Config, events: seq<Event>, key: string): (l: seq<Entry>)
    ensures |l| == |events|
    ensures forall j :: 0 <= j < |events| ==> l[j] == EntryAt(c, events, key, j)
  {
    seq(|events|, j requires 0 <= j < |events| => EntryAt(c, events, key, j))
  }

  /** An entry takes a token, fills the bucket, or leaves it. */
  ghost predicate Sound(c: Config, e: Entry) {
    && !(e.admits && e.drops) && 0.0 <= e.before <= c.burst && 0.0 <= e.after <= c.burst
    && e.after == if e.admits then e.before - 1.0 else if e.drops then c.burst else e.before
  }

  /** Between entries only time adds tokens. */
  ghost predicate Follows(c: Config, d: Entry, e: Entry) {
    d.at <= e.at && e.before == Capped(c, d.after + c.gain(e.at - d.at))
  }

  ghost predicate FollowsAt(c: Config, l: seq<Entry>, j: nat)
    requires j < |l|
  {
    j > 0 ==> Follows(c, l[j - 1], l[j])
  }

  /** A part of a ledger. */
  ghost predicate Stretch(c: Config, l: seq<Entry>) {
    (forall j :: 0 <= j < |l| ==> Sound(c, l[j])) && forall j: nat :: j < |l| ==> FollowsAt(c, l, j)
  }

  ghost predicate Conforms(c: Config, l: seq<Entry>) {
    Stretch(c, l) && (l != [] ==> l[0].before == c.burst)
  }

  lemma AvailableLater(c: Config, s: State, key: string, now: real, t: real)
    requires c.Valid() && now <= t && Inv(c, s, now)
    ensures Available(c, s, key, t) == Capped(c, Available(c, s, key, now) + c.gain(t - now))
  {
    if key in s {
      GainOver(c, s[key].last, now, t);
    }
  }

  lemma LedgerSound(c: Config, events: seq<Event>, key: string, j: nat)
    requires c.Valid() && Ordered(events) && j < |events|
    ensures Sound(c, EntryAt(c, events, key, j))
  {
    StepAt(c, events, key, j);
    AvailableBounds(c, Run(c, events[..j]), key, events[j].at, events[j].at);
    AvailableBounds(c, Run(c, events[..j + 1]), key, events[j].at, events[j].at);
  }

  lemma LedgerFollows(c: Config, events: seq<Event>, key: string, j: nat)
    requires c.Valid() && Ordered(events) && 0 < j < |events|
    ensures Follows(c, EntryAt(c, events, key, j - 1), EntryAt(c, events, key, j))
  {
    RunInv(c, events[..j], events[j - 1].at);
    AvailableLater(c, Run(c, events[..j]), key, events[j - 1].at, events[j].at);
  }

  lemma LedgerConforms(c: Config, events: seq<Event>, key: string)
    requires c.Valid() && Ordered(events)
    ensures Conforms(c, Ledger(c, events, key))
  {
    var l := Ledger(c, events, key);
    forall j | 0 <= j < |l| ensures Sound(c, l[j]) {
      LedgerSound(c, events, key, j);
    }
    forall j: nat | j < |l| ensures FollowsAt(c, l, j) {
      if j > 0 {
        LedgerFollows(c, events, key, j);
      }
    }
  }

  // ----- the throttle

  /** The number of admitted requests in a stretch. */
  ghost function Admitted(l: seq<Entry>): real {
    if l == [] then 0.0 else Admitted(l[..|l| - 1]) + if l[|l| - 1].admits then 1.0 else 0.0
  }

  /** The number of times the bucket was dropped in a stretch. */
  ghost function Dropped(l: seq<Entry>): nat {
    if l == [] then 0 else Dropped(l[..|l| - 1]) + if l[|l| - 1].drops then 1 else 0
  }

  ghost function Bursts(c: Config, n: nat): real {
    if n == 0 then 0.0 else Bursts(c, n - 1) + c.burst
  }

  lemma StretchPart(c: Config, l: seq<Entry>, i: nat, j: nat)
    requires Stretch(c, l) && i <= j <= |l|
    ensures Stretch(c, l[i..j])
  {
    forall k: nat | k < j - i ensures FollowsAt(c, l[i..j], k) {
      assert FollowsAt(c, l, i + k);
    }
  }

  /** Tokens are conserved: what a stretch admits was there at its start, came with time, or came
      with a dropped bucket. */
  lemma {:induction false} Conserved(c: Config, l: seq<Entry>)
    requires c.Valid() && Stretch(c, l) && l != []
    ensures var e := l[|l| - 1]; Admitted(l) + e.after <= l[0].before + c.gain(e.at - l[0].at) + Bursts(c, Dropped(l))
  {
    var n := |l| - 1;
    assert Sound(c, l[n]);
    if n == 0 {
      NoGain(c);
      assert Admitted(l[..0]) == 0.0 && Dropped(l[..0]) == 0;
    } else {
      StretchPart(c, l, 0, n);
      Conserved(c, l[..n]);
      assert FollowsAt(c, l, n);
      GainOver(c, l[0].at, l[n - 1].at, l[n].at);
    }
  }

  /** The part of the ledger admits at most one burst, plus one for every drop in it, plus the
      rate's share of its time. */
  ghost predicate Throttled(c: Config, l: seq<Entry>, i: nat, j: nat)
    requires i < j <= |l|
  {
    Admitted(l[i..j]) <= Bursts(c, 1 + Dropped(l[i..j])) + c.gain(l[j - 1].at - l[i].at)
  }

  lemma StretchBound(c: Config, l: seq<Entry>, i: nat, j: nat)
    requires c.Valid() && Conforms(c, l) && i < j <= |l|
    ensures Throttled(c, l, i, j)
  {
    assert Sound(c, l[i]) && Sound(c, l[j - 1]);
    StretchPart(c, l, i, j);
    Conserved(c, l[i..j]);
  }

  /** In any stretch of any history, a key gets at most one burst, plus one for every time its
      bucket was dropped, plus the rate's share of the time. */
  lemma ThrottleBound(c: Config, events: seq<Event>, key: string, i: nat, j: nat)
    requires c.Valid() && Ordered(events) && i < j <= |events|
    ensures Throttled(c, Ledger(c, events, key), i, j)
  {
    LedgerConforms(c, events, key);
    StretchBound(c, Ledger(c, events, key), i, j);
  }

  // ----- exactness

  /** Admitting one more request at `t` keeps the stretch within a burst plus the rate's share. */
  ghost predicate Affordable(c: Config, l: seq<Entry>, t: real)
    requires l != []
  {
    Admitted(l) + 1.0 <= c.burst + c.gain(t - l[0].at)
  }

  ghost function Later(c: Config, tokens: real, now: real, t: real): real {
    Capped(c, tokens + c.gain(t - now))
  }

  /** The tokens at `t` after the ledger. */
  ghost function Balance(c: Config, l: seq<Entry>, t: real): real {
    if l == [] then c.burst else Later(c, l[|l| - 1].after, l[|l| - 1].at, t)
  }

  /** The bucket is full, or the stretch from entry `i` on had no drop and used up exactly what
      is missing. */
  ghost predicate Explains(c: Config, l: seq<Entry>, t: real, i: nat)
    requires i <= |l|
  {
    if i == |l| then Balance(c, l, t) == c.burst
    else Dropped(l[i..]) == 0 && Balance(c, l, t) == c.burst + c.gain(t - l[i].at) - Admitted(l[i..])
  }

  lemma CountLast(l: seq<Entry>, i: nat)
    requires i < |l|
    ensures Admitted(l[i..]) == Admitted(l[..|l| - 1][i..]) + if l[|l| - 1].admits then 1.0 else 0.0
    ensures Dropped(l[i..]) == Dropped(l[..|l| - 1][i..]) + if l[|l| - 1].drops then 1 else 0
  {
    var part := l[i..];
    assert part[..|part| - 1] == l[..|l| - 1][i..];
  }

  lemma {:induction false} Tight(c: Config, l: seq<Entry>, t: real) returns (i: nat)
    requires c.Valid() && Conforms(c, l) && (l != [] ==> l[|l| - 1].at <= t)
    ensures i <= |l| && Explains(c, l, t, i)
  {
    i := |l|;
    if l != [] && Balance(c, l, t) < c.burst {
      var n := |l| - 1;
      assert FollowsAt(c, l, n);
      StretchPart(c, l, 0, n);
      i := Tight(c, l[..n], l[n].at);
      TightStep(c, l, t, i);
    }
  }

  lemma TightStep(c: Config, l: seq<Entry>, t: real, i: nat)
    requires c.Valid() && Conforms(c, l) && l != [] && l[|l| - 1].at <= t && Balance(c, l, t) < c.burst
    requires i < |l| && Explains(c, l[..|l| - 1], l[|l| - 1].at, i)
    ensures Explains(c, l, t, i)
  {
    var n := |l| - 1;
    assert Sound(c, l[n]) && FollowsAt(c, l, n);
    assert l[n].before == Balance(c, l[..n], l[n].at);
    CountLast(l, i);
    if i == n {
      assert l[..n][n..] == [];
    } else {
      assert l[..n][i] == l[i];
      GainOver(c, l[i].at, l[n].at, t);
    }
  }

  lemma AffordableWhenAllowed(c: Config, l: seq<Entry>, t: real, i: nat)
    requires c.Valid() && Conforms(c, l) && i < |l| && l[|l| - 1].at <= t
    requires Balance(c, l, t) >= 1.0 && Dropped(l[i..]) == 0
    ensures Affordable(c, l[i..], t)
  {
    StretchPart(c, l, i, |l|);
    assert l[i..|l|] == l[i..];
    Conserved(c, l[i..]);
    assert Sound(c, l[i]);
    GainOver(c, l[i].at, l[|l| - 1].at, t);
  }

  lemma BalanceIffAffordable(c: Config, l: seq<Entry>, t: real)
    requires c.Valid() && Conforms(c, l) && (l != [] ==> l[|l| - 1].at <= t)
    ensures Balance(c, l, t) >= 1.0 <==> forall i: nat :: i < |l| && Dropped(l[i..]) == 0 ==> Affordable(c, l[i..], t)
  {
    if Balance(c, l, t) >= 1.0 {
      forall i: nat | i < |l| && Dropped(l[i..]) == 0 ensures Affordable(c, l[i..], t) {
        AffordableWhenAllowed(c, l, t, i);
      }
    } else {
      var i := Tight(c, l, t);
      assert i < |l| && !Affordable(c, l[i..], t);
    }
  }

  lemma LedgerLast(c: Config, events: seq<Event>, key: string)
    requires events != []
    ensures var e := Ledger(c, events, key)[|events| - 1];
      e.at == events[|events| - 1].at && e.after == Available(c, Run(c, events), key, events[|events| - 1].at)
  {
    assert events[..|events| - 1 + 1] == events;
    assert Ledger(c, events, key)[|events| - 1] == EntryAt(c, events, key, |events| - 1);
  }

  lemma BalanceIsAvailable(c: Config, events: seq<Event>, key: string, t: real)
    requires c.Valid() && Ordered(events) && (events != [] ==> events[|events| - 1].at <= t)
    ensures Balance(c, Ledger(c, events, key), t) == Available(c, Run(c, events), key, t)
  {
    if events != [] {
      var n := |events| - 1;
      assert events[..n + 1] == events;
      RunInv(c, events, events[n].at);
      AvailableLater(c, Run(c, events), key, events[n].at, t);
      LedgerLast(c, events, key);
      calc {
        Balance(c, Ledger(c, events, key), t);
        Later(c, Available(c, Run(c, events), key, events[n].at), events[n].at, t);
        Available(c, Run(c, events), key, t);
      }
    }
  }

  /** The limiter admits a request exactly when every stretch since the key's bucket was last
      dropped can afford it: it is neither too generous nor too strict. */
  lemma AllowedIffAffordable(c: Config, events: seq<Event>, e: Event)
    requires c.Valid() && Ordered(events) && e.Request? && (events != [] ==> events[|events| - 1].at <= e.at)
    ensures var l := Ledger(c, events, e.key);
      Allows(c, Run(c, events), e) <==> forall i: nat :: i < |l| && Dropped(l[i..]) == 0 ==> Affordable(c, l[i..], e.at)
  {
    LedgerConforms(c, events, e.key);
    BalanceIsAvailable(c, events, e.key, e.at);
    if events != [] {
      LedgerLast(c, events, e.key);
    }
    BalanceIffAffordable(c, Ledger(c, events, e.key), e.at);
  }

  // ----- the cleanup

  /** An eviction takes out a key that was used least recently. */
  ghost predicate TakesOldest(c: Config, s: State, e: Event) {
    e.Request? && e.key !in s && |s| >= c.maxKeys ==>
      e.victim != "" && e.victim in s && forall k :: k in s ==> s[e.victim].last <= s[k].last
  }

  ghost predicate TakesOldestAt(c: Config, s: State, events: seq<Event>, j: nat)
    requires j < |events|
  {
    TakesOldest(c, RunOn(c, s, events[..j]), events[j])
  }

  ghost predicate TakesOldestOn(c: Config, s: State, events: seq<Event>) {
    forall j: nat :: j < |events| ==> TakesOldestAt(c, s, events, j)
  }

  ghost predicate SameAnswer(c: Config, before: seq<Event>, now: real, later: seq<Event>, e: Event) {
    Allows(c, Run(c, before + [Cleanup(now)] + later), e) == Allows(c, Run(c, before + later), e)
  }

  /** A cleanup at any point of any history changes no later answer, whatever requests, evictions
      and further cleanups follow it. */
  ghost predicate CleanupInvisible(c: Config) {
    forall before: seq<Event>, now: real, later: seq<Event>, e: Event |
      Ordered(before + [Cleanup(now)] + later + [e]) && TakesOldestOn(c, map[], before + later) ::
      SameAnswer(c, before, now, later, e)
  }

  /** `slim` is `s` without some keys that were all used before `cut` and have full buckets, while
      the keys of `slim` were used since. */
  ghost predicate Slims(c: Config, s: State, slim: State, cut: real, now: real) {
    Inv(c, s, now) && cut <= now && |s| <= c.maxKeys && forall k :: SlimsAt(c, s, slim, cut, now, k)
  }

  ghost predicate SlimsAt(c: Config, s: State, slim: State, cut: real, now: real, k: string) {
    && (k in slim ==> k in s && slim[k] == s[k] && cut <= s[k].last)
    && (k in s && k !in slim ==> s[k].last < cut && Full(c, s[k], now))
  }

  ghost predicate Full(c: Config, b: Bucket, now: real) {
    b.tokens + c.gain(now - b.last) >= c.burst
  }

  lemma SlimsLater(c: Config, s: State, slim: State, cut: real, now: real, t: real)
    requires c.Valid() && Slims(c, s, slim, cut, now) && now <= t
    ensures Slims(c, s, slim, cut, t)
  {
    forall k ensures SlimsAt(c, s, slim, cut, t, k) {
      assert SlimsAt(c, s, slim, cut, now, k);
      if k in s && k !in slim {
        GainOver(c, s[k].last, now, t);
      }
    }
  }

  lemma SlimsAvailable(c: Config, s: State, slim: State, cut: real, now: real, key: string)
    requires c.Valid() && Slims(c, s, slim, cut, now)
    ensures Available(c, slim, key, now) == Available(c, s, key, now)
  {
    assert SlimsAt(c, s, slim, cut, now, key);
  }

  lemma SlimsSize(s: State, slim: State, key: string)
    requires (forall k :: k in slim ==> k in s) && key in s && key !in slim
    ensures |slim| < |s|
  {
    assert slim.Keys <= s.Keys - {key};
    SubsetSize(slim.Keys, s.Keys - {key});
    assert |slim.Keys| == |slim| && |s.Keys| == |s|;
  }

  lemma RemoveSize<K, V>(s: map<K, V>, v: K)
    requires v in s
    ensures |s - {v}| == |s| - 1
  {
    assert (s - {v}).Keys == s.Keys - {v};
    assert |(s - {v}).Keys| == |s - {v}| && |s.Keys| == |s|;
  }

  lemma SlimsAtWithout(c: Config, s: State, slim: State, cut: real, now: real, v: string, k: string)
    requires SlimsAt(c, s, slim, cut, now, k)
    ensures SlimsAt(c, s - {v}, slim - {v}, cut, now, k) && (v !in slim ==> SlimsAt(c, s - {v}, slim, cut, now, k))
  {
    hide Full;
    assert k != v ==> (k in s - {v} <==> k in s) && (k in slim - {v} <==> k in slim);
  }

  lemma SlimsWithout(c: Config, s: State, slim: State, cut: real, now: real, v: string)
    requires Slims(c, s, slim, cut, now) && v in s
    ensures |s - {v}| == |s| - 1
    ensures v !in slim ==> Slims(c, s - {v}, slim, cut, now)
    ensures v in slim ==> Slims(c, s - {v}, slim - {v}, cut, now)
  {
    hide SlimsAt;
    RemoveSize(s, v);
    forall k ensures SlimsAt(c, s - {v}, slim - {v}, cut, now, k) && (v !in slim ==> SlimsAt(c, s - {v}, slim, cut, now, k)) {
      SlimsAtWithout(c, s, slim, cut, now, v, k);
    }
  }

  /** A key only the larger table has is older than all that both have. */
  lemma SlimsOldest(c: Config, s: State, slim: State, cut: real, e: Event, k: string)
    requires Slims(c, s, slim, cut, e.at) && TakesOldest(c, s, e) && e.Request? && e.key !in s && |s| >= c.maxKeys
    requires k in s && k !in slim
    ensures e.victim in s && e.victim !in slim && |slim| < c.maxKeys
  {
    hide Full;
    assert SlimsAt(c, s, slim, cut, e.at, k) && SlimsAt(c, s, slim, cut, e.at, e.victim);
    assert forall j :: j in slim ==> SlimsAt(c, s, slim, cut, e.at, j);
    SlimsSize(s, slim, k);
  }

  /** Where eviction takes a key that only the larger table has, the smaller one has room. */
  lemma SlimsEvict(c: Config, s: State, slim: State, cut: real, e: Event)
    requires Slims(c, s, slim, cut, e.at) && e.Request? && TakesOldest(c, s, e) && e.key !in s && |s| >= c.maxKeys
    ensures Slims(c, s - {e.victim}, Room(c, slim, e), cut, e.at) && |s - {e.victim}| == |s| - 1
  {
    SlimsWithout(c, s, slim, cut, e.at, e.victim);
    if k :| k in s && k !in slim {
      SlimsOldest(c, s, slim, cut, e, k);
    } else {
      SlimsEqual(c, s, slim, cut, e.at);
    }
  }

  lemma SlimsEqual(c: Config, s: State, slim: State, cut: real, now: real)
    requires Slims(c, s, slim, cut, now) && forall k :: k in s ==> k in slim
    ensures slim == s
  {
    hide Full;
    assert forall k :: k in slim ==> SlimsAt(c, s, slim, cut, now, k);
  }

  lemma SlimsRoom(c: Config, s: State, slim: State, cut: real, e: Event)
    requires 0 < c.maxKeys && Slims(c, s, slim, cut, e.at) && e.Request? && TakesOldest(c, s, e)
    ensures Slims(c, Room(c, s, e), Room(c, slim, e), cut, e.at) && (e.key in Room(c, s, e) || |Room(c, s, e)| < c.maxKeys)
  {
    if e.key !in s && |s| >= c.maxKeys {
      SlimsEvict(c, s, slim, cut, e);
    } else {
      assert forall k :: k in slim ==> SlimsAt(c, s, slim, cut, e.at, k);
      if e.key in s && e.key !in slim {
        SlimsSize(s, slim, e.key);
      }
      assert slim.Keys <= s.Keys;
      SubsetSize(slim.Keys, s.Keys);
      assert |slim.Keys| == |slim| && |s.Keys| == |s|;
    }
  }

  lemma SlimsPut(c: Config, s: State, slim: State, cut: real, now: real, key: string, b: Bucket)
    requires Slims(c, s, slim, cut, now) && (key in s || |s| < c.maxKeys)
    requires 0.0 <= b.tokens <= c.burst && cut <= b.last <= now
    ensures Slims(c, s[key := b], slim[key := b], cut, now)
  {
    hide Full;
    var s1, slim1 := s[key := b], slim[key := b];
    assert s1.Keys == s.Keys + {key} && |s.Keys| == |s| && |s1.Keys| == |s1|;
    forall k ensures SlimsAt(c, s1, slim1, cut, now, k) {
      assert SlimsAt(c, s, slim, cut, now, k);
    }
  }

  lemma SlimsRequest(c: Config, s: State, slim: State, cut: real, e: Event)
    requires c.Valid() && 0 < c.maxKeys && Slims(c, s, slim, cut, e.at) && e.Request? && TakesOldest(c, s, e)
    ensures Slims(c, Step(c, s, e), Step(c, slim, e), cut, e.at)
  {
    assert cut <= e.at && Inv(c, s, e.at);
    SlimsAvailable(c, s, slim, cut, e.at, e.key);
    SlimsRoom(c, s, slim, cut, e);
    AvailableBounds(c, s, e.key, e.at, e.at);
    var left := Available(c, s, e.key, e.at) - (if Allows(c, s, e) then 1.0 else 0.0);
    hide *;
    SlimsPut(c, Room(c, s, e), Room(c, slim, e), cut, e.at, e.key, Bucket(left, e.at));
    StepPuts(c, s, e, left);
    StepPuts(c, slim, e, left);
  }

  lemma StepPuts(c: Config, s: State, e: Event, left: real)
    requires e.Request? && left == Available(c, s, e.key, e.at) - (if Allows(c, s, e) then 1.0 else 0.0)
    ensures Step(c, s, e) == Room(c, s, e)[e.key := Bucket(left, e.at)]
  {
  }

  lemma SlimsCleanup(c: Config, s: State, slim: State, cut: real, e: Event)
    requires c.Valid() && Slims(c, s, slim, cut, e.at) && e.Cleanup?
    ensures Slims(c, Step(c, s, e), Step(c, slim, e), cut, e.at)
  {
    hide Full;
    var rest, slimmer := Step(c, s, e), Step(c, slim, e);
    assert rest.Keys <= s.Keys;
    SubsetSize(rest.Keys, s.Keys);
    assert |s.Keys| == |s| && |rest.Keys| == |rest|;
    forall k ensures SlimsAt(c, rest, slimmer, cut, e.at, k) {
      assert SlimsAt(c, s, slim, cut, e.at, k);
    }
  }

  ghost function EndTime(events: seq<Event>, now: real): real {
    if events == [] then now else events[|events| - 1].at
  }

  /** The smaller table stays so under every further history, and gives the same answers. */
  lemma {:induction false} SlimsRun(c: Config, s: State, slim: State, cut: real, now: real, later: seq<Event>)
    requires c.Valid() && 0 < c.maxKeys && Slims(c, s, slim, cut, now)
    requires Ordered(later) && TakesOldestOn(c, s, later) && (later != [] ==> now <= later[0].at)
    ensures Slims(c, RunOn(c, s, later), RunOn(c, slim, later), cut, EndTime(later, now))
  {
    hide Slims, Step, TakesOldest;
    if later != [] {
      var n := |later| - 1;
      var front, e := later[..n], later[n];
      forall j: nat | j < n ensures TakesOldestAt(c, s, front, j) {
        assert TakesOldestAt(c, s, later, j) && front[..j] == later[..j];
      }
      SlimsRun(c, s, slim, cut, now, front);
      var big, small := RunOn(c, s, front), RunOn(c, slim, front);
      SlimsLater(c, big, small, cut, EndTime(front, now), e.at);
      assert TakesOldestAt(c, s, later, n);
      if e.Request? {
        SlimsRequest(c, big, small, cut, e);
      } else {
        SlimsCleanup(c, big, small, cut, e);
      }
    }
  }

  lemma {:induction false} RunSplit(c: Config, s: State, a: seq<Event>, b: seq<Event>)
    ensures RunOn(c, s, a + b) == RunOn(c, RunOn(c, s, a), b)
  {
    hide Step;
    if b == [] {
      assert a + b == a;
    } else {
      assert (a + b)[..|a + b| - 1] == a + b[..|b| - 1];
      RunSplit(c, s, a, b[..|b| - 1]);
    }
  }

  lemma TakesOldestSplit(c: Config, s: State, a: seq<Event>, b: seq<Event>)
    requires TakesOldestOn(c, s, a + b)
    ensures TakesOldestOn(c, s, a) && TakesOldestOn(c, RunOn(c, s, a), b)
  {
    hide RunOn, TakesOldest;
    forall j: nat | j < |a| ensures TakesOldestAt(c, s, a, j) {
      assert TakesOldestAt(c, s, a + b, j) && (a + b)[..j] == a[..j];
    }
    forall j: nat | j < |b| ensures TakesOldestAt(c, RunOn(c, s, a), b, j) {
      assert TakesOldestAt(c, s, a + b, |a| + j) && (a + b)[..|a| + j] == a + b[..j];
      RunSplit(c, s, a, b[..j]);
    }
  }

  /** A cleanup of a table whose idle buckets are full only takes out full buckets of old keys. */
  lemma CleanupSlims(c: Config, s: State, now: real)
    requires c.Valid() && c.burst <= c.gain(IDLE_LIMIT) && Inv(c, s, now) && |s| <= c.maxKeys
    ensures Slims(c, s, Step(c, s, Cleanup(now)), now - IDLE_LIMIT, now)
  {
    var slim, cut := Step(c, s, Cleanup(now)), now - IDLE_LIMIT;
    forall k ensures SlimsAt(c, s, slim, cut, now, k) {
      if k in s && now - s[k].last > IDLE_LIMIT {
        GainOver(c, 0.0, IDLE_LIMIT, now - s[k].last);
      }
    }
  }

  /** A history whose evictions take the oldest stays within the limit. */
  lemma RunFits(c: Config, events: seq<Event>, now: real)
    requires c.Valid() && 0 < c.maxKeys && Ordered(events) && TakesOldestOn(c, map[], events) && EndTime(events, now) <= now
    ensures Inv(c, Run(c, events), now) && |Run(c, events)| <= c.maxKeys
  {
    var start := if events == [] then now else events[0].at;
    SlimsRun(c, map[], map[], start, start, events);
    RunInv(c, events, now);
  }

  lemma OrderedCut(a: seq<Event>, b: seq<Event>)
    requires Ordered(a + b)
    ensures Ordered(a) && Ordered(b) && (a != [] && b != [] ==> a[|a| - 1].at <= b[0].at)
  {
    var all := a + b;
    assert forall i :: 0 <= i < |a| ==> all[i] == a[i];
    assert forall i :: 0 <= i < |b| ==> all[|a| + i] == b[i];
  }

  lemma OrderedParts(a: seq<Event>, now: real, b: seq<Event>, e: Event)
    requires Ordered(a + [Cleanup(now)] + b + [e])
    ensures Ordered(a) && EndTime(a, now) <= now && Ordered(b) && (b != [] ==> now <= b[0].at) && EndTime(b, now) <= e.at
  {
    hide Ordered;
    var front := a + [Cleanup(now)];
    OrderedCut(front + b, [e]);
    OrderedCut(front, b);
    OrderedCut(a, [Cleanup(now)]);
  }

  lemma CleanupKeepsAnswer(c: Config, before: seq<Event>, now: real, later: seq<Event>, e: Event)
    requires c.Valid() && 0 < c.maxKeys && c.burst <= c.gain(IDLE_LIMIT)
    requires Ordered(before + [Cleanup(now)] + later + [e]) && TakesOldestOn(c, map[], before + later)
    ensures SameAnswer(c, before, now, later, e)
  {
    hide Ordered, TakesOldestOn, Slims, Step, Available;
    OrderedParts(before, now, later, e);
    TakesOldestSplit(c, map[], before, later);
    RunFits(c, before, now);
    var s := Run(c, before);
    var slim := Step(c, s, Cleanup(now));
    CleanupSlims(c, s, now);
    SlimsRun(c, s, slim, now - IDLE_LIMIT, now, later);
    CleanedRun(c, before, now, later);
    RunSplit(c, map[], before, later);
    SlimsLater(c, RunOn(c, s, later), RunOn(c, slim, later), now - IDLE_LIMIT, EndTime(later, now), e.at);
    if e.Request? {
      SlimsAvailable(c, RunOn(c, s, later), RunOn(c, slim, later), now - IDLE_LIMIT, e.at, e.key);
    }
  }

  lemma CleanedRun(c: Config, before: seq<Event>, now: real, later: seq<Event>)
    ensures Run(c, before + [Cleanup(now)] + later) == RunOn(c, Step(c, Run(c, before), Cleanup(now)), later)
  {
    hide Step;
    var mid := [Cleanup(now)];
    RunSplit(c, map[], before + mid, later);
    RunSplit(c, map[], before, mid);
    assert mid[..0] == [];
  }

  // ----- when the cleanup shows

  /** The number as a real, counted up. */
  function Units(n: nat): real {
    if n == 0 then 0.0 else Units(n - 1) + 1.0
  }

  lemma {:induction false} UnitsIs(n: nat)
    ensures Units(n) == n as real
  {
    if n > 0 {
      UnitsIs(n - 1);
    }
  }

  function Burst(key: string, at: real, n: nat): seq<Event> {
    if n == 0 then [] else Burst(key, at, n - 1) + [Request(key, at, "")]
  }

  lemma {:induction false} BurstEvents(key: string, at: real, n: nat)
    ensures |Burst(key, at, n)| == n && forall i :: 0 <= i < n ==> Burst(key, at, n)[i] == Request(key, at, "")
  {
    if n > 0 {
      BurstEvents(key, at, n - 1);
    }
  }

  /** Only `key` can be in the table, with a sound bucket. */
  ghost predicate OnlyKey(c: Config, s: State, key: string, at: real) {
    Inv(c, s, at) && forall k :: k in s ==> k == key
  }

  lemma OnlyKeySize(c: Config, s: State, key: string, at: real)
    requires OnlyKey(c, s, key, at)
    ensures key !in s ==> |s| == 0
  {
    if key !in s {
      assert s == map[];
    }
  }

  /** Requests at one moment use the bucket up one by one. */
  lemma {:induction false} Drained(c: Config, s: State, key: string, at: real, n: nat)
    requires c.Valid() && 0 < c.maxKeys && OnlyKey(c, s, key, at) && Units(n) <= Available(c, s, key, at)
    ensures var r := RunOn(c, s, Burst(key, at, n));
      && OnlyKey(c, r, key, at) && Available(c, r, key, at) == Available(c, s, key, at) - Units(n)
      && (n > 0 ==> key in r && r[key].last == at)
  {
    hide Available, Step, OnlyKey, Config.Valid;
    if n > 0 {
      var all := Burst(key, at, n);
      assert all[..|all| - 1] == Burst(key, at, n - 1);
      Drained(c, s, key, at, n - 1);
      DrainOne(c, RunOn(c, s, Burst(key, at, n - 1)), key, at);
    }
  }

  /** One key alone never needs an eviction. */
  lemma {:induction false} DrainedRoom(c: Config, s: State, key: string, at: real, n: nat)
    requires c.Valid() && 0 < c.maxKeys && OnlyKey(c, s, key, at) && Units(n) <= Available(c, s, key, at)
    ensures TakesOldestOn(c, s, Burst(key, at, n))
  {
    hide Available, Step, RunOn, Config.Valid;
    BurstEvents(key, at, n);
    if n > 0 {
      var all, front := Burst(key, at, n), Burst(key, at, n - 1);
      BurstEvents(key, at, n - 1);
      DrainedRoom(c, s, key, at, n - 1);
      Drained(c, s, key, at, n - 1);
      OnlyKeySize(c, RunOn(c, s, front), key, at);
      forall j: nat | j < n ensures TakesOldestAt(c, s, all, j) {
        assert all[..j] == front[..j];
        assert j < n - 1 ==> TakesOldestAt(c, s, front, j);
        assert front[..n - 1] == front;
      }
    }
  }

  lemma DrainOne(c: Config, s: State, key: string, at: real)
    requires c.Valid() && 0 < c.maxKeys && OnlyKey(c, s, key, at) && Available(c, s, key, at) >= 1.0
    ensures var r := Step(c, s, Request(key, at, ""));
      OnlyKey(c, r, key, at) && Available(c, r, key, at) == Available(c, s, key, at) - 1.0 && key in r && r[key].last == at
  {
    AvailableBounds(c, s, key, at, at);
    AskedKey(c, s, Request(key, at, ""));
    StepInv(c, s, at, Request(key, at, ""));
  }

  lemma BurstsOrdered(key: string, n: nat, now: real, m: nat)
    requires 0.0 <= now
    ensures Ordered(Burst(key, 0.0, n) + [Cleanup(now)] + Burst(key, now, m) + [Request(key, now, "")])
  {
    BurstEvents(key, 0.0, n);
    BurstEvents(key, now, m);
  }

  /** A key that is used up at time 0 and then waits. */
  lemma UsedUp(c: Config, key: string, n: nat, now: real)
    requires c.Valid() && 0 < c.maxKeys && 0 < n && c.burst == Units(n) && now > IDLE_LIMIT && c.gain(now) < c.burst
    ensures var s := Run(c, Burst(key, 0.0, n));
      && OnlyKey(c, s, key, now) && Available(c, s, key, now) == c.gain(now) && Step(c, s, Cleanup(now)) == map[]
      && TakesOldestOn(c, map[], Burst(key, 0.0, n))
  {
    Drained(c, map[], key, 0.0, n);
    DrainedRoom(c, map[], key, 0.0, n);
    var s := Run(c, Burst(key, 0.0, n));
    AvailableLater(c, s, key, 0.0, now);
    assert now - 0.0 == now;
    assert forall k :: k in s ==> k == key && now - s[k].last > IDLE_LIMIT;
  }

  /** With `m` more requests at `now`, whether another is allowed. */
  lemma AnswerAfter(c: Config, s: State, key: string, now: real, m: nat)
    requires c.Valid() && 0 < c.maxKeys && OnlyKey(c, s, key, now) && Units(m) <= Available(c, s, key, now)
    ensures Allows(c, RunOn(c, s, Burst(key, now, m)), Request(key, now, "")) <==> Units(m) + 1.0 <= Available(c, s, key, now)
    ensures TakesOldestOn(c, s, Burst(key, now, m))
  {
    Drained(c, s, key, now, m);
    DrainedRoom(c, s, key, now, m);
  }

  lemma {:induction false} WholePart(x: real, n: nat) returns (m: nat)
    requires 0.0 <= x < Units(n)
    ensures Units(m) <= x < Units(m) + 1.0 <= Units(n)
  {
    if Units(n - 1) <= x {
      m := n - 1;
    } else {
      m := WholePart(x, n - 1);
    }
  }

  /** A key that is used up, waits past the idle limit and asks again: with the cleanup it gets more
      than without. */
  lemma CleanupShows(c: Config, now: real, n: nat)
    requires c.Valid() && 0 < c.maxKeys && 0 < n && c.burst == Units(n) && now > IDLE_LIMIT && c.gain(now) < c.burst
    ensures !CleanupInvisible(c)
  {
    assert 0.0 <= c.gain(now);
    hide *;
    var m := WholePart(c.gain(now), n);
    ShownBy(c, now, n, m);
  }

  lemma ShownBy(c: Config, now: real, n: nat, m: nat)
    requires c.Valid() && 0 < c.maxKeys && 0 < n && c.burst == Units(n) && now > IDLE_LIMIT
    requires Units(m) <= c.gain(now) < Units(m) + 1.0 <= c.burst
    ensures !CleanupInvisible(c)
  {
    assert OnlyKey(c, map[], "k", now) && Available(c, map[], "k", now) == c.burst;
    hide Allows, Available, Step, RunOn, Burst, TakesOldestOn, Ordered, Config.Valid, OnlyKey;
    var key := "k";
    var before, later, e := Burst(key, 0.0, n), Burst(key, now, m), Request(key, now, "");
    UsedUp(c, key, n, now);
    var s := Run(c, before);
    AnswerAfter(c, s, key, now, m);
    AnswerAfter(c, map[], key, now, m);
    RunSplit(c, map[], before, later);
    TakesOldestJoin(c, map[], before, later);
    CleanedRun(c, before, now, later);
    BurstsOrdered(key, n, now, m);
    assert !SameAnswer(c, before, now, later, e);
  }

  lemma TakesOldestJoin(c: Config, s: State, a: seq<Event>, b: seq<Event>)
    requires TakesOldestOn(c, s, a) && TakesOldestOn(c, RunOn(c, s, a), b)
    ensures TakesOldestOn(c, s, a + b)
  {
    hide RunOn, TakesOldest;
    forall j: nat | j < |a + b| ensures TakesOldestAt(c, s, a + b, j) {
      if j < |a| {
        assert TakesOldestAt(c, s, a, j) && (a + b)[..j] == a[..j];
      } else {
        assert TakesOldestAt(c, RunOn(c, s, a), b, j - |a|) && (a + b)[..j] == a + b[..j - |a|];
        RunSplit(c, s, a, b[..j - |a|]);
      }
    }
  }

  /** Dropping idle buckets changes no later answer exactly when an idle span is long enough to fill
      a bucket. */
  lemma CleanupInvisibleIff(rate: nat, burst: nat, maxKeys: nat)
    requires 0 < rate && 0 < burst && 0 < maxKeys
    ensures CleanupInvisible(Steady(rate, burst, maxKeys)) <==> burst <= 300 * rate
  {
    var c := Steady(rate, burst, maxKeys);
    if burst <= 300 * rate {
      forall before: seq<Event>, now: real, later: seq<Event>, e: Event |
        Ordered(before + [Cleanup(now)] + later + [e]) && TakesOldestOn(c, map[], before + later)
        ensures SameAnswer(c, before, now, later, e)
      {
        CleanupKeepsAnswer(c, before, now, later, e);
      }
    } else {
      var now := Between(rate as real, burst as real);
      UnitsIs(burst);
      CleanupShows(c, now, burst);
    }
  }

  lemma Between(rate: real, burst: real) returns (now: real)
    requires 0.0 < rate && 300.0 * rate < burst
    ensures now > 300.0 && rate * now < burst
  {
    now := (300.0 + burst / rate) / 2.0;
    assert rate * (burst / rate) == burst;
    assert burst / rate > 300.0;
  }

  // ----- the limiter object

  lemma GainPositive(rate: real, elapsed: real)
    ensures 0.0 < rate && 0.0 <= elapsed ==> 0.0 <= elapsed * rate
  {
  }

  class RateLimiter {
    const rate: nat
    const burst: nat
    const maxKeys: nat
    var tokens: map<string, Bucket>

    ghost predicate Valid()
      reads this
    {
      0 < rate && 0 < burst
    }

    ghost function Settings(): Config
      requires 0 < rate && 0 < burst
    {
      Steady(rate, burst, maxKeys)
    }

    constructor (rate: int, burst: int)
      ensures Valid() && tokens == map[] && maxKeys == MAX_KEYS
      ensures this.rate == if rate <= 0 then DEFAULT_RATE else rate
      ensures this.burst == if burst <= 0 then 2 * this.rate else burst
    {
      var r := if rate <= 0 then DEFAULT_RATE else rate;
      this.rate := r;
      this.burst := if burst <= 0 then r * 2 else burst;
      maxKeys, tokens := MAX_KEYS, map[];
    }

    /** `evictOldest`, the keys visited in any order.  While no key is empty, the victim is one
        that was used least recently. */
    method EvictOldest() returns (victim: string)
      modifies `tokens
      ensures tokens == if victim == "" then old(tokens) else old(tokens) - {victim}
      ensures victim == "" || victim in old(tokens)
      ensures "" !in old(tokens) && old(tokens) != map[] ==>
        victim != "" && forall k :: k in old(tokens) ==> old(tokens)[victim].last <= old(tokens)[k].last
    {
      var rest := tokens.Keys;
      var oldest := 0.0;
      victim := "";
      while rest != {}
        invariant rest <= tokens.Keys && tokens == old(tokens)
        invariant victim == "" || victim in tokens
        invariant victim == "" ==> "" in tokens || rest == tokens.Keys
        invariant victim != "" ==> oldest == tokens[victim].last
        invariant "" !in tokens ==> forall k :: k in tokens && k !in rest ==> oldest <= tokens[k].last
        decreases rest
      {
        var key := Pick(rest);
        var bucket := tokens[key];
        if victim == "" || bucket.last < oldest {
          victim, oldest := key, bucket.last;
        }
        rest := rest - {key};
      }
      if victim != "" {
        tokens := tokens - {victim};
      }
    }

    /** The refill. */
    method Refill(bucket: Bucket, now: real) returns (level: real)
      requires Valid()
      ensures forall s: State, key :: key in s && s[key] == bucket ==> level == Available(Settings(), s, key, now)
      ensures forall s: State, key :: key !in s && bucket.tokens == burst as real && bucket.last <= now ==> level == Available(Settings(), s, key, now)
    {
      level := bucket.tokens + (now - bucket.last) * rate as real;
      GainPositive(rate as real, now - bucket.last);
      if level > burst as real {
        level := burst as real;
      }
    }

    /** Makes room for a key that has no bucket. */
    method MakeRoom(key: string) returns (ghost victim: string)
      requires Valid() && key !in tokens
      modifies `tokens
      ensures forall now :: tokens == Room(Settings(), old(tokens), Request(key, now, victim))
      ensures key !in tokens && (victim == "" || victim in old(tokens))
      ensures "" !in old(tokens) && 0 < maxKeys ==> forall now :: TakesOldest(Settings(), old(tokens), Request(key, now, victim))
      ensures "" !in old(tokens) && 0 < maxKeys && |old(tokens)| <= maxKeys ==> |tokens| < maxKeys
    {
      victim := "";
      if |tokens| >= maxKeys {
        victim := EvictOldest();
      }
    }

    /** `Allow`; the clock is read once when the bucket is made and once more for the refill. */
    method Allow(key: string, made: real, now: real) returns (allowed: bool, ghost victim: string)
      requires Valid() && made <= now
      modifies `tokens
      ensures allowed == Allows(Settings(), old(tokens), Request(key, now, victim))
      ensures tokens == Step(Settings(), old(tokens), Request(key, now, victim))
      ensures victim == "" || victim in old(tokens)
      ensures "" !in old(tokens) && 0 < maxKeys ==> TakesOldest(Settings(), old(tokens), Request(key, now, victim))
      ensures "" !in old(tokens) && key != "" && 0 < maxKeys && |old(tokens)| <= maxKeys ==> |tokens| <= maxKeys
    {
      victim := "";
      var bucket := Bucket(burst as real, made);
      if key in tokens {
        bucket := tokens[key];
      } else {
        victim := MakeRoom(key);
      }
      ghost var room := tokens;
      var level := Refill(bucket, now);
      assert level == Available(Settings(), old(tokens), key, now);
      allowed := level >= 1.0;
      tokens := tokens[key := Bucket(if allowed then level - 1.0 else level, now)];
      assert room == Room(Settings(), old(tokens), Request(key, now, victim));
    }

    /** `doCleanup`, the keys visited in any order. */
    method CleanUp(now: real)
      requires Valid()
      modifies `tokens
      ensures tokens == Step(Settings(), old(tokens), Cleanup(now))
    {
      var rest := tokens.Keys;
      while rest != {}
        invariant rest <= old(tokens).Keys
        invariant forall k :: k in tokens <==> k in old(tokens) && (k in rest || now - old(tokens)[k].last <= IDLE_LIMIT)
        invariant forall k :: k in tokens ==> tokens[k] == old(tokens)[k]
        decreases rest
      {
        var key := Pick(rest);
        if now - tokens[key].last > IDLE_LIMIT {
          tokens := tokens - {key};
        }
        rest := rest - {key};
      }
    }
  }
}

/**
 * Which requests for a code are accepted, told from the requests before them alone: no key, counter or expiry of Redis
 * appears in the condition.
 */
module RateVerdicts {
  import opened Schema
  import opened RateLimits

  // ---------------------------------------------------------------- the rules, on the history

  const HOUR: Time := 3600000

  predicate SameLock(a: Request, b: Request) {
    a.purpose == b.purpose && a.identifier == b.identifier
  }

  /** No earlier request for the purpose and identifier that got this far is less than the cooldown ago. */
  ghost predicate GetsThrough(cfg: Config, rs: seq<Request>, n: nat)
    decreases n
  {
    && n < |rs|
    && forall m: nat :: m < n && SameLock(rs[m], rs[n]) && GetsThrough(cfg, rs, m) ==>
         rs[m].at + cfg.cooldown <= rs[n].at
  }

  /** Of the requests counted, this one opens a window: every window opened before it is over. */
  ghost predicate Opens(rs: seq<Request>, counted: set<nat>, n: nat)
    decreases n
  {
    && n in counted && n < |rs|
    && forall m: nat :: m < n && Opens(rs, counted, m) ==> rs[m].at + HOUR <= rs[n].at
  }

  ghost predicate InSpan(rs: seq<Request>, counted: set<nat>, k: nat, m: nat, at: Time) {
    k <= m && Opens(rs, counted, k) && at < rs[k].at + HOUR
  }

  /** The requests counted before `n` in the window that is open when `n` comes. */
  ghost function InWindow(rs: seq<Request>, counted: set<nat>, n: nat): set<nat>
    requires n < |rs|
  {
    set m | m in counted && m < n && exists k :: InSpan(rs, counted, k, m, rs[n].at)
  }

  /** What the identifier's counter counts. */
  ghost function ForIdentifier(cfg: Config, rs: seq<Request>, v: string): set<nat> {
    set n: nat | n < |rs| && rs[n].identifier == v && GetsThrough(cfg, rs, n)
  }

  ghost predicate IdentifierHasRoom(cfg: Config, rs: seq<Request>, n: nat)
    requires n < |rs|
  {
    |InWindow(rs, ForIdentifier(cfg, rs, rs[n].identifier), n)| < cfg.perIdentifier
  }

  /** What the address's counter counts: only requests their identifier's limit lets pass. */
  ghost function ForIp(cfg: Config, rs: seq<Request>, ip: string): set<nat> {
    set n: nat | n < |rs| && rs[n].ip == Some(ip) && GetsThrough(cfg, rs, n) && IdentifierHasRoom(cfg, rs, n)
  }

  ghost predicate IpHasRoom(cfg: Config, rs: seq<Request>, n: nat)
    requires n < |rs|
  {
    match rs[n].ip
    case None => true
    case Some(ip) => ip == "" || |InWindow(rs, ForIp(cfg, rs, ip), n)| < cfg.perIp
  }

  // ---------------------------------------------------------------- the lock

  /** The lock in the store is the one of the latest request that got through. */
  lemma {:induction false} LockIsLatest(cfg: Config, rs: seq<Request>, n: nat, r: Request) returns (k: nat)
    requires Timed(rs) && Positive(cfg) && n <= |rs|
    ensures var s, key := StoreAt(cfg, rs, n), CooldownKey(r.purpose, r.identifier);
      if key in s
      then
        && k < n && SameLock(rs[k], r) && GetsThrough(cfg, rs, k) && s[key].expiresAt == rs[k].at + cfg.cooldown
        && forall m: nat :: m < n && SameLock(rs[m], r) && GetsThrough(cfg, rs, m) ==> rs[m].at <= rs[k].at
      else forall m: nat :: m < n && SameLock(rs[m], r) ==> !GetsThrough(cfg, rs, m)
    decreases n
  {
    k := 0;
    if n > 0 {
      k := LockIsLatest(cfg, rs, n - 1, r);
      var s, key := StoreAt(cfg, rs, n - 1), CooldownKey(r.purpose, r.identifier);
      LockStep(cfg, s, rs[n - 1], r);
      if SameLock(rs[n - 1], r) {
        LockDecides(cfg, rs, n - 1, r, k);
        if !Alive(s, key, rs[n - 1].at) { k := n - 1; }
      }
    }
  }

  /** What one request does to one lock. */
  lemma LockStep(cfg: Config, s: Store, q: Request, r: Request)
    ensures var key, s' := CooldownKey(r.purpose, r.identifier), Enforced(cfg, s, q).0;
      if SameLock(q, r) && !Alive(s, key, q.at)
      then key in s' && s'[key].expiresAt == q.at + cfg.cooldown
      else (key in s' <==> key in s) && (key in s ==> s'[key] == s[key])
  {
    KeysDistinct(r.purpose, q.purpose, r.identifier, q.identifier);
    if CountsIp(q) { KeysDistinct(r.purpose, q.purpose, r.identifier, q.ip.value); }
  }

  lemma LockDecides(cfg: Config, rs: seq<Request>, n: nat, r: Request, k: nat)
    requires n < |rs| && SameLock(rs[n], r)
    requires var s, key := StoreAt(cfg, rs, n), CooldownKey(r.purpose, r.identifier);
      if key in s
      then
        && k < n && SameLock(rs[k], r) && GetsThrough(cfg, rs, k) && s[key].expiresAt == rs[k].at + cfg.cooldown
        && forall m: nat :: m < n && SameLock(rs[m], r) && GetsThrough(cfg, rs, m) ==> rs[m].at <= rs[k].at
      else forall m: nat :: m < n && SameLock(rs[m], r) ==> !GetsThrough(cfg, rs, m)
    ensures !Alive(StoreAt(cfg, rs, n), CooldownKey(r.purpose, r.identifier), rs[n].at) <==> GetsThrough(cfg, rs, n)
  {}

  lemma LockIff(cfg: Config, rs: seq<Request>, n: nat)
    requires Timed(rs) && Positive(cfg) && n < |rs|
    ensures GetsLock(StoreAt(cfg, rs, n), rs[n]) <==> GetsThrough(cfg, rs, n)
  {
    var k := LockIsLatest(cfg, rs, n, rs[n]);
    LockDecides(cfg, rs, n, rs[n], k);
  }

  // ---------------------------------------------------------------- the counters

  /** The counter in the store counts from the request that opened the latest window. */
  ghost predicate CountsFrom(rs: seq<Request>, counted: set<nat>, n: nat, s: Store, key: string, k: nat) {
    if key in s
    then
      && k < n <= |rs| && Opens(rs, counted, k) && s[key].expiresAt == rs[k].at + WINDOW
      && (forall m: nat :: k < m < n ==> !Opens(rs, counted, m))
      && s[key].value == |Since(counted, k, n)|
    else forall m: nat :: m in counted ==> m >= n
  }

  function Since(counted: set<nat>, k: nat, n: nat): set<nat> {
    set m | m in counted && k <= m < n
  }

  ghost predicate Counts(cfg: Config, rs: seq<Request>, counted: set<nat>, n: nat, c: Counter) {
    forall m: nat :: m < n ==> (m in counted <==> HitsAt(cfg, rs, m, c))
  }

  lemma {:induction false} CounterCounts(cfg: Config, rs: seq<Request>, counted: set<nat>, n: nat, c: Counter)
    returns (k: nat)
    requires Timed(rs) && n <= |rs| && Counts(cfg, rs, counted, n, c)
    ensures CountsFrom(rs, counted, n, StoreAt(cfg, rs, n), Key(c), k)
    decreases n
  {
    k := 0;
    if n > 0 {
      k := CounterCounts(cfg, rs, counted, n - 1, c);
      CounterMoves(cfg, rs, n - 1, c);
      assert n - 1 in counted <==> HitsAt(cfg, rs, n - 1, c);
      k := OneMore(rs, counted, n - 1, StoreAt(cfg, rs, n - 1), StoreAt(cfg, rs, n), Key(c), k);
    }
  }

  lemma CounterMoves(cfg: Config, rs: seq<Request>, n: nat, c: Counter)
    requires n < |rs|
    ensures var s, s', key := StoreAt(cfg, rs, n), StoreAt(cfg, rs, n + 1), Key(c);
      && (HitsAt(cfg, rs, n, c) ==> key in s' && s'[key] == Incremented(s, key, WINDOW, rs[n].at)[key])
      && (!HitsAt(cfg, rs, n, c) ==> (key in s' <==> key in s) && (key in s ==> s'[key] == s[key]))
  {
    CounterStep(cfg, StoreAt(cfg, rs, n), rs[n], c);
  }

  lemma OneMore(rs: seq<Request>, counted: set<nat>, n: nat, s: Store, s': Store, key: string, k: nat)
    returns (k': nat)
    requires Timed(rs) && n < |rs| && CountsFrom(rs, counted, n, s, key, k)
    requires n in counted ==> key in s' && s'[key] == Incremented(s, key, WINDOW, rs[n].at)[key]
    requires n !in counted ==> (key in s' <==> key in s) && (key in s ==> s'[key] == s[key])
    ensures CountsFrom(rs, counted, n + 1, s', key, k')
  {
    k' := k;
    if n !in counted {
      assert Since(counted, k, n + 1) == Since(counted, k, n);
    } else if Alive(s, key, rs[n].at) {
      assert Since(counted, k, n + 1) == Since(counted, k, n) + {n};
      assert !Opens(rs, counted, n);
    } else {
      NextWindow(rs, counted, n, s, key, k);
      assert Since(counted, n, n + 1) == {n};
      k' := n;
    }
  }

  lemma NextWindow(rs: seq<Request>, counted: set<nat>, n: nat, s: Store, key: string, k: nat)
    requires Timed(rs) && n < |rs| && n in counted && CountsFrom(rs, counted, n, s, key, k)
    requires !Alive(s, key, rs[n].at)
    ensures Opens(rs, counted, n)
  {
    forall m: nat | m < n && Opens(rs, counted, m) ensures rs[m].at + WINDOW <= rs[n].at {
      assert key in s && m <= k;
      if m < k { assert rs[m].at <= rs[k].at; }
    }
  }

  /** So the value it has for the next request is the number counted in the window open then. */
  lemma WindowCount(cfg: Config, rs: seq<Request>, counted: set<nat>, n: nat, c: Counter)
    requires Timed(rs) && n < |rs| && Counts(cfg, rs, counted, n, c)
    ensures var s := StoreAt(cfg, rs, n);
      |InWindow(rs, counted, n)| == if Alive(s, Key(c), rs[n].at) then s[Key(c)].value else 0
  {
    var s := StoreAt(cfg, rs, n);
    var k := CounterCounts(cfg, rs, counted, n, c);
    if Key(c) in s {
      forall j: nat, m: nat | m < n && InSpan(rs, counted, j, m, rs[n].at)
        ensures j == k && Alive(s, Key(c), rs[n].at)
      {}
    }
    if Alive(s, Key(c), rs[n].at) {
      forall m | m in counted && k <= m < n ensures m in InWindow(rs, counted, n) {
        assert InSpan(rs, counted, k, m, rs[n].at);
      }
      assert InWindow(rs, counted, n) == Since(counted, k, n);
    } else {
      assert InWindow(rs, counted, n) == {};
    }
  }

  // ---------------------------------------------------------------- the verdict

  lemma CountsForIdentifier(cfg: Config, rs: seq<Request>, v: string, n: nat)
    requires Timed(rs) && Positive(cfg) && n <= |rs|
    ensures Counts(cfg, rs, ForIdentifier(cfg, rs, v), n, ByIdentifier(v))
  {
    forall m: nat | m < n ensures m in ForIdentifier(cfg, rs, v) <==> HitsAt(cfg, rs, m, ByIdentifier(v)) {
      LockIff(cfg, rs, m);
    }
  }

  lemma IdentifierIff(cfg: Config, rs: seq<Request>, n: nat)
    requires Timed(rs) && Positive(cfg) && n < |rs| && GetsThrough(cfg, rs, n)
    ensures IdentifierHits(cfg, StoreAt(cfg, rs, n), rs[n]) <= cfg.perIdentifier <==> IdentifierHasRoom(cfg, rs, n)
  {
    var v, s := rs[n].identifier, StoreAt(cfg, rs, n);
    CountsForIdentifier(cfg, rs, v, n);
    WindowCount(cfg, rs, ForIdentifier(cfg, rs, v), n, ByIdentifier(v));
    KeysDistinct(rs[n].purpose, rs[n].purpose, v, v);
    LockIff(cfg, rs, n);
  }

  lemma CountsForIp(cfg: Config, rs: seq<Request>, ip: string, n: nat)
    requires Timed(rs) && Positive(cfg) && n <= |rs| && ip != ""
    ensures Counts(cfg, rs, ForIp(cfg, rs, ip), n, ByIp(ip))
  {
    forall m: nat | m < n ensures m in ForIp(cfg, rs, ip) <==> HitsAt(cfg, rs, m, ByIp(ip)) {
      LockIff(cfg, rs, m);
      if GetsThrough(cfg, rs, m) { IdentifierIff(cfg, rs, m); }
    }
  }

  lemma IpIff(cfg: Config, rs: seq<Request>, n: nat)
    requires Timed(rs) && Positive(cfg) && n < |rs| && GetsThrough(cfg, rs, n) && CountsIp(rs[n])
    ensures IpHits(cfg, StoreAt(cfg, rs, n), rs[n]) <= cfg.perIp <==> IpHasRoom(cfg, rs, n)
  {
    var ip, s, r := rs[n].ip.value, StoreAt(cfg, rs, n), rs[n];
    CountsForIp(cfg, rs, ip, n);
    WindowCount(cfg, rs, ForIp(cfg, rs, ip), n, ByIp(ip));
    KeysDistinct(r.purpose, r.purpose, r.identifier, ip);
  }

  /**
   * Over every timed run: a request is accepted if and only if its identifier is not empty, no request for its purpose
   * and identifier got through less than the cooldown before, and its identifier's window, and its address's if it
   * carries one, has room.
   */
  lemma AcceptedIff(cfg: Config, rs: seq<Request>, n: nat)
    requires Timed(rs) && Positive(cfg) && n < |rs|
    ensures Accepted(cfg, rs, n) <==>
      && rs[n].identifier != "" && GetsThrough(cfg, rs, n)
      && IdentifierHasRoom(cfg, rs, n) && IpHasRoom(cfg, rs, n)
  {
    LockIff(cfg, rs, n);
    if GetsThrough(cfg, rs, n) {
      IdentifierIff(cfg, rs, n);
      if CountsIp(rs[n]) { IpIff(cfg, rs, n); }
    }
  }

  // ---------------------------------------------------------------- the hourly bound of an address is attained

  function Named(n: nat): string {
    if n == 0 then "a" else Named(n - 1) + "a"
  }

  lemma {:induction false} NamesDiffer(n: nat)
    ensures |Named(n)| == n + 1
  {
    if n > 0 { NamesDiffer(n - 1); }
  }

  /** One address asks for codes for ever new identifiers: one opens a window, the rest come about its end. */
  function AddressBurst(cfg: Config, ip: string): seq<Request>
    requires Positive(cfg)
  {
    seq(2 * cfg.perIp, n requires 0 <= n =>
      Request(Login, Named(n), Some(ip), if n == 0 then 0 else if n < cfg.perIp then WINDOW - 1 else WINDOW))
  }

  lemma NewIdentifierGetsThrough(cfg: Config, ip: string, n: nat)
    requires Positive(cfg) && n < 2 * cfg.perIp
    ensures var rs := AddressBurst(cfg, ip); GetsThrough(cfg, rs, n) && IdentifierHasRoom(cfg, rs, n)
  {
    var rs := AddressBurst(cfg, ip);
    NamesDiffer(n);
    forall m: nat | m < n ensures rs[m].identifier != rs[n].identifier { NamesDiffer(m); }
    assert InWindow(rs, ForIdentifier(cfg, rs, rs[n].identifier), n) == {};
  }

  lemma FirstWindowIsOver(cfg: Config, ip: string, k: nat, n: nat)
    requires Positive(cfg) && k <= n && cfg.perIp <= n < 2 * cfg.perIp
    requires var rs := AddressBurst(cfg, ip); Opens(rs, ForIp(cfg, rs, ip), k) && rs[n].at < rs[k].at + WINDOW
    ensures cfg.perIp <= k
  {
    var rs := AddressBurst(cfg, ip);
    NewIdentifierGetsThrough(cfg, ip, 0);
    assert Opens(rs, ForIp(cfg, rs, ip), 0);
  }

  /** The two windows open with the first request and with number `perIp`. */
  lemma AddressHasRoom(cfg: Config, ip: string, n: nat)
    requires Positive(cfg) && n < 2 * cfg.perIp
    ensures IpHasRoom(cfg, AddressBurst(cfg, ip), n)
  {
    var rs, limit := AddressBurst(cfg, ip), cfg.perIp;
    var counted := ForIp(cfg, rs, ip);
    if n < limit {
      Bounded(InWindow(rs, counted, n), 0, n);
    } else {
      forall m | m in InWindow(rs, counted, n) ensures limit <= m {
        var k: nat :| InSpan(rs, counted, k, m, rs[n].at);
        FirstWindowIsOver(cfg, ip, k, n);
      }
      Bounded(InWindow(rs, counted, n), limit, n);
    }
  }

  lemma {:induction false} Bounded(s: set<nat>, lo: nat, hi: nat)
    requires lo <= hi && forall m :: m in s ==> lo <= m < hi
    ensures |s| <= hi - lo
    decreases hi
  {
    if lo == hi {
      assert s == {};
    } else {
      Bounded(s - {hi - 1}, lo, hi - 1);
    }
  }

  /** The requests of the burst accepted in the hour that starts with the second one. */
  function AddressHour(cfg: Config, ip: string): set<nat>
    requires Positive(cfg)
  {
    AcceptedIn(cfg, AddressBurst(cfg, ip), ByIp(ip), WINDOW - 1, WINDOW - 1 + WINDOW)
  }

  lemma AddressCounts(cfg: Config, ip: string, n: nat)
    requires Positive(cfg) && ip != ""
    ensures n in AddressHour(cfg, ip) <==> 0 < n <= 2 * cfg.perIp - 1
  {
    if n < 2 * cfg.perIp {
      NewIdentifierGetsThrough(cfg, ip, n);
      AddressHasRoom(cfg, ip, n);
      AcceptedIff(cfg, AddressBurst(cfg, ip), n);
      NamesDiffer(n);
    }
  }

  /** For every limit, whatever the cooldown, an hour can accept twice the limit less one from one address. */
  lemma AddressBoundIsSharp(cfg: Config, ip: string)
    requires Positive(cfg) && ip != ""
    ensures Timed(AddressBurst(cfg, ip)) && |AddressHour(cfg, ip)| == 2 * Limit(cfg, ByIp(ip)) - 1
  {
    forall n: nat ensures n in AddressHour(cfg, ip) <==> 0 < n <= 2 * cfg.perIp - 1 { AddressCounts(cfg, ip, n); }
    FirstNumbers(AddressHour(cfg, ip), 2 * cfg.perIp - 1);
  }
}

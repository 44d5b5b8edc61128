/**
 * The rate limits on one-time codes: a cooldown lock per (purpose, identifier) and fixed-window
 * counters per identifier and per IP address, all kept in Redis with expiry times.
 */
module RateLimits {
  import opened Schema

  datatype Purpose = Login | LinkIdentity

  /** A Redis string that expires at `expiresAt`; for a counter `value` is the count. */
  datatype Entry = Entry(value: int, expiresAt: Time)

  type Store = map<string, Entry>

  const SECOND: Time := 1000
  const WINDOW: Time := 3600 * SECOND

  /** Configuration; all limits are positive. */
  datatype Config = Config(cooldown: Time, perIdentifier: int, perIp: int)

  ghost predicate Positive(cfg: Config) {
    cfg.cooldown > 0 && cfg.perIdentifier > 0 && cfg.perIp > 0
  }

  // ---------------------------------------------------------------- the Redis primitives

  predicate Alive(s: Store, key: string, now: Time) {
    key in s && now < s[key].expiresAt
  }

  /** MULTI INCR, EXPIRE NX: a missing or expired key starts at 1 with a fresh window; a living one keeps its expiry. */
  function Incremented(s: Store, key: string, window: Time, now: Time): Store {
    s[key := if Alive(s, key, now) then s[key].(value := s[key].value + 1) else Entry(1, now + window)]
  }

  /** SET NX EX. */
  function Locked(s: Store, key: string, duration: Time, now: Time): Store {
    if Alive(s, key, now) then s else s[key := Entry(1, now + duration)]
  }

  // ---------------------------------------------------------------- keys

  function PurposeName(p: Purpose): string {
    match p case Login => "LOGIN" case LinkIdentity => "LINK_IDENTITY"
  }

  function CooldownKey(p: Purpose, identifier: string): string { "otp:cd:" + PurposeName(p) + ":" + identifier }

  function IdentifierKey(identifier: string): string { "otp:rl:id:" + identifier }

  function IpKey(ip: string): string { "otp:rl:ip:" + ip }

  /** Keys of different limits never coincide, and a key determines what it counts. */
  lemma KeysDistinct(p: Purpose, q: Purpose, a: string, b: string)
    ensures CooldownKey(p, a) != IdentifierKey(b) && CooldownKey(p, a) != IpKey(b) && IdentifierKey(a) != IpKey(b)
    ensures CooldownKey(p, a) == CooldownKey(q, b) ==> p == q && a == b
    ensures IdentifierKey(a) == IdentifierKey(b) ==> a == b
    ensures IpKey(a) == IpKey(b) ==> a == b
  {
    assert CooldownKey(p, a)[4] == 'c' && IdentifierKey(b)[4] == 'r' && IpKey(b)[4] == 'r';
    assert IdentifierKey(a)[8] == 'd' && IpKey(b)[8] == 'p';
    assert IdentifierKey(a)[10..] == a && IdentifierKey(b)[10..] == b;
    assert IpKey(a)[10..] == a && IpKey(b)[10..] == b;
    if p == q {
      var prefix := "otp:cd:" + PurposeName(p) + ":";
      assert CooldownKey(p, a)[|prefix|..] == a && CooldownKey(q, b)[|prefix|..] == b;
    } else {
      assert CooldownKey(Login, a)[8] == 'O' && CooldownKey(Login, b)[8] == 'O';
      assert CooldownKey(LinkIdentity, a)[8] == 'I' && CooldownKey(LinkIdentity, b)[8] == 'I';
    }
  }

  // ---------------------------------------------------------------- one request

  /** A request for a code; an absent address counts no IP. */
  datatype Request = Request(purpose: Purpose, identifier: string, ip: Option<string>, at: Time)

  predicate GetsLock(s: Store, r: Request) {
    !Alive(s, CooldownKey(r.purpose, r.identifier), r.at)
  }

  function AfterLock(cfg: Config, s: Store, r: Request): Store {
    Locked(s, CooldownKey(r.purpose, r.identifier), cfg.cooldown, r.at)
  }

  function AfterIdentifier(cfg: Config, s: Store, r: Request): Store {
    Incremented(AfterLock(cfg, s, r), IdentifierKey(r.identifier), WINDOW, r.at)
  }

  function IdentifierHits(cfg: Config, s: Store, r: Request): int {
    AfterIdentifier(cfg, s, r)[IdentifierKey(r.identifier)].value
  }

  predicate CountsIp(r: Request) { r.ip.Some? && r.ip.value != "" }

  function AfterIp(cfg: Config, s: Store, r: Request): Store
    requires CountsIp(r)
  {
    Incremented(AfterIdentifier(cfg, s, r), IpKey(r.ip.value), WINDOW, r.at)
  }

  function IpHits(cfg: Config, s: Store, r: Request): int
    requires CountsIp(r)
  {
    AfterIp(cfg, s, r)[IpKey(r.ip.value)].value
  }

  /** `enforceRateLimits`: the store afterwards and the verdict. A refusal keeps what was counted before it. */
  function Enforced(cfg: Config, s: Store, r: Request): (Store, Result<()>) {
    if !GetsLock(s, r) then (s, Err(TooManyRequests))
    else if IdentifierHits(cfg, s, r) > cfg.perIdentifier then (AfterIdentifier(cfg, s, r), Err(TooManyRequests))
    else if CountsIp(r) && IpHits(cfg, s, r) > cfg.perIp then (AfterIp(cfg, s, r), Err(TooManyRequests))
    else (if CountsIp(r) then AfterIp(cfg, s, r) else AfterIdentifier(cfg, s, r),
      if r.identifier == "" then Err(BadRequest) else Ok(()))
  }

  // ---------------------------------------------------------------- runs

  ghost predicate Timed(rs: seq<Request>) {
    forall i, j :: 0 <= i < j < |rs| ==> rs[i].at <= rs[j].at
  }

  /** The store before request `n` of a run that starts with an empty Redis and no admin reset. */
  function StoreAt(cfg: Config, rs: seq<Request>, n: nat): Store
    requires n <= |rs|
  {
    if n == 0 then map[] else Enforced(cfg, StoreAt(cfg, rs, n - 1), rs[n - 1]).0
  }

  predicate Accepted(cfg: Config, rs: seq<Request>, n: nat) {
    n < |rs| && Enforced(cfg, StoreAt(cfg, rs, n), rs[n]).1.Ok?
  }

  // ---------------------------------------------------------------- the cooldown

  /** A lock taken is unchanged until it expires. */
  lemma LockUndisturbed(cfg: Config, s: Store, r: Request, key: string, p: Purpose, identifier: string)
    requires key == CooldownKey(p, identifier) && Alive(s, key, r.at)
    ensures key in Enforced(cfg, s, r).0 && Enforced(cfg, s, r).0[key] == s[key]
  {
    KeysDistinct(p, r.purpose, identifier, r.identifier);
    if CountsIp(r) { KeysDistinct(p, r.purpose, identifier, r.ip.value); }
  }

  lemma {:induction false} LockHolds(cfg: Config, rs: seq<Request>, i: nat, n: nat)
    requires Timed(rs) && i < n < |rs| && GetsLock(StoreAt(cfg, rs, i), rs[i])
    requires rs[n].at < rs[i].at + cfg.cooldown
    ensures var key := CooldownKey(rs[i].purpose, rs[i].identifier); var s := StoreAt(cfg, rs, n);
      key in s && s[key].expiresAt == rs[i].at + cfg.cooldown
    decreases n
  {
    var key := CooldownKey(rs[i].purpose, rs[i].identifier);
    var s := StoreAt(cfg, rs, n - 1);
    if n - 1 == i {
      LockTaken(cfg, s, rs[i]);
    } else {
      LockHolds(cfg, rs, i, n - 1);
      LockUndisturbed(cfg, s, rs[n - 1], key, rs[i].purpose, rs[i].identifier);
    }
  }

  lemma LockTaken(cfg: Config, s: Store, r: Request)
    requires GetsLock(s, r)
    ensures var key := CooldownKey(r.purpose, r.identifier); var s' := Enforced(cfg, s, r).0;
      key in s' && s'[key].expiresAt == r.at + cfg.cooldown
  {
    KeysDistinct(r.purpose, r.purpose, r.identifier, r.identifier);
    if CountsIp(r) { KeysDistinct(r.purpose, r.purpose, r.identifier, r.ip.value); }
  }

  /** Two accepted requests for one purpose and identifier are at least the cooldown apart. */
  lemma AcceptedAreSpaced(cfg: Config, rs: seq<Request>, i: nat, j: nat)
    requires Timed(rs) && i < j && Accepted(cfg, rs, i) && Accepted(cfg, rs, j)
    requires rs[i].purpose == rs[j].purpose && rs[i].identifier == rs[j].identifier
    ensures rs[j].at - rs[i].at >= cfg.cooldown
  {
    if rs[j].at < rs[i].at + cfg.cooldown { LockHolds(cfg, rs, i, j); }
  }

  // ---------------------------------------------------------------- the fixed windows

  /** What a counter key counts. */
  datatype Counter = ByIdentifier(identifier: string) | ByIp(ip: string)

  function Key(c: Counter): string {
    match c case ByIdentifier(v) => IdentifierKey(v) case ByIp(ip) => IpKey(ip)
  }

  function Limit(cfg: Config, c: Counter): int {
    match c case ByIdentifier(_) => cfg.perIdentifier case ByIp(_) => cfg.perIp
  }

  /** Whether the counter applies to the request at all. */
  predicate Concerns(r: Request, c: Counter) {
    match c case ByIdentifier(v) => r.identifier == v case ByIp(ip) => ip != "" && r.ip == Some(ip)
  }

  /** Whether the request gets as far as incrementing the counter. */
  predicate Hits(cfg: Config, s: Store, r: Request, c: Counter) {
    && Concerns(r, c) && GetsLock(s, r)
    && (c.ByIp? ==> IdentifierHits(cfg, s, r) <= cfg.perIdentifier)
  }

  /**
   * A request changes a counter only by hitting it, and then by one
   * increment; an accepted one stays within the limit.
   */
  lemma CounterStep(cfg: Config, s: Store, r: Request, c: Counter)
    ensures var (s', verdict) := Enforced(cfg, s, r);
      && (Hits(cfg, s, r, c) ==> Key(c) in s' && s'[Key(c)] == Incremented(s, Key(c), WINDOW, r.at)[Key(c)])
      && (!Hits(cfg, s, r, c) ==> (Key(c) in s' <==> Key(c) in s) && (Key(c) in s ==> s'[Key(c)] == s[Key(c)]))
      && (verdict.Ok? && Concerns(r, c) ==> Hits(cfg, s, r, c) && s'[Key(c)].value <= Limit(cfg, c))
  {
    match c {
      case ByIdentifier(v) => IdentifierStep(cfg, s, r, v);
      case ByIp(ip) => IpStep(cfg, s, r, ip);
    }
  }

  lemma IdentifierStep(cfg: Config, s: Store, r: Request, v: string)
    ensures var (s', verdict) := Enforced(cfg, s, r); var key := IdentifierKey(v);
      && (GetsLock(s, r) && r.identifier == v ==> key in s' && s'[key] == Incremented(s, key, WINDOW, r.at)[key])
      && (!(GetsLock(s, r) && r.identifier == v) ==> (key in s' <==> key in s) && (key in s ==> s'[key] == s[key]))
      && (verdict.Ok? && r.identifier == v ==> GetsLock(s, r) && s'[key].value <= cfg.perIdentifier)
  {
    KeysDistinct(r.purpose, r.purpose, r.identifier, v);
    if CountsIp(r) { KeysDistinct(r.purpose, r.purpose, v, r.ip.value); }
  }

  lemma IpStep(cfg: Config, s: Store, r: Request, ip: string)
    ensures var (s', verdict) := Enforced(cfg, s, r); var key := IpKey(ip);
      var hits := ip != "" && r.ip == Some(ip) && GetsLock(s, r) && IdentifierHits(cfg, s, r) <= cfg.perIdentifier;
      && (hits ==> key in s' && s'[key] == Incremented(s, key, WINDOW, r.at)[key])
      && (!hits ==> (key in s' <==> key in s) && (key in s ==> s'[key] == s[key]))
      && (verdict.Ok? && ip != "" && r.ip == Some(ip) ==> hits && s'[key].value <= cfg.perIp)
  {
    KeysDistinct(r.purpose, r.purpose, r.identifier, ip);
    if CountsIp(r) { KeysDistinct(r.purpose, r.purpose, r.ip.value, ip); }
  }

  predicate HitsAt(cfg: Config, rs: seq<Request>, n: nat, c: Counter) {
    n < |rs| && Hits(cfg, StoreAt(cfg, rs, n), rs[n], c)
  }

  /** The counter right after request `n`. */
  function After(cfg: Config, rs: seq<Request>, n: nat, c: Counter): Entry
    requires HitsAt(cfg, rs, n, c)
  {
    CounterStep(cfg, StoreAt(cfg, rs, n), rs[n], c);
    StoreAt(cfg, rs, n + 1)[Key(c)]
  }

  /** A hit lies inside its window, and the one that counts as number 1 opened it. */
  lemma HitInWindow(cfg: Config, rs: seq<Request>, n: nat, c: Counter)
    requires Timed(rs) && HitsAt(cfg, rs, n, c)
    ensures After(cfg, rs, n, c).expiresAt - WINDOW <= rs[n].at < After(cfg, rs, n, c).expiresAt
    ensures After(cfg, rs, n, c).value >= 1
    ensures After(cfg, rs, n, c).value == 1 ==> rs[n].at == After(cfg, rs, n, c).expiresAt - WINDOW
  {
    CounterStep(cfg, StoreAt(cfg, rs, n), rs[n], c);
    WindowStarted(cfg, rs, n, c);
  }

  /** A counter in the store was started by some earlier request, one window before its expiry, and has counted it. */
  lemma {:induction false} WindowStarted(cfg: Config, rs: seq<Request>, n: nat, c: Counter)
    requires Timed(rs) && n < |rs|
    ensures var s := StoreAt(cfg, rs, n);
      Key(c) in s ==> s[Key(c)].expiresAt - WINDOW <= rs[n].at && s[Key(c)].value >= 1
    decreases n
  {
    if n > 0 {
      WindowStarted(cfg, rs, n - 1, c);
      CounterStep(cfg, StoreAt(cfg, rs, n - 1), rs[n - 1], c);
    }
  }

  /** Between two hits the counter either counted on in the same window, or a whole later window began. */
  lemma {:induction false} CounterAdvances(cfg: Config, rs: seq<Request>, m: nat, n: nat, c: Counter)
    requires Timed(rs) && m < n < |rs| && HitsAt(cfg, rs, m, c)
    ensures var e := After(cfg, rs, m, c); var s := StoreAt(cfg, rs, n);
      && Key(c) in s
      && (s[Key(c)].expiresAt == e.expiresAt ==> s[Key(c)].value >= e.value)
      && (s[Key(c)].expiresAt == e.expiresAt || s[Key(c)].expiresAt >= e.expiresAt + WINDOW)
    decreases n
  {
    CounterStep(cfg, StoreAt(cfg, rs, m), rs[m], c);
    if n > m + 1 {
      CounterAdvances(cfg, rs, m, n - 1, c);
      CounterStep(cfg, StoreAt(cfg, rs, n - 1), rs[n - 1], c);
    }
  }

  lemma HitsAdvance(cfg: Config, rs: seq<Request>, m: nat, n: nat, c: Counter)
    requires Timed(rs) && m < n && HitsAt(cfg, rs, m, c) && HitsAt(cfg, rs, n, c)
    ensures var e, e' := After(cfg, rs, m, c), After(cfg, rs, n, c);
      if e'.expiresAt == e.expiresAt then e'.value > e.value else e'.expiresAt >= e.expiresAt + WINDOW
  {
    CounterAdvances(cfg, rs, m, n, c);
    CounterStep(cfg, StoreAt(cfg, rs, n), rs[n], c);
  }

  // ---------------------------------------------------------------- how many are accepted

  function AcceptedIn(cfg: Config, rs: seq<Request>, c: Counter, from: Time, to: Time): set<nat> {
    set n: nat | n < |rs| && Accepted(cfg, rs, n) && Concerns(rs[n], c) && from <= rs[n].at < to
  }

  lemma AcceptedHits(cfg: Config, rs: seq<Request>, n: nat, c: Counter)
    requires Accepted(cfg, rs, n) && Concerns(rs[n], c)
    ensures HitsAt(cfg, rs, n, c) && After(cfg, rs, n, c).value <= Limit(cfg, c)
  {
    CounterStep(cfg, StoreAt(cfg, rs, n), rs[n], c);
  }

  // ---------------------------------------------------------------- counting over windows, abstractly

  /** A hit on a counter: when, the expiry of its window, and which number it got there. */
  datatype Hit = Hit(at: Time, expiry: Time, number: int)

  type HitLog = map<nat, Hit>

  /** What the hits of one counter look like: each in its window, the numbers rising, the windows apart. */
  ghost predicate Windowed(h: HitLog) {
    && (forall n :: n in h ==> InWindow(h[n]))
    && (forall m, n :: m in h && n in h && m < n ==> Advances(h[m], h[n]))
  }

  /** The hit counted as number 1 opened the window. */
  ghost predicate InWindow(a: Hit) {
    && a.expiry - WINDOW <= a.at < a.expiry
    && a.number >= 1 && (a.number == 1 ==> a.at == a.expiry - WINDOW)
  }

  ghost predicate Advances(a: Hit, b: Hit) {
    if b.expiry == a.expiry then b.number > a.number else b.expiry >= a.expiry + WINDOW
  }

  lemma {:induction false} Greatest(s: set<nat>) returns (g: nat)
    requires s != {}
    ensures g in s && forall n :: n in s ==> n <= g
    decreases |s|
  {
    var i :| i in s;
    g := i;
    var rest := s - {i};
    if rest != {} {
      var h := Greatest(rest);
      g := if h > i then h else i;
    }
    assert forall n :: n in s ==> n == i || n in rest;
  }

  lemma {:induction false} Least(s: set<nat>) returns (l: nat)
    requires s != {}
    ensures l in s && forall n :: n in s ==> l <= n
    decreases |s|
  {
    var i :| i in s;
    l := i;
    var rest := s - {i};
    if rest != {} {
      var h := Least(rest);
      l := if h < i then h else i;
    }
    assert forall n :: n in s ==> n == i || n in rest;
  }

  /** Within one window the last of several hits has counted them all. */
  lemma {:induction false} LastCountsAll(h: HitLog, s: set<nat>, expiry: Time, least: int) returns (last: nat)
    requires Windowed(h) && s != {} && forall n :: n in s ==> n in h && h[n].expiry == expiry && h[n].number >= least
    ensures last in s && (forall n :: n in s ==> n <= last) && h[last].number >= least + |s| - 1
    decreases |s|
  {
    last := Greatest(s);
    var rest := s - {last};
    if rest != {} {
      var before := LastCountsAll(h, rest, expiry, least);
      assert before in s && before < last && last in s;
      assert Advances(h[before], h[last]);
      assert |rest| == |s| - 1;
    } else {
      assert s == {last};
    }
  }

  /** An hour meets at most two windows; if two, the hit that opened the first came before the hour. */
  lemma HourBound(h: HitLog, s: set<nat>, limit: int, from: Time)
    requires Windowed(h) && limit > 0
    requires forall n :: n in s ==> n in h && h[n].number <= limit && from <= h[n].at < from + WINDOW
    ensures |s| <= 2 * limit - 1
  {
    if s != {} {
      var first := Least(s);
      var expiry := h[first].expiry;
      var s1 := set n | n in s && h[n].expiry == expiry;
      var s2 := s - s1;
      assert first in s1;
      assert s1 + s2 == s;
      if s2 == {} {
        var last := LastCountsAll(h, s1, expiry, 1);
        assert s1 + {} == s1;
      } else {
        SecondWindow(h, s2, first, from);
        var last1 := LastCountsAll(h, s1, expiry, 2);
      }
    }
  }

  lemma SecondWindow(h: HitLog, s2: set<nat>, first: nat, from: Time)
    requires Windowed(h) && s2 != {} && first in h && from <= h[first].at
    requires forall n :: n in s2 ==> n in h && first < n && h[n].expiry != h[first].expiry && h[n].at < from + WINDOW
    ensures h[first].expiry - WINDOW < from
    ensures exists last :: last in s2 && h[last].number >= |s2|
  {
    var second :| second in s2;
    forall n | n in s2 ensures h[n].expiry == h[second].expiry {
      assert Advances(h[first], h[n]) && Advances(h[first], h[second]);
      if n < second { assert Advances(h[n], h[second]); }
      if second < n { assert Advances(h[second], h[n]); }
    }
    assert Advances(h[first], h[second]);
    var last := LastCountsAll(h, s2, h[second].expiry, 1);
  }

  /** One fixed window accepts at most the limit. */
  lemma WindowBound(h: HitLog, s: set<nat>, limit: int, expiry: Time)
    requires Windowed(h) && limit > 0
    requires forall n :: n in s ==> n in h && h[n].number <= limit && h[n].expiry == expiry
    ensures |s| <= limit
  {
    if s != {} { var last := LastCountsAll(h, s, expiry, 1); }
  }

  // ---------------------------------------------------------------- the bounds

  function HitsOn(cfg: Config, rs: seq<Request>, c: Counter): HitLog {
    map n: nat | n < |rs| && HitsAt(cfg, rs, n, c) ::
      Hit(rs[n].at, After(cfg, rs, n, c).expiresAt, After(cfg, rs, n, c).value)
  }

  lemma HitsAreWindowed(cfg: Config, rs: seq<Request>, c: Counter)
    requires Timed(rs)
    ensures Windowed(HitsOn(cfg, rs, c))
  {
    var h := HitsOn(cfg, rs, c);
    forall n | n in h ensures InWindow(h[n]) { HitInWindow(cfg, rs, n, c); }
    forall m, n | m in h && n in h && m < n ensures Advances(h[m], h[n]) { HitsAdvance(cfg, rs, m, n, c); }
  }

  /**
   * Any hour, wherever it starts, accepts for one identifier (over both purposes), or for one IP address,
   * at most twice the limit less one.
   */
  lemma HourAcceptsAtMost(cfg: Config, rs: seq<Request>, c: Counter, from: Time)
    requires Timed(rs) && Positive(cfg)
    ensures |AcceptedIn(cfg, rs, c, from, from + WINDOW)| <= 2 * Limit(cfg, c) - 1
  {
    var s := AcceptedIn(cfg, rs, c, from, from + WINDOW);
    HitsAreWindowed(cfg, rs, c);
    forall n | n in s
      ensures n in HitsOn(cfg, rs, c) && HitsOn(cfg, rs, c)[n].number <= Limit(cfg, c)
    {
      AcceptedHits(cfg, rs, n, c);
    }
    HourBound(HitsOn(cfg, rs, c), s, Limit(cfg, c), from);
  }

  // ---------------------------------------------------------------- the hourly bound is attained

  /**
   * One request that opens a window, then a burst of requests one
   * cooldown apart with its middle where the next opens.
   */
  function BurstTime(cfg: Config, n: nat): Time {
    if n == 0 then 0 else WINDOW + (n - cfg.perIdentifier) * cfg.cooldown
  }

  function Burst(cfg: Config): seq<Request>
    requires Positive(cfg)
  {
    seq(2 * cfg.perIdentifier, n requires 0 <= n => Request(Login, "a", None, BurstTime(cfg, n)))
  }

  /** The cooldown is short enough for that many codes in an hour to one purpose at all. */
  ghost predicate FitsAnHour(cfg: Config) {
    Positive(cfg) && cfg.cooldown <= WINDOW && (2 * cfg.perIdentifier - 2) * cfg.cooldown < WINDOW
  }

  lemma BurstSteps(cfg: Config, n: nat)
    ensures n > 0 ==> BurstTime(cfg, n + 1) == BurstTime(cfg, n) + cfg.cooldown
  {
    assert (n + 1 - cfg.perIdentifier) * cfg.cooldown == (n - cfg.perIdentifier) * cfg.cooldown + cfg.cooldown;
  }

  lemma {:induction false} BurstRises(cfg: Config, m: nat, n: nat)
    requires FitsAnHour(cfg) && 0 < m <= n
    ensures BurstTime(cfg, m) + (n - m) * cfg.cooldown == BurstTime(cfg, n) && BurstTime(cfg, m) <= BurstTime(cfg, n)
    decreases n
  {
    if m < n {
      BurstRises(cfg, m, n - 1);
      BurstSteps(cfg, n - 1);
      assert (n - m) * cfg.cooldown == (n - 1 - m) * cfg.cooldown + cfg.cooldown;
    }
  }

  /**
   * Where the requests of the burst fall: the first leaves the
   * cooldown room, and number `limit` meets the new window.
   */
  lemma BurstPlaces(cfg: Config, n: nat)
    requires FitsAnHour(cfg) && 0 < n < 2 * cfg.perIdentifier
    ensures cfg.cooldown <= BurstTime(cfg, 1) <= BurstTime(cfg, n) < BurstTime(cfg, 1) + WINDOW
    ensures n < cfg.perIdentifier ==> BurstTime(cfg, n) < WINDOW
    ensures n == cfg.perIdentifier ==> BurstTime(cfg, n) == WINDOW
    ensures n > cfg.perIdentifier ==> WINDOW <= BurstTime(cfg, n) < 2 * WINDOW
  {
    var limit := cfg.perIdentifier;
    HalfAnHour(cfg.perIdentifier - 1, cfg.cooldown);
    BurstRises(cfg, 1, n);
    BurstRises(cfg, n, 2 * limit - 1);
    BurstRises(cfg, 1, 2 * limit - 1);
    assert BurstTime(cfg, limit) == WINDOW;
    BurstRises(cfg, 1, limit);
    if n < limit {
      BurstRises(cfg, n, limit - 1);
      BurstSteps(cfg, limit - 1);
    } else {
      BurstRises(cfg, limit, n);
    }
  }

  /** If twice `half` cooldowns fit the hour, so do `half` and one more. */
  lemma HalfAnHour(half: nat, cooldown: Time)
    requires 0 < cooldown <= WINDOW && (2 * half) * cooldown < WINDOW
    ensures half * cooldown + cooldown <= WINDOW
  {
    assert (2 * half) * cooldown == half * cooldown + half * cooldown;
    if half > 0 { assert half * cooldown >= cooldown; }
  }

  function BurstStore(cfg: Config, n: nat): Store
    requires n > 0
  {
    map[
      CooldownKey(Login, "a") := Entry(1, BurstTime(cfg, n - 1) + cfg.cooldown),
      IdentifierKey("a") :=
        if n <= cfg.perIdentifier then Entry(n, WINDOW) else Entry(n - cfg.perIdentifier, 2 * WINDOW)]
  }

  /** Every request of the burst finds the lock expired and a counter with room. */
  lemma BurstStep(cfg: Config, n: nat)
    requires FitsAnHour(cfg) && n < 2 * cfg.perIdentifier
    ensures Enforced(cfg, if n == 0 then map[] else BurstStore(cfg, n), Burst(cfg)[n]) ==
      (BurstStore(cfg, n + 1), Ok(()))
  {
    var s, r := if n == 0 then map[] else BurstStore(cfg, n), Burst(cfg)[n];
    KeysDistinct(Login, Login, "a", "a");
    if n > 0 {
      BurstPlaces(cfg, n);
      if n > 1 { BurstSteps(cfg, n - 1); }
    }
    assert GetsLock(s, r);
    assert AfterIdentifier(cfg, s, r) == BurstStore(cfg, n + 1);
  }

  lemma {:induction false} BurstAccepted(cfg: Config, n: nat)
    requires FitsAnHour(cfg) && n < 2 * cfg.perIdentifier
    ensures StoreAt(cfg, Burst(cfg), n) == if n == 0 then map[] else BurstStore(cfg, n)
    ensures Accepted(cfg, Burst(cfg), n)
    decreases n
  {
    if n > 0 {
      BurstAccepted(cfg, n - 1);
      BurstStep(cfg, n - 1);
    }
    BurstStep(cfg, n);
  }

  lemma BurstTimed(cfg: Config)
    requires FitsAnHour(cfg)
    ensures Timed(Burst(cfg))
  {
    var rs := Burst(cfg);
    forall i, j | 0 <= i < j < |rs| ensures rs[i].at <= rs[j].at {
      if i == 0 { BurstPlaces(cfg, j); } else { BurstRises(cfg, i, j); }
    }
  }

  /** The requests of the burst accepted in the hour that starts with the second one. */
  function BurstHour(cfg: Config): set<nat>
    requires Positive(cfg)
  {
    AcceptedIn(cfg, Burst(cfg), ByIdentifier("a"), BurstTime(cfg, 1), BurstTime(cfg, 1) + WINDOW)
  }

  lemma BurstCounts(cfg: Config, n: nat)
    requires FitsAnHour(cfg)
    ensures n in BurstHour(cfg) <==> 0 < n < 2 * cfg.perIdentifier
  {
    if n < 2 * cfg.perIdentifier {
      BurstAccepted(cfg, n);
      BurstPlaces(cfg, if n == 0 then 1 else n);
    }
  }

  /** For every limit the bound is attained, if the cooldown is short enough for that many codes in an hour. */
  lemma HourBoundIsSharp(cfg: Config)
    requires FitsAnHour(cfg)
    ensures Timed(Burst(cfg)) && |BurstHour(cfg)| == 2 * Limit(cfg, ByIdentifier("a")) - 1
  {
    BurstTimed(cfg);
    FirstNumbers(BurstHour(cfg), 2 * cfg.perIdentifier - 1) by {
      forall n: nat ensures n in BurstHour(cfg) <==> 0 < n < 2 * cfg.perIdentifier { BurstCounts(cfg, n); }
    }
  }

  lemma FirstNumbers(s: set<nat>, count: nat)
    requires forall n :: n in s <==> 0 < n <= count
    ensures |s| == count
  {
    var all := seq(count, i requires 0 <= i => i + 1);
    forall n: nat ensures n in s <==> n in all {
      if 0 < n <= count { assert all[n - 1] == n; }
    }
    assert s == Elements(all);
    DistinctCount(all);
  }

  function AcceptedInWindow(cfg: Config, rs: seq<Request>, c: Counter, expiry: Time): set<nat> {
    set n: nat | n < |rs| && Accepted(cfg, rs, n) && Concerns(rs[n], c) && HitsAt(cfg, rs, n, c)
      && After(cfg, rs, n, c).expiresAt == expiry
  }

  /** One fixed window of a counter accepts at most its limit. */
  lemma WindowAcceptsAtMost(cfg: Config, rs: seq<Request>, c: Counter, expiry: Time)
    requires Timed(rs) && Positive(cfg)
    ensures |AcceptedInWindow(cfg, rs, c, expiry)| <= Limit(cfg, c)
  {
    var s := AcceptedInWindow(cfg, rs, c, expiry);
    HitsAreWindowed(cfg, rs, c);
    forall n | n in s
      ensures n in HitsOn(cfg, rs, c) && HitsOn(cfg, rs, c)[n].number <= Limit(cfg, c)
    {
      AcceptedHits(cfg, rs, n, c);
    }
    WindowBound(HitsOn(cfg, rs, c), s, Limit(cfg, c), expiry);
  }

  // ---------------------------------------------------------------- the services

  class RedisService {
    var store: Store

    constructor ()
      ensures store == map[]
    {
      store := map[];
    }

    method IncrementWithWindow(key: string, window: Time, now: Time) returns (count: int)
      modifies this
      ensures store == Incremented(old(store), key, window, now) && count == store[key].value
      ensures store == old(store)[key := Entry(count, store[key].expiresAt)]
      ensures if key in old(store) && now < old(store)[key].expiresAt
        then count == old(store)[key].value + 1 && store[key].expiresAt == old(store)[key].expiresAt
        else count == 1 && store[key].expiresAt == now + window
    {
      if key in store && store[key].expiresAt <= now { store := store - {key}; }
      // INCR creates a missing key at 1, without an expiry ...
      count := if key in store then store[key].value + 1 else 1;
      // ... and EXPIRE NX gives it one only then.
      store := store[key := Entry(count, if key in store then store[key].expiresAt else now + window)];
    }

    method AcquireCooldown(key: string, duration: Time, now: Time) returns (got: bool)
      modifies this
      ensures store == Locked(old(store), key, duration, now) && got == !Alive(old(store), key, now)
      ensures store == if got then old(store)[key := Entry(1, now + duration)] else old(store)
      ensures got <==> !(key in old(store) && now < old(store)[key].expiresAt)
    {
      got := !Alive(store, key, now);
      if got { store := store[key := Entry(1, now + duration)]; }
    }
  }

  class OtpRateLimiter {
    const redis: RedisService
    const cfg: Config

    constructor (cfg: Config)
      ensures this.cfg == cfg && fresh(redis) && redis.store == map[]
    {
      this.cfg := cfg;
      redis := new RedisService();
    }

    method EnforceRateLimits(r: Request) returns (verdict: Result<()>)
      modifies redis
      ensures (redis.store, verdict) == Enforced(cfg, old(redis.store), r)
    {
      var got := redis.AcquireCooldown(CooldownKey(r.purpose, r.identifier), cfg.cooldown, r.at);
      if !got { return Err(TooManyRequests); }
      var idHits := redis.IncrementWithWindow(IdentifierKey(r.identifier), WINDOW, r.at);
      if idHits > cfg.perIdentifier { return Err(TooManyRequests); }
      if CountsIp(r) {
        var ipHits := redis.IncrementWithWindow(IpKey(r.ip.value), WINDOW, r.at);
        if ipHits > cfg.perIp { return Err(TooManyRequests); }
      }
      verdict := if r.identifier == "" then Err(BadRequest) else Ok(());
    }
  }
}

/**
 * Refresh tokens with rotation and reuse detection. Rows are kept in creation order and a row's
 * id is its position. SHA-256 is taken to be injective, so a presented raw token stands for its hash.
 */
module RefreshTokens {
  import opened Schema

  datatype Token = Token(hash: string, customer: Id, family: Id, expiresAt: Time, revokedAt: Option<Time>,
    replacedBy: Option<nat>)

  /** The token table, the customers' statuses, and a bound on the family ids handed out so far. */
  datatype Sessions = Sessions(tokens: seq<Token>, status: map<Id, Status>, nextFamily: Id)

  // ---------------------------------------------------------------- what each request does

  /** `findUnique({ tokenHash })`. */
  ghost function Find(tokens: seq<Token>, hash: string): Option<nat> {
    if exists i :: 0 <= i < |tokens| && tokens[i].hash == hash
    then var i :| 0 <= i < |tokens| && tokens[i].hash == hash; Some(i)
    else None
  }

  /** `updateMany({ ..., revokedAt: null }, { revokedAt: now })`. */
  function RevokeWhere(tokens: seq<Token>, p: Token -> bool, now: Time): seq<Token> {
    seq(|tokens|, i requires 0 <= i < |tokens| =>
      if p(tokens[i]) && tokens[i].revokedAt.None? then tokens[i].(revokedAt := Some(now)) else tokens[i])
  }

  function OfFamily(family: Id): Token -> bool { (t: Token) => t.family == family }

  function OfCustomer(c: Id): Token -> bool { (t: Token) => t.customer == c }

  function WithHash(hash: string): Token -> bool { (t: Token) => t.hash == hash }

  /** Creating a row; the unique index on the hash may refuse it. */
  ghost function Issued(tokens: seq<Token>, t: Token): Result<seq<Token>> {
    if Find(tokens, t.hash).Some? then Err(Internal) else Ok(tokens + [t])
  }

  /** `rotate`: the new table, and whether a new pair was handed out. */
  ghost function Rotated(s: Sessions, hash: string, newHash: string, now: Time, ttl: Time): (seq<Token>, Result<()>) {
    match Find(s.tokens, hash)
    case None => (s.tokens, Err(Unauthorized))
    case Some(i) =>
      var t := s.tokens[i];
      if t.revokedAt.Some? then (RevokeWhere(s.tokens, OfFamily(t.family), now), Err(Unauthorized))
      else if t.expiresAt <= now then (s.tokens, Err(Unauthorized))
      else if !IsActive(s.status, t.customer) then (s.tokens, Err(Unauthorized))
      else
        match Issued(s.tokens, Token(newHash, t.customer, t.family, now + ttl, None, None))
        case Err(e) => (s.tokens, Err(e))
        case Ok(tokens) => (tokens[i := t.(revokedAt := Some(now), replacedBy := Some(|s.tokens|))], Ok(()))
  }

  predicate IsActive(status: map<Id, Status>, c: Id) {
    c in status && status[c] == Active
  }

  datatype Step =
    | Login(customer: Id, hash: string, now: Time, ttl: Time)
    | Rotate(hash: string, newHash: string, now: Time, ttl: Time)
    | Logout(hash: string, now: Time)
    | LogoutEverywhere(customer: Id, now: Time)
    | RevokeSession(customer: Id, session: nat, now: Time)
    | Activate(customer: Id)
    | Block(customer: Id, now: Time)
    | Unblock(customer: Id)
    | Merge(source: Id, now: Time)

  /** The effect of one atomic request; a refused request changes nothing. */
  ghost function Apply(s: Sessions, step: Step): Sessions {
    match step
    case Login(c, hash, now, ttl) =>
      (match Issued(s.tokens, Token(hash, c, s.nextFamily, now + ttl, None, None))
       case Err(_) => s
       case Ok(tokens) => s.(tokens := tokens, nextFamily := s.nextFamily + 1))
    case Rotate(hash, newHash, now, ttl) => s.(tokens := Rotated(s, hash, newHash, now, ttl).0)
    case Logout(hash, now) => s.(tokens := RevokeWhere(s.tokens, WithHash(hash), now))
    case LogoutEverywhere(c, now) => s.(tokens := RevokeWhere(s.tokens, OfCustomer(c), now))
    case RevokeSession(c, i, now) =>
      if i < |s.tokens| && s.tokens[i].customer == c
      then s.(tokens := s.tokens[i := s.tokens[i].(revokedAt := Earliest(s.tokens[i].revokedAt, now))]) else s
    case Activate(c) => if c !in s.status || s.status[c] == Imported then s.(status := s.status[c := Active]) else s
    case Block(c, now) =>
      if c in s.status && s.status[c] != Merged && s.status[c] != Blocked
      then s.(status := s.status[c := Blocked], tokens := RevokeWhere(s.tokens, OfCustomer(c), now)) else s
    case Unblock(c) => if c in s.status && s.status[c] == Blocked then s.(status := s.status[c := Active]) else s
    case Merge(c, now) =>
      if c in s.status && s.status[c] != Merged
      then s.(status := s.status[c := Merged], tokens := RevokeWhere(s.tokens, OfCustomer(c), now)) else s
  }

  /** An already revoked row keeps its time. */
  function Earliest(revokedAt: Option<Time>, now: Time): Option<Time> {
    if revokedAt.Some? then revokedAt else Some(now)
  }

  ghost function Run(s: Sessions, steps: seq<Step>): Sessions
    decreases |steps|
  {
    if steps == [] then s else Run(Apply(s, steps[0]), steps[1..])
  }

  // ---------------------------------------------------------------- the shape of families

  /** `replacedBy` leads from each row to the next row of its family, and from the last row nowhere. */
  ghost predicate FamiliesAreChains(tokens: seq<Token>) {
    forall i :: 0 <= i < |tokens| ==> Linked(tokens, i)
  }

  ghost predicate Linked(tokens: seq<Token>, i: nat)
    requires i < |tokens|
  {
    match tokens[i].replacedBy
    case None => forall j :: i < j < |tokens| ==> tokens[j].family != tokens[i].family
    case Some(n) =>
      && i < n < |tokens| && tokens[n].family == tokens[i].family && tokens[i].revokedAt.Some?
      && forall j :: i < j < n ==> tokens[j].family != tokens[i].family
  }

  ghost predicate Valid(s: Sessions) {
    && FamiliesAreChains(s.tokens)
    && (forall i, j :: 0 <= i < j < |s.tokens| ==> s.tokens[i].hash != s.tokens[j].hash)
    && (forall i, j :: 0 <= i < j < |s.tokens| && s.tokens[i].family == s.tokens[j].family ==>
         s.tokens[i].customer == s.tokens[j].customer)
    && (forall i :: 0 <= i < |s.tokens| ==> s.tokens[i].family < s.nextFamily)
  }

  predicate Live(tokens: seq<Token>, i: nat) {
    i < |tokens| && tokens[i].revokedAt.None?
  }

  function LiveOf(tokens: seq<Token>, c: Id): set<nat> {
    set i: nat | i < |tokens| && tokens[i].customer == c && tokens[i].revokedAt == None
  }

  ghost predicate Dead(tokens: seq<Token>, family: Id) {
    forall i :: 0 <= i < |tokens| && tokens[i].family == family ==> !Live(tokens, i)
  }

  /** A family has at most one live token, and it is the family's newest. */
  lemma OneLiveTokenPerFamily(s: Sessions, i: nat, j: nat)
    requires Valid(s) && Live(s.tokens, i) && j < |s.tokens| && s.tokens[j].family == s.tokens[i].family
    ensures j <= i
    ensures Live(s.tokens, j) ==> i == j
  {
    assert Linked(s.tokens, i) && Linked(s.tokens, j);
  }

  lemma RevokingKeepsValid(s: Sessions, p: Token -> bool, now: Time)
    requires Valid(s)
    ensures Valid(s.(tokens := RevokeWhere(s.tokens, p, now)))
  {
    var tokens := RevokeWhere(s.tokens, p, now);
    forall i | 0 <= i < |tokens| ensures Linked(tokens, i) {
      assert Linked(s.tokens, i);
    }
  }

  /** Appending a row to a family and pointing the family's newest row at it extends the chain by one. */
  lemma ChainGrows(s: Sessions, i: nat, t: Token, now: Time)
    requires Valid(s) && Live(s.tokens, i)
    requires t.family == s.tokens[i].family && t.replacedBy.None?
    ensures var rotated := s.tokens[i].(revokedAt := Some(now), replacedBy := Some(|s.tokens|));
      FamiliesAreChains((s.tokens + [t])[i := rotated])
  {
    var tokens := (s.tokens + [t])[i := s.tokens[i].(revokedAt := Some(now), replacedBy := Some(|s.tokens|))];
    assert Linked(s.tokens, i);
    forall j | 0 <= j < |tokens| ensures Linked(tokens, j) {
      if j < |s.tokens| { assert Linked(s.tokens, j); }
    }
  }

  lemma RotationKeepsValid(s: Sessions, hash: string, newHash: string, now: Time, ttl: Time)
    requires Valid(s)
    ensures Valid(s.(tokens := Rotated(s, hash, newHash, now, ttl).0))
  {
    match Find(s.tokens, hash) {
      case None =>
      case Some(i) =>
        var t := s.tokens[i];
        if t.revokedAt.Some? {
          RevokingKeepsValid(s, OfFamily(t.family), now);
        } else if Rotated(s, hash, newHash, now, ttl).1.Ok? {
          ChainGrows(s, i, Token(newHash, t.customer, t.family, now + ttl, None, None), now);
        }
    }
  }

  lemma LoginKeepsValid(s: Sessions, c: Id, hash: string, now: Time, ttl: Time)
    requires Valid(s)
    ensures Valid(Apply(s, Login(c, hash, now, ttl)))
  {
    var s' := Apply(s, Login(c, hash, now, ttl));
    forall i | 0 <= i < |s'.tokens| ensures Linked(s'.tokens, i) {
      if i < |s.tokens| { assert Linked(s.tokens, i); }
    }
  }

  /** Every request keeps the chains, the unique hashes and one customer per family. */
  lemma StepKeepsValid(s: Sessions, step: Step)
    requires Valid(s)
    ensures Valid(Apply(s, step))
  {
    match step {
      case Login(c, hash, now, ttl) => LoginKeepsValid(s, c, hash, now, ttl);
      case Rotate(hash, newHash, now, ttl) => RotationKeepsValid(s, hash, newHash, now, ttl);
      case Logout(hash, now) => RevokingKeepsValid(s, WithHash(hash), now);
      case LogoutEverywhere(c, now) => RevokingKeepsValid(s, OfCustomer(c), now);
      case RevokeSession(c, i, now) =>
        var s' := Apply(s, step);
        forall j | 0 <= j < |s'.tokens| ensures Linked(s'.tokens, j) {
          assert Linked(s.tokens, j);
        }
      case Activate(_) =>
      case Block(c, now) => RevokingKeepsValid(s, OfCustomer(c), now);
      case Unblock(_) =>
      case Merge(c, now) => RevokingKeepsValid(s, OfCustomer(c), now);
    }
  }

  /**
   * Hence over every run, starting from no tokens: families are simple
   * paths in creation order with at most one live end.
   */
  lemma {:induction false} RunKeepsValid(s: Sessions, steps: seq<Step>)
    requires Valid(s)
    ensures Valid(Run(s, steps))
    decreases |steps|
  {
    if steps != [] {
      StepKeepsValid(s, steps[0]);
      RunKeepsValid(Apply(s, steps[0]), steps[1..]);
    }
  }

  // ---------------------------------------------------------------- reuse detection

  /** Rows are never deleted, never un-revoked, and never change hash, customer or family. */
  lemma StepKeepsRows(s: Sessions, step: Step, i: nat)
    requires i < |s.tokens|
    ensures var tokens := Apply(s, step).tokens;
      && i < |tokens| && tokens[i].hash == s.tokens[i].hash && tokens[i].customer == s.tokens[i].customer
      && tokens[i].family == s.tokens[i].family
      && (s.tokens[i].revokedAt.Some? ==> tokens[i].revokedAt == s.tokens[i].revokedAt)
  {}

  /** A new row joins a used family only by rotating a live token of it. */
  lemma DeadFamilyStaysDead(s: Sessions, step: Step, family: Id)
    requires Valid(s) && family < s.nextFamily && Dead(s.tokens, family)
    ensures Dead(Apply(s, step).tokens, family) && family < Apply(s, step).nextFamily
  {
    var s' := Apply(s, step);
    if step.Rotate? && Find(s.tokens, step.hash).Some? {
      var k := Find(s.tokens, step.hash).value;
      assert Live(s.tokens, k) ==> s.tokens[k].family != family;
    }
    forall i | 0 <= i < |s'.tokens| && s'.tokens[i].family == family ensures !Live(s'.tokens, i) {
      if i < |s.tokens| {
        StepKeepsRows(s, step, i);
        assert !Live(s.tokens, i);
      }
    }
  }

  lemma {:induction false} DeadFamilyNeverRevives(s: Sessions, steps: seq<Step>, family: Id)
    requires Valid(s) && family < s.nextFamily && Dead(s.tokens, family)
    ensures Dead(Run(s, steps).tokens, family)
    decreases |steps|
  {
    if steps != [] {
      StepKeepsValid(s, steps[0]);
      DeadFamilyStaysDead(s, steps[0], family);
      DeadFamilyNeverRevives(Apply(s, steps[0]), steps[1..], family);
    }
  }

  lemma FindIs(s: Sessions, i: nat)
    requires Valid(s) && i < |s.tokens|
    ensures Find(s.tokens, s.tokens[i].hash) == Some(i)
  {}

  /**
   * Presenting a revoked token, at any time, ends its family for
   * good: nothing after it gets a token of that family.
   */
  lemma ReuseEndsFamily(s: Sessions, i: nat, newHash: string, now: Time, ttl: Time, later: seq<Step>)
    requires Valid(s) && i < |s.tokens| && s.tokens[i].revokedAt.Some?
    ensures var s' := Apply(s, Rotate(s.tokens[i].hash, newHash, now, ttl));
      && Rotated(s, s.tokens[i].hash, newHash, now, ttl).1 == Err(Unauthorized)
      && Dead(Run(s', later).tokens, s.tokens[i].family)
  {
    FindIs(s, i);
    StepKeepsValid(s, Rotate(s.tokens[i].hash, newHash, now, ttl));
    DeadFamilyNeverRevives(Apply(s, Rotate(s.tokens[i].hash, newHash, now, ttl)), later, s.tokens[i].family);
  }

  // ---------------------------------------------------------------- merged customers

  lemma {:induction false} MergedIsAbsorbing(s: Sessions, steps: seq<Step>, c: Id)
    requires c in s.status && s.status[c] == Merged
    ensures c in Run(s, steps).status && Run(s, steps).status[c] == Merged
    decreases |steps|
  {
    if steps != [] { MergedIsAbsorbing(Apply(s, steps[0]), steps[1..], c); }
  }

  /** Once merged, a customer's tokens never rotate, whichever was issued when and whatever happens in between. */
  lemma MergedNeverRotates(s: Sessions, steps: seq<Step>, c: Id, i: nat, newHash: string, now: Time, ttl: Time)
    requires Valid(s) && c in s.status && s.status[c] == Merged
    ensures var s' := Run(s, steps);
      i < |s'.tokens| && s'.tokens[i].customer == c ==>
        Rotated(s', s'.tokens[i].hash, newHash, now, ttl).1 == Err(Unauthorized)
  {
    MergedIsAbsorbing(s, steps, c);
    RunKeepsValid(s, steps);
    var s' := Run(s, steps);
    if i < |s'.tokens| { FindIs(s', i); }
  }

  /** The converse: a live, unexpired token of an active customer does rotate, to a live token of the same family. */
  lemma LiveTokenRotates(s: Sessions, i: nat, newHash: string, now: Time, ttl: Time)
    requires Valid(s) && Live(s.tokens, i) && Find(s.tokens, newHash).None?
    ensures var (tokens, r) := Rotated(s, s.tokens[i].hash, newHash, now, ttl);
      && (r.Ok? <==> now < s.tokens[i].expiresAt && IsActive(s.status, s.tokens[i].customer))
      && (r.Ok? ==> Live(tokens, |s.tokens|) && tokens[|s.tokens|].family == s.tokens[i].family && !Live(tokens, i))
  {
    FindIs(s, i);
  }

  // ---------------------------------------------------------------- the service

  class TokenService {
    var tokens: seq<Token>
    var status: map<Id, Status>
    var nextFamily: Id

    ghost function Db(): Sessions reads this {
      Sessions(tokens, status, nextFamily)
    }

    constructor (status: map<Id, Status>)
      ensures Valid(Db()) && tokens == [] && this.status == status
    {
      tokens, this.status, nextFamily := [], status, 0;
    }

    method FindUnique(hash: string) returns (found: Option<nat>)
      requires Valid(Db())
      ensures found == Find(tokens, hash)
    {
      for i := 0 to |tokens|
        invariant forall j :: 0 <= j < i ==> tokens[j].hash != hash
      {
        if tokens[i].hash == hash {
          FindIs(Db(), i);
          return Some(i);
        }
      }
      found := None;
    }

    /** `issuePair` in a given family. */
    method IssuePair(c: Id, family: Id, hash: string, now: Time, ttl: Time) returns (r: Result<()>)
      requires Valid(Db())
      modifies `tokens
      ensures var issued := Issued(old(tokens), Token(hash, c, family, now + ttl, None, None));
        if issued.Ok? then r == Ok(()) && tokens == issued.value else r == Err(Internal) && tokens == old(tokens)
    {
      var taken := FindUnique(hash);
      if taken.Some? { return Err(Internal); }
      tokens := tokens + [Token(hash, c, family, now + ttl, None, None)];
      r := Ok(());
    }

    method Login(c: Id, hash: string, now: Time, ttl: Time) returns (r: Result<()>)
      requires Valid(Db())
      modifies this
      ensures Db() == Apply(old(Db()), Step.Login(c, hash, now, ttl)) && Valid(Db())
      ensures r.Ok? <==> Find(old(tokens), hash).None?
    {
      StepKeepsValid(Db(), Step.Login(c, hash, now, ttl));
      r := IssuePair(c, nextFamily, hash, now, ttl);
      if r.Ok? { nextFamily := nextFamily + 1; }
    }

    method Rotate(hash: string, newHash: string, now: Time, ttl: Time) returns (r: Result<()>)
      requires Valid(Db())
      modifies this
      ensures Db() == Apply(old(Db()), Step.Rotate(hash, newHash, now, ttl)) && Valid(Db())
      ensures r == Rotated(old(Db()), hash, newHash, now, ttl).1
    {
      StepKeepsValid(Db(), Step.Rotate(hash, newHash, now, ttl));
      var existing := FindUnique(hash);
      if existing.None? { return Err(Unauthorized); }
      var i := existing.value;
      var t := tokens[i];
      if t.revokedAt.Some? {
        tokens := RevokeWhere(tokens, OfFamily(t.family), now);
        return Err(Unauthorized);
      }
      if t.expiresAt <= now || !IsActive(status, t.customer) { return Err(Unauthorized); }
      r := IssuePair(t.customer, t.family, newHash, now, ttl);
      if r.Ok? {
        tokens := tokens[i := tokens[i].(revokedAt := Some(now), replacedBy := Some(|tokens| - 1))];
      }
    }

    method Revoke(hash: string, now: Time)
      requires Valid(Db())
      modifies this
      ensures Db() == Apply(old(Db()), Logout(hash, now)) && Valid(Db())
    {
      StepKeepsValid(Db(), Logout(hash, now));
      tokens := RevokeWhere(tokens, WithHash(hash), now);
    }

    method RevokeAllForCustomer(c: Id, now: Time) returns (count: nat)
      requires Valid(Db())
      modifies this
      ensures Db() == Apply(old(Db()), LogoutEverywhere(c, now)) && Valid(Db())
      ensures count == |LiveOf(old(tokens), c)|
    {
      StepKeepsValid(Db(), LogoutEverywhere(c, now));
      count := |LiveOf(tokens, c)|;
      tokens := RevokeWhere(tokens, OfCustomer(c), now);
    }
  }

  /** The administrator's requests on a customer's status and sessions. */
  class AdminCustomersService {
    const sessions: TokenService

    constructor (sessions: TokenService)
      ensures this.sessions == sessions
    {
      this.sessions := sessions;
    }

    /** Blocking ends every session at once. */
    method Block(c: Id, now: Time) returns (revoked: Result<nat>)
      requires Valid(sessions.Db())
      modifies sessions
      ensures sessions.Db() == Apply(old(sessions.Db()), Step.Block(c, now)) && Valid(sessions.Db())
      ensures revoked.Err? ==>
        revoked.error == (if c in old(sessions.status) then BadRequest else NotFound)
          && sessions.Db() == old(sessions.Db())
      ensures revoked.Ok? <==>
        c in old(sessions.status) && old(sessions.status)[c] != Merged && old(sessions.status)[c] != Blocked
      ensures revoked.Ok? ==> revoked.value == |LiveOf(old(sessions.tokens), c)|
    {
      StepKeepsValid(sessions.Db(), Step.Block(c, now));
      if c !in sessions.status { return Err(NotFound); }
      if sessions.status[c] == Merged || sessions.status[c] == Blocked { return Err(BadRequest); }
      sessions.status := sessions.status[c := Blocked];
      var count := sessions.RevokeAllForCustomer(c, now);
      revoked := Ok(count);
    }

    method Unblock(c: Id) returns (done: Result<()>)
      requires Valid(sessions.Db())
      modifies sessions
      ensures sessions.Db() == Apply(old(sessions.Db()), Step.Unblock(c)) && Valid(sessions.Db())
      ensures done == if c !in old(sessions.status) then Err(NotFound)
        else if old(sessions.status)[c] == Blocked then Ok(()) else Err(BadRequest)
    {
      if c !in sessions.status { return Err(NotFound); }
      if sessions.status[c] != Blocked { return Err(BadRequest); }
      sessions.status := sessions.status[c := Active];
      done := Ok(());
    }

    /** Only a live session of that very customer is found. */
    method RevokeSession(c: Id, session: nat, now: Time) returns (done: Result<()>)
      requires Valid(sessions.Db())
      modifies sessions
      ensures sessions.Db() == Apply(old(sessions.Db()), Step.RevokeSession(c, session, now)) && Valid(sessions.Db())
      ensures done == if Live(old(sessions.tokens), session) && old(sessions.tokens)[session].customer == c then Ok(())
        else Err(NotFound)
    {
      StepKeepsValid(sessions.Db(), Step.RevokeSession(c, session, now));
      if session >= |sessions.tokens| || sessions.tokens[session].customer != c
        || sessions.tokens[session].revokedAt.Some? {
        return Err(NotFound);
      }
      sessions.tokens := sessions.tokens[session := sessions.tokens[session].(revokedAt := Some(now))];
      done := Ok(());
    }
  }
}

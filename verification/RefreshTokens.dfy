/** Refresh-token rotation (`auth.py`): login, refresh, logout and expiry, in any order.

A refresh is two Redis commands: GETDEL of the presented token and, after the user has been checked,
SET of a new one. Tokens are drawn at random; the model lets a step use any token never issued before.
 */
module RefreshTokens {
  import opened Outcomes

  type Token = nat
  type User = string

  /** `chain` numbers the login a token descends from. */
  datatype Session = Session(user: User, chain: nat)

  datatype System = System(
    live: map<Token, Session>,
    flights: map<nat, Session>,
    logins: seq<User>,
    origin: map<Token, Session>,
    consumed: set<Token>,
    deleted: set<Token>,
    expired: set<Token>,
    accepted: seq<Token>)

  datatype Action =
    | Login(user: User, token: Token)
    | Consume(token: Token, flight: nat)
    | Reject(flight: nat)
    | Rotate(flight: nat, token: Token)
    | Logout(token: Token)
    | Expire(token: Token)

  const INITIAL := System(map[], map[], [], map[], {}, {}, {}, [])

  /** Every token ever handed out. */
  function Issued(s: System): set<Token> {
    s.origin.Keys
  }

  predicate Enabled(s: System, a: Action) {
    match a
    case Login(_, token) => token !in Issued(s)
    case Consume(_, flight) => flight !in s.flights
    case Reject(flight) => flight in s.flights
    case Rotate(flight, token) => flight in s.flights && token !in Issued(s)
    case Logout(_) => true
    case Expire(token) => token in s.live
  }

  function Issue(s: System, token: Token, session: Session): System {
    s.(live := s.live[token := session], origin := s.origin[token := session])
  }

  /** A consume, logout or refresh of a token that is not live changes nothing. */
  function Step(s: System, a: Action): System
    requires Enabled(s, a)
  {
    match a
    case Login(user, token) => Issue(s, token, Session(user, |s.logins|)).(logins := s.logins + [user])
    case Consume(token, flight) =>
      if token in s.live then
        s.(live := s.live - {token}, flights := s.flights[flight := s.live[token]],
           consumed := s.consumed + {token}, accepted := s.accepted + [token])
      else s
    case Reject(flight) => s.(flights := s.flights - {flight})
    case Rotate(flight, token) => Issue(s, token, s.flights[flight]).(flights := s.flights - {flight})
    case Logout(token) => if token in s.live then s.(live := s.live - {token}, deleted := s.deleted + {token}) else s
    case Expire(token) => s.(live := s.live - {token}, expired := s.expired + {token})
  }

  ghost predicate IsRun(s: System, actions: seq<Action>, s': System)
    decreases |actions|
  {
    if actions == [] then s == s'
    else Enabled(s, actions[0]) && IsRun(Step(s, actions[0]), actions[1..], s')
  }

  // ---------------------------------------------------------------------------
  // What every run keeps
  // ---------------------------------------------------------------------------

  predicate Disjoint(s: System) {
    && s.live.Keys !! s.consumed && s.live.Keys !! s.deleted && s.live.Keys !! s.expired
    && s.consumed !! s.deleted && s.consumed !! s.expired && s.deleted !! s.expired
  }

  predicate Partitioned(s: System) {
    Disjoint(s) && Issued(s) == s.live.Keys + s.consumed + s.deleted + s.expired
  }

  /** The tokens of one login: never two live, never two in flight, never both. */
  predicate OneHolderPerChain(s: System) {
    && (forall t, u :: t in s.live && u in s.live && s.live[t].chain == s.live[u].chain ==> t == u)
    && (forall f, g :: f in s.flights && g in s.flights && s.flights[f].chain == s.flights[g].chain ==> f == g)
    && (forall t, f :: t in s.live && f in s.flights ==> s.live[t].chain != s.flights[f].chain)
  }

  predicate Belongs(s: System, session: Session) {
    session.chain < |s.logins| && s.logins[session.chain] == session.user
  }

  /** A token or refresh acts only for the user who logged in at the head of its chain. */
  predicate UsersKept(s: System) {
    && (forall t :: t in s.origin ==> Belongs(s, s.origin[t]))
    && (forall t :: t in s.live ==> t in s.origin && s.live[t] == s.origin[t])
    && (forall f :: f in s.flights ==> Belongs(s, s.flights[f]))
  }

  ghost predicate AcceptedOnce(s: System) {
    && (forall i, j :: 0 <= i < j < |s.accepted| ==> s.accepted[i] != s.accepted[j])
    && (forall t :: t in s.accepted <==> t in s.consumed)
  }

  ghost predicate Inv(s: System) {
    Partitioned(s) && OneHolderPerChain(s) && UsersKept(s) && AcceptedOnce(s)
  }

  lemma PartitionStep(s: System, a: Action)
    requires Inv(s) && Enabled(s, a)
    ensures Partitioned(Step(s, a)) && AcceptedOnce(Step(s, a))
  {
    hide OneHolderPerChain, UsersKept;
    var s' := Step(s, a);
    assert s'.live.Keys <= s.live.Keys + (if a.Login? || a.Rotate? then {a.token} else {});
  }

  lemma IssueHolder(s: System, token: Token, session: Session)
    requires OneHolderPerChain(s)
    requires forall t :: t in s.live ==> s.live[t].chain != session.chain
    requires forall f :: f in s.flights ==> s.flights[f].chain != session.chain
    ensures OneHolderPerChain(Issue(s, token, session))
  {
  }

  lemma TakeHolder(s: System, token: Token, flight: nat)
    requires OneHolderPerChain(s) && token in s.live && flight !in s.flights
    ensures OneHolderPerChain(s.(live := s.live - {token}, flights := s.flights[flight := s.live[token]]))
  {
  }

  lemma HolderStep(s: System, a: Action)
    requires Inv(s) && Enabled(s, a)
    ensures OneHolderPerChain(Step(s, a))
  {
    hide Partitioned, AcceptedOnce;
    match a
    case Login(user, token) =>
      ChainsAreKnown(s);
      hide OneHolderPerChain;
      IssueHolder(s, token, Session(user, |s.logins|));
    case Consume(token, flight) =>
      if token in s.live {
        TakeHolder(s, token, flight);
      }
    case Rotate(flight, token) =>
      var landed := s.(flights := s.flights - {flight});
      IssueHolder(landed, token, s.flights[flight]);
    case _ =>
  }

  lemma ChainsAreKnown(s: System)
    requires UsersKept(s)
    ensures forall t :: t in s.live ==> s.live[t].chain < |s.logins|
    ensures forall f :: f in s.flights ==> s.flights[f].chain < |s.logins|
  {
    assert forall t :: t in s.live ==> Belongs(s, s.origin[t]);
    assert forall f :: f in s.flights ==> Belongs(s, s.flights[f]);
  }

  lemma IssueUsers(s: System, token: Token, session: Session)
    requires UsersKept(s) && Belongs(s, session)
    ensures UsersKept(Issue(s, token, session))
  {
    assert forall x :: Belongs(Issue(s, token, session), x) == Belongs(s, x);
    hide Belongs;
  }

  lemma LoginUsers(s: System, user: User)
    requires UsersKept(s)
    ensures UsersKept(s.(logins := s.logins + [user]))
  {
    assert forall x :: Belongs(s, x) ==> Belongs(s.(logins := s.logins + [user]), x);
    hide Belongs;
  }

  lemma UsersStep(s: System, a: Action)
    requires Inv(s) && Enabled(s, a)
    ensures UsersKept(Step(s, a))
  {
    hide Partitioned, OneHolderPerChain, AcceptedOnce;
    match a
    case Login(user, token) =>
      LoginUsers(s, user);
      hide UsersKept;
      IssueUsers(s.(logins := s.logins + [user]), token, Session(user, |s.logins|));
    case Rotate(flight, token) =>
      LandUsers(s, s.flights - {flight});
      assert Belongs(s.(flights := s.flights - {flight}), s.flights[flight]);
      hide UsersKept;
      IssueUsers(s.(flights := s.flights - {flight}), token, s.flights[flight]);
    case _ =>
      assert forall x :: Belongs(Step(s, a), x) == Belongs(s, x);
      hide Belongs;
  }

  lemma LandUsers(s: System, flights: map<nat, Session>)
    requires UsersKept(s) && flights.Keys <= s.flights.Keys && forall f :: f in flights ==> flights[f] == s.flights[f]
    ensures UsersKept(s.(flights := flights))
  {
    assert forall x :: Belongs(s.(flights := flights), x) == Belongs(s, x);
    hide Belongs;
  }

  lemma InitialInv()
    ensures Inv(INITIAL)
  {
  }

  lemma {:induction false} RunKeepsInv(s: System, actions: seq<Action>, s': System)
    requires Inv(s) && IsRun(s, actions, s')
    ensures Inv(s')
    decreases |actions|
  {
    if actions != [] {
      PartitionStep(s, actions[0]);
      HolderStep(s, actions[0]);
      UsersStep(s, actions[0]);
      hide Partitioned, OneHolderPerChain, UsersKept, AcceptedOnce, Step, Enabled;
      RunKeepsInv(Step(s, actions[0]), actions[1..], s');
    }
  }

  // ---------------------------------------------------------------------------
  // Main results
  // ---------------------------------------------------------------------------

  /** Over every run each token is accepted at most once, and the issued tokens are exactly the live,
      the consumed, the deleted and the expired ones, no token being two of these. */
  lemma TokensConserved(actions: seq<Action>, s: System)
    requires IsRun(INITIAL, actions, s)
    ensures forall i, j :: 0 <= i < j < |s.accepted| ==> s.accepted[i] != s.accepted[j]
    ensures Partitioned(s)
    ensures |Issued(s)| == |s.live.Keys| + |s.consumed| + |s.deleted| + |s.expired|
    ensures |s.accepted| == |s.consumed|
  {
    hide OneHolderPerChain, UsersKept, IsRun;
    InitialInv();
    RunKeepsInv(INITIAL, actions, s);
    FourParts(Issued(s), s.live.Keys, s.consumed, s.deleted, s.expired);
    DistinctLength(s.accepted, s.consumed);
  }

  lemma FourParts(all: set<Token>, a: set<Token>, b: set<Token>, c: set<Token>, d: set<Token>)
    requires all == a + b + c + d
    requires a !! b && a !! c && a !! d && b !! c && b !! d && c !! d
    ensures |all| == |a| + |b| + |c| + |d|
  {
    assert |a + b + c| == |a + b| + |c|;
    assert (a + b + c) !! d;
  }

  lemma {:induction false} DistinctLength(ts: seq<Token>, all: set<Token>)
    requires forall i, j :: 0 <= i < j < |ts| ==> ts[i] != ts[j]
    requires forall t :: t in ts <==> t in all
    ensures |ts| == |all|
  {
    if ts == [] {
      assert all == {};
    } else {
      var last := ts[|ts| - 1];
      assert ts == ts[..|ts| - 1] + [last];
      DistinctLength(ts[..|ts| - 1], all - {last});
    }
  }

  /** Over every run, each login has at most one token live or refresh in flight, and whatever it holds
      belongs to the user who logged in. */
  lemma ChainsStayLinear(actions: seq<Action>, s: System)
    requires IsRun(INITIAL, actions, s)
    ensures OneHolderPerChain(s) && UsersKept(s)
  {
    InitialInv();
    RunKeepsInv(INITIAL, actions, s);
  }

  /** A token that has been used, revoked or expired is refused for ever after. */
  lemma {:induction false} SpentForever(s: System, actions: seq<Action>, s': System, token: Token)
    requires Inv(s) && IsRun(s, actions, s')
    requires token in Issued(s) && token !in s.live
    ensures token in Issued(s') && token !in s'.live
    ensures |s.accepted| <= |s'.accepted| && token !in s'.accepted[|s.accepted|..]
    decreases |actions|
  {
    if actions != [] {
      var m := Step(s, actions[0]);
      PartitionStep(s, actions[0]);
      HolderStep(s, actions[0]);
      UsersStep(s, actions[0]);
      SpentStep(s, actions[0], token);
      hide Inv, Step, Enabled, Issued;
      SpentForever(m, actions[1..], s', token);
      AcceptedGrows(m, actions[1..], s');
      NotInLaterPart(s.accepted, m.accepted, s'.accepted, token);
    }
  }

  lemma NotInLaterPart(a: seq<Token>, b: seq<Token>, c: seq<Token>, token: Token)
    requires |a| <= |b| <= |c| && c[..|b|] == b
    requires token !in b[|a|..] && token !in c[|b|..]
    ensures token !in c[|a|..]
  {
    assert c[|a|..] == c[..|b|][|a|..] + c[|b|..];
  }

  lemma SpentStep(s: System, a: Action, token: Token)
    requires Enabled(s, a) && token in Issued(s) && token !in s.live
    ensures var m := Step(s, a);
            && token in Issued(m) && token !in m.live
            && |s.accepted| <= |m.accepted| && token !in m.accepted[|s.accepted|..]
  {
  }

  lemma {:induction false} AcceptedGrows(s: System, actions: seq<Action>, s': System)
    requires IsRun(s, actions, s')
    ensures |s.accepted| <= |s'.accepted| && s'.accepted[..|s.accepted|] == s.accepted
    decreases |actions|
  {
    if actions != [] {
      var m := Step(s, actions[0]);
      assert |s.accepted| <= |m.accepted| && m.accepted[..|s.accepted|] == s.accepted;
      hide Step, Enabled;
      AcceptedGrows(m, actions[1..], s');
      assert s'.accepted[..|s.accepted|] == s'.accepted[..|m.accepted|][..|s.accepted|];
    }
  }

  /** The login still has a live token, or a refresh that may yet produce one. */
  ghost predicate ChainOpen(s: System, chain: nat) {
    || (exists t :: t in s.live && s.live[t].chain == chain)
    || (exists f :: f in s.flights && s.flights[f].chain == chain)
  }

  /** Logging out ends the session exactly when the presented token is the live one: a logout that
      meets a refresh in flight, or presents an older token, leaves the session open. */
  lemma LogoutEndsSession(s: System, token: Token)
    requires Inv(s) && token in s.origin && ChainOpen(s, s.origin[token].chain)
    ensures !ChainOpen(Step(s, Logout(token)), s.origin[token].chain) <==> token in s.live
  {
    hide Partitioned, AcceptedOnce;
    var chain := s.origin[token].chain;
    var s' := Step(s, Logout(token));
    if token in s.live {
      forall t | t in s'.live
        ensures s'.live[t].chain != chain
      {
        assert t in s.live && t != token;
      }
    } else {
      assert s' == s;
    }
  }

  /** A logout between the two halves of a refresh: the session goes on with a new token. */
  lemma LogoutDuringRefresh() returns (actions: seq<Action>, s: System)
    ensures |actions| == 4 && actions[2] == Logout(0) && IsRun(INITIAL, actions, s)
    ensures s.live == map[1 := Session("teacher", 0)]
  {
    var login, consume, rotate := Login("teacher", 0), Consume(0, 0), Rotate(0, 1);
    var s1 := Step(INITIAL, login);
    var s2 := Step(s1, consume);
    var s3 := Step(s2, Logout(0));
    s := Step(s3, rotate);
    actions := [login, consume, Logout(0), rotate];
    assert actions[1..] == [consume, Logout(0), rotate];
    assert actions[1..][1..] == [Logout(0), rotate] && actions[1..][1..][1..] == [rotate];
    assert IsRun(s3, [rotate], s);
    assert IsRun(s2, [Logout(0), rotate], s);
    assert IsRun(s1, [consume, Logout(0), rotate], s);
  }

  /** A session once ended never comes back. */
  lemma {:induction false} ClosedForever(s: System, actions: seq<Action>, s': System, chain: nat)
    requires chain < |s.logins| && !ChainOpen(s, chain)
    requires IsRun(s, actions, s')
    ensures chain < |s'.logins| && !ChainOpen(s', chain)
    decreases |actions|
  {
    if actions != [] {
      ClosedStep(s, actions[0], chain);
      hide ChainOpen, Step, Enabled;
      ClosedForever(Step(s, actions[0]), actions[1..], s', chain);
    }
  }

  lemma ClosedStep(s: System, a: Action, chain: nat)
    requires chain < |s.logins| && !ChainOpen(s, chain) && Enabled(s, a)
    ensures chain < |Step(s, a).logins| && !ChainOpen(Step(s, a), chain)
  {
  }

  // ---------------------------------------------------------------------------
  // The token store
  // ---------------------------------------------------------------------------

  datatype AuthError = RefreshTokenInvalid

  /** What the database says of a user id. */
  datatype Account = Account(verified: bool)

  class TokenStore {
    var live: map<Token, User>

    constructor ()
      ensures live == map[]
    {
      live := map[];
    }

    method StoreRefreshToken(token: Token, user: User)
      modifies this
      ensures live == old(live)[token := user]
    {
      live := live[token := user];
    }

    method ConsumeRefreshToken(token: Token) returns (user: Option<User>)
      modifies this
      ensures live == old(live) - {token}
      ensures user == if token in old(live) then Some(old(live)[token]) else None
    {
      user := if token in live then Some(live[token]) else None;
      live := live - {token};
    }

    /** One uninterrupted refresh. The presented token is spent whatever the outcome. */
    method RefreshAccessToken(token: Token, accounts: map<User, Account>, bypass: bool, next: Token)
      returns (result: Result<User, AuthError>)
      modifies this
      ensures result.Ok? <==>
              token in old(live) && old(live)[token] in accounts && (accounts[old(live)[token]].verified || bypass)
      ensures result.Ok? ==> result.value == old(live)[token] && live == (old(live) - {token})[next := result.value]
      ensures result.Err? ==> live == old(live) - {token}
      ensures next != token ==> token !in live
    {
      var user := ConsumeRefreshToken(token);
      if user.None? {
        return Err(RefreshTokenInvalid);
      }
      if user.value !in accounts {
        return Err(RefreshTokenInvalid);
      }
      if !accounts[user.value].verified && !bypass {
        return Err(RefreshTokenInvalid);
      }
      StoreRefreshToken(next, user.value);
      return Ok(user.value);
    }

    method DeleteRefreshToken(token: Token)
      modifies this
      ensures live == old(live) - {token}
    {
      live := live - {token};
    }
  }
}

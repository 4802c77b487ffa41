/** Refresh-token rotation with reuse detection. A token's id is its position in
    the table; presenting its secret is presenting its id, and a number past the
    end stands for a secret that was never issued. */
module Sessions {
  import opened Prelude

  type Time = int
  type UserId = nat

  const REFRESH_LIFETIME := 30 * 24 * 3600 * 1_000_000
  const RESET_LIFETIME := 30 * 60 * 1_000_000

  datatype Token = Token(user: UserId, expiresAt: Time, revokedAt: Option<Time>, replacedBy: Option<nat>)

  datatype ResetToken = ResetToken(user: UserId, expiresAt: Time, consumedAt: Option<Time>)

  datatype Auth = Auth(tokens: seq<Token>, resets: seq<ResetToken>)

  datatype Denial = InvalidRefresh | TokenReuse | RefreshExpired | InvalidReset | NoSuchSession

  datatype Reply = Issued(token: nat) | Done | Denied(reason: Denial)

  // ---------- Operations ----------

  function Minted(user: UserId, now: Time): Token { Token(user, now + REFRESH_LIFETIME, None, None) }

  function Login(s: Auth, user: UserId, now: Time): (Auth, Reply) {
    (s.(tokens := s.tokens + [Minted(user, now)]), Issued(|s.tokens|))
  }

  /** Revoke every still-active token of a user. */
  function RevokeUser(tokens: seq<Token>, user: UserId, now: Time): (ts: seq<Token>)
    ensures |ts| == |tokens|
  {
    seq(|tokens|, i requires 0 <= i < |tokens| =>
      if tokens[i].user == user && tokens[i].revokedAt.None? then tokens[i].(revokedAt := Some(now)) else tokens[i])
  }

  function Refresh(s: Auth, raw: nat, now: Time): (Auth, Reply) {
    if raw >= |s.tokens| then (s, Denied(InvalidRefresh))
    else if s.tokens[raw].revokedAt.Some? then
      (s.(tokens := RevokeUser(s.tokens, s.tokens[raw].user, now)), Denied(TokenReuse))
    else if s.tokens[raw].expiresAt <= now then (s, Denied(RefreshExpired))
    else
      (s.(tokens := s.tokens[raw := s.tokens[raw].(revokedAt := Some(now), replacedBy := Some(|s.tokens|))]
                    + [Minted(s.tokens[raw].user, now)]),
       Issued(|s.tokens|))
  }

  function RevokeOne(tokens: seq<Token>, id: nat, now: Time): (ts: seq<Token>)
    ensures |ts| == |tokens|
  {
    if id < |tokens| && tokens[id].revokedAt.None? then tokens[id := tokens[id].(revokedAt := Some(now))] else tokens
  }

  function Logout(s: Auth, raw: nat, now: Time): (Auth, Reply) {
    (s.(tokens := RevokeOne(s.tokens, raw, now)), Done)
  }

  function RequestReset(s: Auth, user: UserId, now: Time): (Auth, Reply) {
    (s.(resets := s.resets + [ResetToken(user, now + RESET_LIFETIME, None)]), Done)
  }

  function ResetPassword(s: Auth, raw: nat, now: Time): (Auth, Reply) {
    if raw >= |s.resets| || s.resets[raw].consumedAt.Some? || s.resets[raw].expiresAt <= now then
      (s, Denied(InvalidReset))
    else
      (Auth(RevokeUser(s.tokens, s.resets[raw].user, now),
            s.resets[raw := s.resets[raw].(consumedAt := Some(now))]), Done)
  }

  /** Ending one device's session, or all of them, from the account screen. */
  function EndSession(s: Auth, user: UserId, id: nat, now: Time): (Auth, Reply) {
    if id >= |s.tokens| || s.tokens[id].user != user then (s, Denied(NoSuchSession))
    else (s.(tokens := RevokeOne(s.tokens, id, now)), Done)
  }

  function EndAllSessions(s: Auth, user: UserId, now: Time): (Auth, Reply) {
    (s.(tokens := RevokeUser(s.tokens, user, now)), Done)
  }

  // ---------- The stored tables ----------

  class TokenStore {
    var tokens: seq<Token>
    var resets: seq<ResetToken>

    constructor ()
      ensures State() == Auth([], [])
    {
      tokens, resets := [], [];
    }

    ghost function State(): Auth
      reads this
    {
      Auth(tokens, resets)
    }

    method CreateRefreshToken(user: UserId, now: Time) returns (id: nat)
      modifies this`tokens
      ensures id == |old(tokens)| && tokens == old(tokens) + [Minted(user, now)]
    {
      id := |tokens|;
      tokens := tokens + [Token(user, now + REFRESH_LIFETIME, None, None)];
    }

    method IssueTokens(user: UserId, now: Time) returns (r: Reply)
      modifies this
      ensures (State(), r) == Login(old(State()), user, now)
    {
      var id := CreateRefreshToken(user, now);
      return Issued(id);
    }

    method RevokeAll(user: UserId, now: Time)
      modifies this`tokens
      ensures tokens == RevokeUser(old(tokens), user, now)
    {
      for i := 0 to |tokens|
        invariant |tokens| == |old(tokens)|
        invariant forall j :: 0 <= j < |tokens| ==>
                    tokens[j] == if j < i then RevokeUser(old(tokens), user, now)[j] else old(tokens)[j]
      {
        if tokens[i].user == user && tokens[i].revokedAt.None? {
          tokens := tokens[i := tokens[i].(revokedAt := Some(now))];
        }
      }
    }

    method Exchange(raw: nat, now: Time) returns (r: Reply)
      modifies this
      ensures (State(), r) == Refresh(old(State()), raw, now)
    {
      if raw >= |tokens| {
        return Denied(InvalidRefresh);
      }
      if tokens[raw].revokedAt.Some? {
        RevokeAll(tokens[raw].user, now);
        return Denied(TokenReuse);
      }
      if tokens[raw].expiresAt <= now {
        return Denied(RefreshExpired);
      }
      var minted := CreateRefreshToken(tokens[raw].user, now);
      tokens := tokens[raw := tokens[raw].(revokedAt := Some(now))];
      tokens := tokens[raw := tokens[raw].(replacedBy := Some(minted))];
      assert tokens == Refresh(old(State()), raw, now).0.tokens;
      return Issued(minted);
    }

    method LogOut(raw: nat, now: Time)
      modifies this
      ensures State() == Logout(old(State()), raw, now).0
    {
      if raw >= |tokens| || tokens[raw].revokedAt.Some? {
        return;
      }
      tokens := tokens[raw := tokens[raw].(revokedAt := Some(now))];
    }

    method Reset(raw: nat, now: Time) returns (r: Reply)
      modifies this
      ensures (State(), r) == ResetPassword(old(State()), raw, now)
    {
      if raw >= |resets| || resets[raw].consumedAt.Some? || resets[raw].expiresAt <= now {
        return Denied(InvalidReset);
      }
      resets := resets[raw := resets[raw].(consumedAt := Some(now))];
      RevokeAll(resets[raw].user, now);
      return Done;
    }

    method RevokeSession(user: UserId, id: nat, now: Time) returns (r: Reply)
      modifies this
      ensures (State(), r) == EndSession(old(State()), user, id, now)
    {
      if id >= |tokens| || tokens[id].user != user {
        return Denied(NoSuchSession);
      }
      if tokens[id].revokedAt.None? {
        tokens := tokens[id := tokens[id].(revokedAt := Some(now))];
      }
      return Done;
    }
  }

  // ---------- Runs ----------

  datatype Event =
    | LogIn(user: UserId, now: Time)
    | Rotate(raw: nat, now: Time)
    | LogOff(raw: nat, now: Time)
    | AskReset(user: UserId, now: Time)
    | DoReset(raw: nat, now: Time)
    | EndOne(user: UserId, id: nat, now: Time)
    | EndAll(user: UserId, now: Time)

  function Apply(s: Auth, e: Event): (Auth, Reply) {
    match e
    case LogIn(user, now) => Login(s, user, now)
    case Rotate(raw, now) => Refresh(s, raw, now)
    case LogOff(raw, now) => Logout(s, raw, now)
    case AskReset(user, now) => RequestReset(s, user, now)
    case DoReset(raw, now) => ResetPassword(s, raw, now)
    case EndOne(user, id, now) => EndSession(s, user, id, now)
    case EndAll(user, now) => EndAllSessions(s, user, now)
  }

  function Run(s: Auth, events: seq<Event>): Auth
    decreases |events|
  {
    if events == [] then s else Run(Apply(s, events[0]).0, events[1..])
  }

  /** Links go forward to a token of the same user, leave only revoked tokens, and
      never meet: so they are acyclic and injective. */
  ghost predicate Linked(tokens: seq<Token>) {
    && (forall i :: 0 <= i < |tokens| && tokens[i].replacedBy.Some? ==>
          && tokens[i].revokedAt.Some?
          && i < tokens[i].replacedBy.value < |tokens|
          && tokens[tokens[i].replacedBy.value].user == tokens[i].user)
    && (forall i, j :: 0 <= i < j < |tokens| && tokens[i].replacedBy.Some? ==>
          tokens[i].replacedBy != tokens[j].replacedBy)
  }

  /** Tokens keep their owner and lifetime; a revocation or a link, once set, stays. */
  ghost predicate Settles(ts: seq<Token>, ts': seq<Token>) {
    && |ts| <= |ts'|
    && forall i :: 0 <= i < |ts| ==>
         && ts'[i].user == ts[i].user && ts'[i].expiresAt == ts[i].expiresAt
         && (ts[i].revokedAt.Some? ==> ts'[i].revokedAt == ts[i].revokedAt && ts'[i].replacedBy == ts[i].replacedBy)
  }

  /** Some active tokens become revoked and nothing else happens. */
  ghost predicate OnlyRevokes(ts: seq<Token>, ts': seq<Token>) {
    && |ts'| == |ts|
    && forall i :: 0 <= i < |ts| ==>
         && ts'[i].user == ts[i].user && ts'[i].expiresAt == ts[i].expiresAt
         && ts'[i].replacedBy == ts[i].replacedBy
         && (ts[i].revokedAt.Some? ==> ts'[i].revokedAt == ts[i].revokedAt)
  }

  lemma RevokingKeepsLinks(ts: seq<Token>, ts': seq<Token>)
    requires Linked(ts) && OnlyRevokes(ts, ts')
    ensures Linked(ts') && Settles(ts, ts')
  {
  }

  lemma MintingKeepsLinks(ts: seq<Token>, user: UserId, now: Time)
    requires Linked(ts)
    ensures Linked(ts + [Minted(user, now)]) && Settles(ts, ts + [Minted(user, now)])
  {
  }

  /** Linking an active token to the newest one, which nothing links to yet. */
  lemma ReplacingKeepsLinks(ts: seq<Token>, raw: nat, now: Time)
    requires Linked(ts) && raw < |ts| && ts[raw].revokedAt.None?
    ensures var ts' := ts[raw := ts[raw].(revokedAt := Some(now), replacedBy := Some(|ts|))]
                       + [Minted(ts[raw].user, now)];
            Linked(ts') && Settles(ts, ts')
  {
    var rt := ts[raw].(revokedAt := Some(now), replacedBy := Some(|ts|));
    var ts' := ts[raw := rt] + [Minted(ts[raw].user, now)];
    assert forall i :: 0 <= i < |ts'| ==>
             ts'[i] == if i == raw then rt else if i == |ts| then Minted(ts[raw].user, now) else ts[i];
    assert ts'[|ts|].user == ts[raw].user;
  }

  lemma StepKeepsLinks(s: Auth, e: Event)
    requires Linked(s.tokens)
    ensures Linked(Apply(s, e).0.tokens) && Settles(s.tokens, Apply(s, e).0.tokens)
  {
    hide Linked, Settles;
    RevokingKeepsLinks(s.tokens, s.tokens);
    match e {
      case LogIn(user, now) => MintingKeepsLinks(s.tokens, user, now);
      case Rotate(raw, now) =>
        if raw < |s.tokens| && s.tokens[raw].revokedAt.None? {
          ReplacingKeepsLinks(s.tokens, raw, now);
        } else if raw < |s.tokens| {
          RevokingKeepsLinks(s.tokens, RevokeUser(s.tokens, s.tokens[raw].user, now));
        }
      case LogOff(raw, now) => RevokingKeepsLinks(s.tokens, RevokeOne(s.tokens, raw, now));
      case AskReset(_, _) =>
      case DoReset(raw, now) =>
        if raw < |s.resets| {
          RevokingKeepsLinks(s.tokens, RevokeUser(s.tokens, s.resets[raw].user, now));
        }
      case EndOne(_, id, now) => RevokingKeepsLinks(s.tokens, RevokeOne(s.tokens, id, now));
      case EndAll(user, now) => RevokingKeepsLinks(s.tokens, RevokeUser(s.tokens, user, now));
    }
  }

  lemma {:induction false} RunKeepsLinks(s: Auth, events: seq<Event>)
    requires Linked(s.tokens)
    ensures Linked(Run(s, events).tokens) && Settles(s.tokens, Run(s, events).tokens)
    decreases |events|
  {
    if events != [] {
      hide Apply, Linked;
      StepKeepsLinks(s, events[0]);
      RunKeepsLinks(Apply(s, events[0]).0, events[1..]);
    }
  }

  // ---------- One exchange per token ----------

  /** How many times presenting `raw` was answered with a fresh pair. */
  function Exchanges(s: Auth, events: seq<Event>, raw: nat): nat
    decreases |events|
  {
    if events == [] then 0
    else
      var (next, reply) := Apply(s, events[0]);
      Exchanges(next, events[1..], raw) + if events[0].Rotate? && events[0].raw == raw && reply.Issued? then 1 else 0
  }

  lemma {:induction false} RevokedNeverExchanges(s: Auth, events: seq<Event>, raw: nat)
    requires Linked(s.tokens) && raw < |s.tokens| && s.tokens[raw].revokedAt.Some?
    ensures Exchanges(s, events, raw) == 0
    decreases |events|
  {
    if events != [] {
      StepKeepsLinks(s, events[0]);
      RevokedNeverExchanges(Apply(s, events[0]).0, events[1..], raw);
    }
  }

  /** Every raw token is exchanged successfully at most once in any run. */
  lemma {:induction false} ExchangedAtMostOnce(s: Auth, events: seq<Event>, raw: nat)
    requires Linked(s.tokens)
    ensures Exchanges(s, events, raw) <= 1
    decreases |events|
  {
    if events != [] {
      var (next, reply) := Apply(s, events[0]);
      StepKeepsLinks(s, events[0]);
      if events[0].Rotate? && events[0].raw == raw && reply.Issued? {
        RevokedNeverExchanges(next, events[1..], raw);
      } else {
        ExchangedAtMostOnce(next, events[1..], raw);
      }
    }
  }

  // ---------- One active token per login ----------

  function Pred(tokens: seq<Token>, j: nat): (i: Option<nat>)
    ensures i.Some? ==> i.value < |tokens| && tokens[i.value].replacedBy == Some(j)
    ensures i.None? ==> forall k :: 0 <= k < |tokens| ==> tokens[k].replacedBy != Some(j)
  {
    First(tokens, (t: Token) => t.replacedBy == Some(j))
  }

  /** The login a token descends from: the head of its chain. */
  ghost function Root(tokens: seq<Token>, j: nat): (r: nat)
    requires Linked(tokens) && j < |tokens|
    ensures r <= j
  {
    match Pred(tokens, j)
    case None => j
    case Some(i) => Root(tokens, i)
  }

  /** Token i was exchanged, directly or through later ones, for token j. */
  ghost predicate Ancestor(tokens: seq<Token>, i: nat, j: nat)
    requires Linked(tokens) && j < |tokens|
    decreases j
  {
    match Pred(tokens, j)
    case None => false
    case Some(p) => p == i || Ancestor(tokens, i, p)
  }

  lemma {:induction false} AncestorIsReplaced(tokens: seq<Token>, i: nat, j: nat)
    requires Linked(tokens) && j < |tokens| && Ancestor(tokens, i, j)
    ensures i < j && tokens[i].replacedBy.Some? && tokens[i].replacedBy.value <= j
    decreases j
  {
    var p := Pred(tokens, j).value;
    if p != i {
      AncestorIsReplaced(tokens, i, p);
    }
  }

  /** Within one chain the smaller id is always the ancestor. */
  lemma {:induction false} ChainIsLinear(tokens: seq<Token>, i: nat, j: nat)
    requires Linked(tokens) && i < j < |tokens| && Root(tokens, i) == Root(tokens, j)
    ensures Ancestor(tokens, i, j)
    decreases i + j
  {
    var p := Pred(tokens, j).value;
    if i < p {
      ChainIsLinear(tokens, i, p);
    } else if p < i {
      ChainIsLinear(tokens, p, i);
      AncestorIsReplaced(tokens, p, i);
    }
  }

  /** Each login's chain has at most one active token, and it is the chain's tail. */
  lemma {:induction false} ActiveIsTail(s: Auth, events: seq<Event>, i: nat, j: nat)
    requires Linked(s.tokens)
    requires var ts := Run(s, events).tokens; i < |ts| && j < |ts| && ts[j].revokedAt.None?
    ensures Linked(Run(s, events).tokens)
    ensures Root(Run(s, events).tokens, i) == Root(Run(s, events).tokens, j) ==>
              i <= j && (Run(s, events).tokens[i].revokedAt.None? ==> i == j)
  {
    RunKeepsLinks(s, events);
    var ts := Run(s, events).tokens;
    if Root(ts, i) == Root(ts, j) && i != j {
      ChainIsLinear(ts, Min(i, j), if i < j then j else i);
      AncestorIsReplaced(ts, Min(i, j), if i < j then j else i);
    }
  }

  // ---------- Losing every session ----------

  /** The user whose sessions a step ends: reuse of a revoked token, a password reset,
      or ending all sessions. */
  function Purges(s: Auth, e: Event): Option<UserId> {
    match e
    case Rotate(raw, _) => if raw < |s.tokens| && s.tokens[raw].revokedAt.Some? then Some(s.tokens[raw].user) else None
    case DoReset(raw, _) => if Apply(s, e).1.Done? && raw < |s.resets| then Some(s.resets[raw].user) else None
    case EndAll(user, _) => Some(user)
    case _ => None
  }

  /** A purge leaves the user with no active token. */
  lemma PurgeRevokesAll(s: Auth, e: Event, i: nat)
    requires Purges(s, e).Some? && i < |Apply(s, e).0.tokens| && Apply(s, e).0.tokens[i].user == Purges(s, e).value
    ensures |Apply(s, e).0.tokens| == |s.tokens| && Apply(s, e).0.tokens[i].revokedAt.Some?
  {
  }

  /** No previously issued token of that user ever becomes active again, whatever
      happens later: it stays revoked and is never exchanged. */
  lemma PurgedNeverReturns(s: Auth, e: Event, events: seq<Event>, i: nat)
    requires Linked(s.tokens) && Purges(s, e).Some? && i < |s.tokens| && s.tokens[i].user == Purges(s, e).value
    ensures var later := Run(Apply(s, e).0, events);
            i < |later.tokens| && later.tokens[i].revokedAt.Some?
    ensures Exchanges(Apply(s, e).0, events, i) == 0
  {
    StepKeepsLinks(s, e);
    PurgeRevokesAll(s, e, i);
    RunKeepsLinks(Apply(s, e).0, events);
    RevokedNeverExchanges(Apply(s, e).0, events, i);
  }
}

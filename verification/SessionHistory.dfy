/** Sessions retold from the calls alone: what was issued to whom and when, and which calls
    ended it. The stored tables are nothing but this history. */
module SessionHistory {
  import opened Prelude
  import opened Sessions

  // ---------- Refresh tokens ----------

  /** How many tokens the calls issued; the t-th of them is token t. */
  function Count(calls: seq<Event>): nat
    decreases |calls|, 0
  {
    if calls == [] then 0
    else
      var n := |calls| - 1;
      Count(calls[..n]) + if Issues(calls[..n], calls[n]) then 1 else 0
  }

  /** A login issues a token, and so does exchanging a current one. */
  predicate Issues(before: seq<Event>, e: Event)
    ensures Issues(before, e) && e.Rotate? ==> e.raw < Count(before)
    decreases |before|, 3
  {
    e.LogIn? || (e.Rotate? && Current(before, e.raw, e.now))
  }

  /** Token t was issued less than thirty days before `now` and nothing has ended it. */
  predicate Current(calls: seq<Event>, t: nat, now: Time)
    decreases |calls|, 2
  {
    && t < Count(calls)
    && EndedAt(calls, t).None?
    && now < IssuedAt(calls, t) + 30 * 24 * 3600 * 1_000_000
  }

  function IssuedAt(calls: seq<Event>, t: nat): Time
    requires t < Count(calls)
    decreases |calls|, 1
  {
    var n := |calls| - 1;
    if t < Count(calls[..n]) then IssuedAt(calls[..n], t) else calls[n].now
  }

  /** Whom token t was issued to; an exchange keeps the owner. */
  function Owner(calls: seq<Event>, t: nat): UserId
    requires t < Count(calls)
    decreases |calls|, 1
  {
    var n := |calls| - 1;
    if t < Count(calls[..n]) then Owner(calls[..n], t)
    else match calls[n]
      case LogIn(user, _) => user
      case Rotate(raw, _) => Owner(calls[..n], raw)
      case _ => 0
  }

  /** When token t was ended, if it was. */
  function EndedAt(calls: seq<Event>, t: nat): Option<Time>
    requires t < Count(calls)
    decreases |calls|, 1
  {
    var n := |calls| - 1;
    if t >= Count(calls[..n]) then None
    else if EndedAt(calls[..n], t).Some? then EndedAt(calls[..n], t)
    else if Ends(calls[..n], calls[n], t) then Some(calls[n].now)
    else None
  }

  /** Exchanging a current token ends that one, presenting an ended one ends all of its owner's;
      leaving ends the presented one, and ending one's own session, all sessions, or resetting
      the password what they say. */
  predicate Ends(before: seq<Event>, e: Event, t: nat)
    requires t < Count(before)
    decreases |before|, 4
  {
    match e
    case Rotate(raw, now) =>
      if Current(before, raw, now) then raw == t
      else raw < Count(before) && EndedAt(before, raw).Some? && Owner(before, raw) == Owner(before, t)
    case LogOff(raw, _) => raw == t
    case EndOne(user, id, _) => id == t && user == Owner(before, t)
    case EndAll(user, _) => user == Owner(before, t)
    case DoReset(raw, now) => Usable(before, raw, now) && Asker(before, raw) == Owner(before, t)
    case LogIn(_, _) => false
    case AskReset(_, _) => false
  }

  /** The token that t was exchanged for. */
  function Successor(calls: seq<Event>, t: nat): Option<nat>
    requires t < Count(calls)
    decreases |calls|
  {
    var n := |calls| - 1;
    if t >= Count(calls[..n]) then None
    else if calls[n].Rotate? && calls[n].raw == t && Current(calls[..n], t, calls[n].now) then Some(Count(calls[..n]))
    else Successor(calls[..n], t)
  }

  // ---------- Reset tokens ----------

  function Asked(calls: seq<Event>): nat {
    if calls == [] then 0 else Asked(calls[..|calls| - 1]) + if calls[|calls| - 1].AskReset? then 1 else 0
  }

  function Asker(calls: seq<Event>, r: nat): UserId
    requires r < Asked(calls)
  {
    var n := |calls| - 1;
    if r < Asked(calls[..n]) then Asker(calls[..n], r) else calls[n].user
  }

  function AskedAt(calls: seq<Event>, r: nat): Time
    requires r < Asked(calls)
  {
    var n := |calls| - 1;
    if r < Asked(calls[..n]) then AskedAt(calls[..n], r) else calls[n].now
  }

  /** Reset token r was asked for less than half an hour before `now` and not used yet. */
  predicate Usable(calls: seq<Event>, r: nat, now: Time)
    decreases |calls|, 1
  {
    r < Asked(calls) && UsedAt(calls, r).None? && now < AskedAt(calls, r) + 30 * 60 * 1_000_000
  }

  function UsedAt(calls: seq<Event>, r: nat): Option<Time>
    requires r < Asked(calls)
    decreases |calls|, 0
  {
    var n := |calls| - 1;
    if r >= Asked(calls[..n]) then None
    else if UsedAt(calls[..n], r).Some? then UsedAt(calls[..n], r)
    else if calls[n].DoReset? && calls[n].raw == r && Usable(calls[..n], r, calls[n].now) then Some(calls[n].now)
    else None
  }

  // ---------- The tables are this history ----------

  function Retold(calls: seq<Event>): Auth {
    Auth(seq(Count(calls), t requires 0 <= t < Count(calls) =>
           Token(Owner(calls, t), IssuedAt(calls, t) + 30 * 24 * 3600 * 1_000_000, EndedAt(calls, t),
                 Successor(calls, t))),
         seq(Asked(calls), r requires 0 <= r < Asked(calls) =>
           ResetToken(Asker(calls, r), AskedAt(calls, r) + 30 * 60 * 1_000_000, UsedAt(calls, r))))
  }

  const NOTHING := Auth([], [])

  lemma {:induction false} RunSnoc(s: Auth, calls: seq<Event>, e: Event)
    ensures Run(s, calls + [e]) == Apply(Run(s, calls), e).0
    decreases |calls|
  {
    hide Apply;
    if calls == [] {
      assert [] + [e] == [e] && [e][1..] == [];
    } else {
      assert (calls + [e])[0] == calls[0] && (calls + [e])[1..] == calls[1..] + [e];
      RunSnoc(Apply(s, calls[0]).0, calls[1..], e);
    }
  }

  /** What one more call adds to the history. */
  lemma OneMore(calls: seq<Event>, e: Event)
    ensures var all := calls + [e];
            && Count(all) == Count(calls) + (if Issues(calls, e) then 1 else 0)
            && Asked(all) == Asked(calls) + (if e.AskReset? then 1 else 0)
    ensures var all := calls + [e];
            forall t: nat :: t < Count(calls) ==>
              && Owner(all, t) == Owner(calls, t) && IssuedAt(all, t) == IssuedAt(calls, t)
              && EndedAt(all, t) == (if EndedAt(calls, t).Some? then EndedAt(calls, t)
                                     else if Ends(calls, e, t) then Some(e.now) else None)
              && Successor(all, t) == (if e.Rotate? && e.raw == t && Current(calls, t, e.now) then Some(Count(calls))
                                       else Successor(calls, t))
    ensures var all := calls + [e];
            Issues(calls, e) ==>
              && (e.LogIn? ==> Owner(all, Count(calls)) == e.user)
              && (e.Rotate? && Current(calls, e.raw, e.now) ==> Owner(all, Count(calls)) == Owner(calls, e.raw))
              && IssuedAt(all, Count(calls)) == e.now
              && EndedAt(all, Count(calls)) == None && Successor(all, Count(calls)) == None
    ensures var all := calls + [e];
            forall r: nat :: r < Asked(calls) ==>
              && Asker(all, r) == Asker(calls, r) && AskedAt(all, r) == AskedAt(calls, r)
              && UsedAt(all, r) == (if UsedAt(calls, r).Some? then UsedAt(calls, r)
                                    else if e.DoReset? && e.raw == r && Usable(calls, r, e.now) then Some(e.now)
                                    else None)
    ensures var all := calls + [e];
            e.AskReset? ==>
              && Asker(all, Asked(calls)) == e.user && AskedAt(all, Asked(calls)) == e.now
              && UsedAt(all, Asked(calls)) == None
  {
    assert (calls + [e])[..|calls|] == calls;
  }

  lemma TokensAreRetold(calls: seq<Event>, e: Event)
    ensures Apply(Retold(calls), e).0.tokens == Retold(calls + [e]).tokens
  {
    hide Count, Owner, IssuedAt, EndedAt, Successor, Asked, Asker, AskedAt, UsedAt;
    OneMore(calls, e);
    var ts, told := Apply(Retold(calls), e).0.tokens, Retold(calls + [e]).tokens;
    forall t | 0 <= t < |ts| ensures t < |told| && ts[t] == told[t] {
    }
  }

  lemma ResetsAreRetold(calls: seq<Event>, e: Event)
    ensures Apply(Retold(calls), e).0.resets == Retold(calls + [e]).resets
  {
    hide Count, Owner, IssuedAt, EndedAt, Successor, Asked, Asker, AskedAt, UsedAt;
    OneMore(calls, e);
    var rs, told := Apply(Retold(calls), e).0.resets, Retold(calls + [e]).resets;
    forall r | 0 <= r < |rs| ensures r < |told| && rs[r] == told[r] {
    }
  }

  lemma StepIsRetold(calls: seq<Event>, e: Event)
    ensures Apply(Retold(calls), e).0 == Retold(calls + [e])
  {
    hide Apply, Retold;
    TokensAreRetold(calls, e);
    ResetsAreRetold(calls, e);
  }

  /** After any calls, from the empty tables, the tables hold exactly what was issued and not
      a word more: owner, expiry, end and successor of every token. */
  lemma {:induction false} TablesAreHistory(calls: seq<Event>)
    ensures Run(NOTHING, calls) == Retold(calls)
  {
    hide Apply, Retold, Run;
    if calls == [] {
      Nothing();
    } else {
      var n := |calls| - 1;
      assert calls == calls[..n] + [calls[n]];
      TablesAreHistory(calls[..n]);
      RunSnoc(NOTHING, calls[..n], calls[n]);
      StepIsRetold(calls[..n], calls[n]);
    }
  }

  lemma Nothing()
    ensures Run(NOTHING, []) == Retold([])
  {
  }

  /** Presenting a refresh token is answered with a fresh pair exactly if the token was issued,
      no earlier call ended it, and its thirty days are not over; otherwise as unknown, as
      reused, or as expired, in this order. */
  lemma RotateIff(calls: seq<Event>, raw: nat, now: Time)
    ensures var reply := Apply(Run(NOTHING, calls), Rotate(raw, now)).1;
            && (reply.Issued? <==> Current(calls, raw, now))
            && reply == if raw >= Count(calls) then Denied(InvalidRefresh)
                        else if EndedAt(calls, raw).Some? then Denied(TokenReuse)
                        else if now >= IssuedAt(calls, raw) + 30 * 24 * 3600 * 1_000_000 then Denied(RefreshExpired)
                        else Issued(Count(calls))
  {
    hide Count, Owner, IssuedAt, EndedAt, Successor, Asked, Asker, AskedAt, UsedAt, Run;
    TablesAreHistory(calls);
  }

  /** A password reset goes through exactly with a reset token that was asked for less than half
      an hour before and not used since. */
  lemma ResetIff(calls: seq<Event>, raw: nat, now: Time)
    ensures Apply(Run(NOTHING, calls), DoReset(raw, now)).1
         == if Usable(calls, raw, now) then Done else Denied(InvalidReset)
  {
    hide Count, Owner, IssuedAt, EndedAt, Successor, Asked, Asker, AskedAt, UsedAt, Run;
    TablesAreHistory(calls);
  }

  /** The account screen ends exactly the asking user's own sessions. */
  lemma EndOneIff(calls: seq<Event>, user: UserId, id: nat, now: Time)
    ensures Apply(Run(NOTHING, calls), EndOne(user, id, now)).1
         == if id < Count(calls) && Owner(calls, id) == user then Done else Denied(NoSuchSession)
  {
    hide Count, Owner, IssuedAt, EndedAt, Successor, Asked, Asker, AskedAt, UsedAt, Run;
    TablesAreHistory(calls);
  }
}

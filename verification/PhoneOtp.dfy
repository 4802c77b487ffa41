/** Claiming a phone number by a one-time code: the two Redis maps between codes and
    phones, both with expiry, and the users table. Times are integer microseconds. */
module PhoneOtp {
  import opened Prelude

  type Time = int
  type Otp = s: string | s != "" witness "000000"
  type Phone = s: string | s != "" witness "+998000000000"
  type UserId = nat

  const TTL := 15 * 60 * 1_000_000

  /** The five codes drawn for one request. */
  type Rolls = r: seq<Otp> | |r| == 5 witness ["0", "0", "0", "0", "0"]

  /** A Redis value with the time it expires. */
  datatype Keyed<V> = Keyed(value: V, until: Time)

  predicate Live<K, V>(m: map<K, Keyed<V>>, k: K, now: Time) { k in m && now < m[k].until }

  datatype User = User(phone: Option<Phone>, verified: bool)

  datatype Claims = Claims(codes: map<Otp, Keyed<Phone>>, pending: map<Phone, Keyed<Otp>>, users: seq<User>)

  const BLANK := Claims(map[], map[], [])

  datatype Reason = PhoneTaken | NoFreeCode | AlreadyVerified | InvalidCode | Unauthenticated

  datatype Reply = Refused(reason: Reason) | Minted(otp: Otp) | Bound(phone: Phone) | SignedUp

  predicate Owned(users: seq<User>, phone: Phone) {
    exists i :: 0 <= i < |users| && users[i].phone == Some(phone)
  }

  predicate OwnedByAnother(users: seq<User>, phone: Phone, u: UserId) {
    exists i :: 0 <= i < |users| && i != u && users[i].phone == Some(phone)
  }

  // ---------- Operations ----------

  function SignUp(s: Claims): (Claims, Reply) {
    (s.(users := s.users + [User(None, false)]), SignedUp)
  }

  /** The codes left once the phone's previous code, if its back link lives, is deleted. */
  function Superseded(s: Claims, phone: Phone, now: Time): map<Otp, Keyed<Phone>> {
    if Live(s.pending, phone, now) then s.codes - {s.pending[phone].value} else s.codes
  }

  /** Mint a code at `now`; the back link is written `delay` later. */
  function Issue(s: Claims, phone: Phone, rolls: Rolls, now: Time, delay: nat): (Claims, Reply) {
    if Owned(s.users, phone) then (s, Refused(PhoneTaken))
    else
      var codes := Superseded(s, phone, now);
      match First(rolls, (o: Otp) => !Live(codes, o, now))
      case None => (s.(codes := codes), Refused(NoFreeCode))
      case Some(i) =>
        (s.(codes := codes[rolls[i] := Keyed(phone, now + TTL)],
            pending := s.pending[phone := Keyed(rolls[i], now + delay + TTL)]),
         Minted(rolls[i]))
  }

  function Verify(s: Claims, u: UserId, otp: Otp, now: Time): (Claims, Reply) {
    if u >= |s.users| then (s, Refused(Unauthenticated))
    else if s.users[u].verified then (s, Refused(AlreadyVerified))
    else if !Live(s.codes, otp, now) then (s, Refused(InvalidCode))
    else
      var phone := s.codes[otp].value;
      var cleared := s.(codes := s.codes - {otp}, pending := s.pending - {phone});
      if OwnedByAnother(s.users, phone, u) then (cleared, Refused(PhoneTaken))
      else (cleared.(users := s.users[u := User(Some(phone), true)]), Bound(phone))
  }

  class Claim {
    var codes: map<Otp, Keyed<Phone>>
    var pending: map<Phone, Keyed<Otp>>
    var users: seq<User>

    constructor ()
      ensures State() == BLANK
    {
      codes, pending, users := map[], map[], [];
    }

    ghost function State(): Claims
      reads this
    {
      Claims(codes, pending, users)
    }

    method IssuePhoneOtp(phone: Phone, rolls: Rolls, now: Time, delay: nat) returns (r: Reply)
      modifies this
      ensures (State(), r) == Issue(old(State()), phone, rolls, now, delay)
    {
      for i := 0 to |users|
        invariant forall j :: 0 <= j < i ==> users[j].phone != Some(phone)
        invariant State() == old(State())
      {
        if users[i].phone == Some(phone) {
          return Refused(PhoneTaken);
        }
      }
      if phone in pending && now < pending[phone].until {
        codes := codes - {pending[phone].value};
      }
      for i := 0 to 5
        invariant forall j :: 0 <= j < i ==> Live(codes, rolls[j], now)
        invariant State() == old(State()).(codes := Superseded(old(State()), phone, now))
      {
        if !(rolls[i] in codes && now < codes[rolls[i]].until) {
          codes := codes[rolls[i] := Keyed(phone, now + TTL)];
          pending := pending[phone := Keyed(rolls[i], now + delay + TTL)];
          return Minted(rolls[i]);
        }
      }
      return Refused(NoFreeCode);
    }

    method VerifyPhone(u: UserId, otp: Otp, now: Time) returns (r: Reply)
      modifies this
      ensures (State(), r) == Verify(old(State()), u, otp, now)
    {
      if u >= |users| {
        return Refused(Unauthenticated);
      }
      if users[u].verified {
        return Refused(AlreadyVerified);
      }
      if !(otp in codes && now < codes[otp].until) {
        return Refused(InvalidCode);
      }
      var phone := codes[otp].value;
      for i := 0 to |users|
        invariant forall j :: 0 <= j < i && j != u ==> users[j].phone != Some(phone)
        invariant State() == old(State())
      {
        if i != u && users[i].phone == Some(phone) {
          codes, pending := codes - {otp}, pending - {phone};
          return Refused(PhoneTaken);
        }
      }
      users := users[u := users[u].(phone := Some(phone))];
      users := users[u := users[u].(verified := true)];
      assert users == old(users)[u := User(Some(phone), true)];
      codes, pending := codes - {otp}, pending - {phone};
      return Bound(phone);
    }
  }

  // ---------- Runs ----------

  datatype Event =
    | Join(at: Time)
    | Ask(phone: Phone, rolls: Rolls, at: Time, delay: nat)
    | Submit(user: UserId, otp: Otp, at: Time)

  function Apply(s: Claims, e: Event): (Claims, Reply) {
    match e
    case Join(_) => SignUp(s)
    case Ask(phone, rolls, at, delay) => Issue(s, phone, rolls, at, delay)
    case Submit(u, otp, at) => Verify(s, u, otp, at)
  }

  function Run(events: seq<Event>): Claims {
    if events == [] then BLANK else Apply(Run(events[..|events| - 1]), events[|events| - 1]).0
  }

  /** The reply to the last event of a run. */
  function Answer(events: seq<Event>): Reply
    requires events != []
  {
    Apply(Run(events[..|events| - 1]), events[|events| - 1]).1
  }

  ghost predicate Clocked(events: seq<Event>) {
    forall i, j :: 0 <= i < j < |events| ==> events[i].at <= events[j].at
  }

  // ---------- The answers ----------

  /** Code o is live, and not the one this phone's own live back link is about to delete. */
  predicate InUse(s: Claims, phone: Phone, o: Otp, now: Time) {
    && o in s.codes && now < s.codes[o].until
    && !(phone in s.pending && now < s.pending[phone].until && s.pending[phone].value == o)
  }

  /** The codes of q are those of s without the one the phone's live back link names. */
  ghost predicate Forgets(s: Claims, codes: map<Otp, Keyed<Phone>>, phone: Phone, now: Time) {
    forall o :: if phone in s.pending && now < s.pending[phone].until && s.pending[phone].value == o then o !in codes
                else (o in codes <==> o in s.codes) && (o in s.codes ==> codes[o] == s.codes[o])
  }

  /** A request is refused exactly if the phone is owned, or if all five rolls are in use; then
      only the phone's previous code is gone. Otherwise the first roll not in use is minted, for
      fifteen minutes both ways. */
  lemma IssueIff(s: Claims, phone: Phone, rolls: Rolls, now: Time, delay: nat)
    ensures var (q, reply) := Apply(s, Ask(phone, rolls, now, delay));
            if exists i :: 0 <= i < |s.users| && s.users[i].phone == Some(phone) then
              q == s && reply == Refused(PhoneTaken)
            else if forall i :: 0 <= i < 5 ==> InUse(s, phone, rolls[i], now) then
              reply == Refused(NoFreeCode) && q.pending == s.pending && q.users == s.users
              && Forgets(s, q.codes, phone, now)
            else exists k, codes :: MintsAt(s, phone, rolls, now, k) && Forgets(s, codes, phone, now)
                   && reply == Minted(rolls[k])
                   && q == Claims(codes[rolls[k] := Keyed(phone, now + 15 * 60 * 1_000_000)],
                                  s.pending[phone := Keyed(rolls[k], now + delay + 15 * 60 * 1_000_000)], s.users)
  {
    hide First, InUse;
    var codes := Superseded(s, phone, now);
    SupersededForgets(s, phone, now);
    forall o: Otp ensures Live(codes, o, now) <==> InUse(s, phone, o, now) {
      StillInUse(s, phone, o, now);
    }
    var f := First(rolls, (o: Otp) => !Live(codes, o, now));
    if f.Some? {
      assert MintsAt(s, phone, rolls, now, f.value);
    }
  }

  /** The k-th roll is the first that is not in use. */
  ghost predicate MintsAt(s: Claims, phone: Phone, rolls: Rolls, now: Time, k: int) {
    0 <= k < 5 && !InUse(s, phone, rolls[k], now) && forall i :: 0 <= i < k ==> InUse(s, phone, rolls[i], now)
  }

  lemma SupersededForgets(s: Claims, phone: Phone, now: Time)
    ensures Forgets(s, Superseded(s, phone, now), phone, now)
  {
  }

  lemma StillInUse(s: Claims, phone: Phone, o: Otp, now: Time)
    ensures Live(Superseded(s, phone, now), o, now) <==> InUse(s, phone, o, now)
  {
  }

  /** A submitted code binds its phone exactly for a known, unverified user, while the code is
      live and no other user has the phone; found live, it is used up either way. */
  lemma VerifyIff(s: Claims, u: UserId, otp: Otp, now: Time)
    ensures var (q, reply) := Apply(s, Submit(u, otp, now));
            if u >= |s.users| then q == s && reply == Refused(Unauthenticated)
            else if s.users[u].verified then q == s && reply == Refused(AlreadyVerified)
            else if otp !in s.codes || s.codes[otp].until <= now then q == s && reply == Refused(InvalidCode)
            else
              var phone := s.codes[otp].value;
              && q.codes == s.codes - {otp} && q.pending == s.pending - {phone}
              && if exists i :: 0 <= i < |s.users| && i != u && s.users[i].phone == Some(phone)
                 then q.users == s.users && reply == Refused(PhoneTaken)
                 else q.users == s.users[u := User(Some(phone), true)] && reply == Bound(phone)
  {
    hide Issue;
  }

  // ---------- The two maps agree ----------

  /** Every live code has a back link from its phone that expires no earlier. */
  ghost predicate Paired(s: Claims, now: Time) {
    forall o :: Live(s.codes, o, now) ==> PointsBack(s, o)
  }

  ghost predicate PointsBack(s: Claims, o: Otp)
    requires o in s.codes
  {
    var phone := s.codes[o].value;
    phone in s.pending && s.pending[phone].value == o && s.codes[o].until <= s.pending[phone].until
  }

  lemma IssueKeepsPaired(s: Claims, phone: Phone, rolls: Rolls, now: Time, delay: nat)
    requires Paired(s, now)
    ensures Paired(Issue(s, phone, rolls, now, delay).0, now)
  {
    var q := Issue(s, phone, rolls, now, delay).0;
    var codes := Superseded(s, phone, now);
    forall o | Live(q.codes, o, now) ensures PointsBack(q, o) {
      if q.codes[o] == Keyed(phone, now + TTL) && q.pending == s.pending[phone := Keyed(o, now + delay + TTL)] {
      } else {
        assert Live(s.codes, o, now) && PointsBack(s, o);
      }
    }
  }

  lemma VerifyKeepsPaired(s: Claims, u: UserId, otp: Otp, now: Time)
    requires Paired(s, now)
    ensures Paired(Verify(s, u, otp, now).0, now)
  {
    var q := Verify(s, u, otp, now).0;
    forall o | Live(q.codes, o, now) ensures PointsBack(q, o) {
      assert Live(s.codes, o, now) && PointsBack(s, o);
      assert Live(s.codes, otp, now) ==> PointsBack(s, otp);
    }
  }

  lemma {:induction false} RunKeepsPaired(events: seq<Event>, now: Time)
    requires Clocked(events) && (events != [] ==> events[|events| - 1].at <= now)
    ensures Paired(Run(events), now)
  {
    if events != [] {
      hide Issue, Verify;
      var n := |events| - 1;
      RunKeepsPaired(events[..n], events[n].at);
      var s := Run(events[..n]);
      match events[n] {
        case Join(_) =>
        case Ask(phone, rolls, at, delay) => IssueKeepsPaired(s, phone, rolls, at, delay);
        case Submit(u, otp, at) => VerifyKeepsPaired(s, u, otp, at);
      }
      assert Paired(Run(events), events[n].at);
    }
  }

  /** At most one live code per phone, at every moment of every run. */
  lemma {:induction false} OneLiveCodePerPhone(events: seq<Event>, now: Time, a: Otp, b: Otp)
    requires Clocked(events) && (events != [] ==> events[|events| - 1].at <= now)
    requires Live(Run(events).codes, a, now) && Live(Run(events).codes, b, now)
    requires Run(events).codes[a].value == Run(events).codes[b].value
    ensures a == b
  {
    RunKeepsPaired(events, now);
    assert PointsBack(Run(events), a) && PointsBack(Run(events), b);
  }

  // ---------- Owners ----------

  /** No two users hold the same phone, and exactly the verified users hold one. */
  ghost predicate Owners(users: seq<User>) {
    && (forall i, j :: 0 <= i < j < |users| && users[i].phone.Some? ==> users[i].phone != users[j].phone)
    && (forall i :: 0 <= i < |users| ==> (users[i].verified <==> users[i].phone.Some?))
  }

  /** Who holds which phone never changes once set. */
  ghost predicate Holds(users: seq<User>, users': seq<User>) {
    && |users| <= |users'|
    && forall i :: 0 <= i < |users| && users[i].phone.Some? ==> users'[i] == users[i]
  }

  lemma StepKeepsOwners(s: Claims, e: Event)
    requires Owners(s.users)
    ensures Owners(Apply(s, e).0.users) && Holds(s.users, Apply(s, e).0.users)
  {
    hide Issue, First;
    if e.Ask? {
      IssueLeavesUsers(s, e.phone, e.rolls, e.at, e.delay);
    }
  }

  lemma IssueLeavesUsers(s: Claims, phone: Phone, rolls: Rolls, now: Time, delay: nat)
    ensures Issue(s, phone, rolls, now, delay).0.users == s.users
  {
  }

  /** No two users ever hold the same phone number. */
  lemma {:induction false} RunKeepsOwners(events: seq<Event>)
    ensures Owners(Run(events).users)
  {
    if events != [] {
      RunKeepsOwners(events[..|events| - 1]);
      StepKeepsOwners(Run(events[..|events| - 1]), events[|events| - 1]);
    }
  }

  /** A bound phone stays with its user for good, and no code is ever minted for it again. */
  lemma {:induction false} BindingIsFinal(events: seq<Event>, n: nat, u: UserId)
    requires n <= |events| && u < |Run(events[..n]).users| && Run(events[..n]).users[u].phone.Some?
    ensures u < |Run(events).users| && Run(events).users[u] == Run(events[..n]).users[u]
    ensures n < |events| && AsksFor(events[|events| - 1], Run(events[..n]).users[u].phone) ==>
              Answer(events) == Refused(PhoneTaken)
    decreases |events|
  {
    hide Apply;
    if n == |events| {
      assert events[..n] == events;
    } else {
      var m := |events| - 1;
      assert events[..m][..n] == events[..n];
      BindingIsFinal(events[..m], n, u);
      RunKeepsOwners(events[..m]);
      StepKeepsOwners(Run(events[..m]), events[m]);
      if events[m].Ask? {
        OwnedIsRefused(Run(events[..m]), events[m], u);
      }
    }
  }

  predicate AsksFor(e: Event, phone: Option<Phone>) { e.Ask? && Some(e.phone) == phone }

  lemma OwnedIsRefused(s: Claims, e: Event, u: UserId)
    requires e.Ask? && u < |s.users|
    ensures s.users[u].phone == Some(e.phone) ==> Apply(s, e).1 == Refused(PhoneTaken)
  {
  }

  // ---------- What a code is worth ----------

  /** The phone of the latest request answered with this code. */
  function LastMinted(events: seq<Event>, otp: Otp): Option<Phone> {
    if events == [] then None
    else if Answer(events) == Minted(otp) && events[|events| - 1].Ask? then Some(events[|events| - 1].phone)
    else LastMinted(events[..|events| - 1], otp)
  }

  lemma {:induction false} CodesRememberPhones(events: seq<Event>, otp: Otp)
    ensures otp in Run(events).codes ==> LastMinted(events, otp) == Some(Run(events).codes[otp].value)
  {
    if events != [] {
      hide First;
      CodesRememberPhones(events[..|events| - 1], otp);
    }
  }

  /** Submitting a code binds exactly the phone it was last minted for, to the submitter. */
  lemma {:induction false} BindsTheMintedPhone(events: seq<Event>)
    requires events != [] && events[|events| - 1].Submit? && Answer(events).Bound?
    ensures var e := events[|events| - 1];
            && LastMinted(events[..|events| - 1], e.otp) == Some(Answer(events).phone)
            && Run(events).users == Run(events[..|events| - 1]).users[e.user := User(Some(Answer(events).phone), true)]
  {
    CodesRememberPhones(events[..|events| - 1], events[|events| - 1].otp);
  }

  /** How often a code was handed out, and how often it bound a phone. */
  function Mints(events: seq<Event>, otp: Otp): nat {
    if events == [] then 0
    else Mints(events[..|events| - 1], otp) + if Answer(events) == Minted(otp) then 1 else 0
  }

  function Binds(events: seq<Event>, otp: Otp): nat {
    if events == [] then 0
    else
      var e := events[|events| - 1];
      Binds(events[..|events| - 1], otp) + if e.Submit? && e.otp == otp && Answer(events).Bound? then 1 else 0
  }

  /** A code is consumed by use: it never binds more often than it was minted. */
  lemma {:induction false} CodesAreConsumed(events: seq<Event>, otp: Otp)
    ensures Binds(events, otp) + (if otp in Run(events).codes then 1 else 0) <= Mints(events, otp)
  {
    if events != [] {
      hide Apply;
      CodesAreConsumed(events[..|events| - 1], otp);
      StepConsumes(Run(events[..|events| - 1]), events[|events| - 1], otp);
    }
  }

  lemma StepConsumes(s: Claims, e: Event, otp: Otp)
    ensures otp in Apply(s, e).0.codes && otp !in s.codes ==> Apply(s, e).1 == Minted(otp)
    ensures e.Submit? && e.otp == otp && Apply(s, e).1.Bound? ==> otp in s.codes && otp !in Apply(s, e).0.codes
    ensures Apply(s, e).1.Bound? ==> e.Submit?
  {
    hide First;
  }

  // ---------- Another phone's code ----------

  /** A request for one phone deletes another phone's live code exactly when its own
      live back link dangles at that code. */
  lemma IssueSparesOthersIff(s: Claims, phone: Phone, rolls: Rolls, now: Time, delay: nat, o: Otp)
    requires Live(s.codes, o, now) && s.codes[o].value != phone && !Owned(s.users, phone)
    ensures var codes := Issue(s, phone, rolls, now, delay).0.codes;
            o in codes && codes[o] == s.codes[o] <==> !(Live(s.pending, phone, now) && s.pending[phone].value == o)
  {
    var codes := Superseded(s, phone, now);
    var f := First(rolls, (o: Otp) => !Live(codes, o, now));
  }

  /** No live back link dangles. */
  ghost predicate Mutual(s: Claims, now: Time) {
    forall p :: Live(s.pending, p, now) ==>
      s.pending[p].value in s.codes && s.codes[s.pending[p].value] == Keyed(p, s.pending[p].until)
  }

  /** Requests that finish within the microsecond and find a free code. */
  ghost predicate Prompt(events: seq<Event>) {
    forall i :: 0 <= i < |events| && events[i].Ask? ==>
      events[i].delay == 0 && Answer(events[..i + 1]) != Refused(NoFreeCode)
  }

  lemma StepKeepsMutual(s: Claims, e: Event)
    requires Paired(s, e.at) && Mutual(s, e.at)
    requires e.Ask? ==> e.delay == 0 && Apply(s, e).1 != Refused(NoFreeCode)
    ensures Mutual(Apply(s, e).0, e.at)
  {
    var q := Apply(s, e).0;
    forall p | Live(q.pending, p, e.at)
      ensures q.pending[p].value in q.codes && q.codes[q.pending[p].value] == Keyed(p, q.pending[p].until)
    {
      if e.Ask? && p == e.phone && q != s {
      } else {
        assert Live(s.pending, p, e.at);
        var o := s.pending[p].value;
        assert Live(s.codes, o, e.at);
        assert PointsBack(s, o);
      }
    }
  }

  /** In such runs a request never disturbs another phone's code. */
  lemma {:induction false} PromptRunsSpareOthers(events: seq<Event>, phone: Phone, rolls: Rolls, now: Time,
      delay: nat, o: Otp)
    requires Clocked(events) && (events != [] ==> events[|events| - 1].at <= now) && Prompt(events)
    requires Live(Run(events).codes, o, now) && Run(events).codes[o].value != phone
    ensures var codes := Issue(Run(events), phone, rolls, now, delay).0.codes;
            o in codes && codes[o] == Run(events).codes[o]
  {
    hide Issue, Apply;
    PromptRunsAreMutual(events, now);
    OthersAreSpared(Run(events), phone, rolls, now, delay, o);
  }

  lemma OthersAreSpared(s: Claims, phone: Phone, rolls: Rolls, now: Time, delay: nat, o: Otp)
    requires Mutual(s, now) && Live(s.codes, o, now) && s.codes[o].value != phone
    ensures var codes := Issue(s, phone, rolls, now, delay).0.codes;
            o in codes && codes[o] == s.codes[o]
  {
    if !Owned(s.users, phone) {
      IssueSparesOthersIff(s, phone, rolls, now, delay, o);
    }
  }

  lemma {:induction false} PromptRunsAreMutual(events: seq<Event>, now: Time)
    requires Clocked(events) && (events != [] ==> events[|events| - 1].at <= now) && Prompt(events)
    ensures Mutual(Run(events), now)
  {
    if events != [] {
      hide Apply, Paired;
      var n := |events| - 1;
      assert events[..n + 1] == events;
      forall i | 0 <= i < n && events[..n][i].Ask?
        ensures events[..n][i].delay == 0 && Answer(events[..n][..i + 1]) != Refused(NoFreeCode)
      {
        assert events[..n][..i + 1] == events[..i + 1];
        assert events[i].Ask?;
      }
      PromptRunsAreMutual(events[..n], events[n].at);
      RunKeepsPaired(events[..n], events[n].at);
      StepKeepsMutual(Run(events[..n]), events[n]);
    }
  }

  function Same(o: Otp): Rolls { [o, o, o, o, o] }

  /** Minting when the first roll is free. */
  lemma FirstRollFree(s: Claims, phone: Phone, o: Otp, now: Time, delay: nat)
    requires !Owned(s.users, phone) && !Live(Superseded(s, phone, now), o, now)
    ensures Issue(s, phone, Same(o), now, delay)
         == (Claims(Superseded(s, phone, now)[o := Keyed(phone, now + TTL)],
                    s.pending[phone := Keyed(o, now + delay + TTL)], s.users), Minted(o))
  {
  }

  /** Without that proviso it happens: the first phone's back link outlives its code by
      the delay, the code is drawn again for the second phone, and re-issuing for the
      first phone deletes it. */
  lemma SlowIssueDeletesAnothersCode(a: Phone, b: Phone, o: Otp, next: Otp)
    requires a != b && o != next
    ensures var events := [Ask(a, Same(o), 0, 1), Ask(b, Same(o), TTL, 0)];
            var s := Run(events);
            && Clocked(events) && Live(s.codes, o, TTL) && s.codes[o].value == b
            && Issue(s, a, Same(next), TTL, 0).1 == Minted(next)
            && o !in Issue(s, a, Same(next), TTL, 0).0.codes
  {
    hide Issue;
    var first, second := Ask(a, Same(o), 0, 1), Ask(b, Same(o), TTL, 0);
    var events := [first, second];
    assert events[..1] == [first] && [first][..0] == [];
    FirstRollFree(BLANK, a, o, 0, 1);
    var s := Run([first]);
    assert s == Apply(Run([]), first).0;
    FirstRollFree(s, b, o, TTL, 0);
    assert Run(events) == Issue(s, b, Same(o), TTL, 0).0;
    FirstRollFree(Run(events), a, next, TTL, 0);
  }

  /** When all five rolls are live codes, none is minted, but the phone's previous code is
      gone and its back link stays. */
  lemma NoRollFree(s: Claims, phone: Phone, o: Otp, now: Time, delay: nat)
    requires !Owned(s.users, phone) && Live(Superseded(s, phone, now), o, now)
    ensures Issue(s, phone, Same(o), now, delay) ==
            (s.(codes := Superseded(s, phone, now)), Refused(NoFreeCode))
  {
  }

  /** The other clause of the proviso is needed too: without any delay, a request that
      finds no free code leaves the first phone's back link dangling; the code is drawn
      again for another phone, and re-issuing for the first one deletes it. */
  lemma FailedIssueDeletesAnothersCode(a: Phone, b: Phone, d: Phone, o: Otp, r: Otp, next: Otp)
    requires a != b && a != d && b != d && o != r && next != o && next != r
    ensures var events := [Ask(d, Same(r), 0, 0), Ask(a, Same(o), 0, 0), Ask(a, Same(r), 0, 0), Ask(b, Same(o), 0, 0)];
            var s := Run(events);
            && Clocked(events) && Answer(events[..3]) == Refused(NoFreeCode)
            && Live(s.codes, o, 0) && s.codes[o].value == b
            && Issue(s, a, Same(next), 0, 0).1 == Minted(next)
            && o !in Issue(s, a, Same(next), 0, 0).0.codes
  {
    hide Issue, Superseded;
    var e1, e2, e3, e4 := Ask(d, Same(r), 0, 0), Ask(a, Same(o), 0, 0), Ask(a, Same(r), 0, 0), Ask(b, Same(o), 0, 0);
    var events := [e1, e2, e3, e4];
    assert events[..3] == [e1, e2, e3] && [e1, e2, e3][..2] == [e1, e2];
    FailedAsk(a, d, o, r);
    var s3 := Run([e1, e2, e3]);
    NoLink(s3, b, 0);
    FirstRollFree(s3, b, o, 0, 0);
    assert Run(events) == Apply(s3, e4).0;
    LinkDeletes(Run(events), a, 0);
    FirstRollFree(Run(events), a, next, 0, 0);
  }

  lemma NoLink(s: Claims, phone: Phone, now: Time)
    requires phone !in s.pending
    ensures Superseded(s, phone, now) == s.codes
  {
  }

  lemma LinkDeletes(s: Claims, phone: Phone, now: Time)
    requires Live(s.pending, phone, now)
    ensures Superseded(s, phone, now) == s.codes - {s.pending[phone].value}
  {
  }

  /** The state a failed request leaves behind. */
  lemma FailedAsk(a: Phone, d: Phone, o: Otp, r: Otp)
    requires a != d && o != r
    ensures var s := Run([Ask(d, Same(r), 0, 0), Ask(a, Same(o), 0, 0), Ask(a, Same(r), 0, 0)]);
            s == Claims(map[r := Keyed(d, TTL)], map[d := Keyed(r, TTL), a := Keyed(o, TTL)], [])
    ensures var events := [Ask(d, Same(r), 0, 0), Ask(a, Same(o), 0, 0), Ask(a, Same(r), 0, 0)];
            Apply(Run(events[..2]), events[2]).1 == Refused(NoFreeCode)
  {
    hide Issue, Superseded;
    var e1, e2, e3 := Ask(d, Same(r), 0, 0), Ask(a, Same(o), 0, 0), Ask(a, Same(r), 0, 0);
    assert [e1][..0] == [] && [e1, e2][..1] == [e1] && [e1, e2, e3][..2] == [e1, e2];
    NoLink(BLANK, d, 0);
    FirstRollFree(BLANK, d, r, 0, 0);
    var s1 := Claims(map[r := Keyed(d, TTL)], map[d := Keyed(r, TTL)], []);
    assert Run([e1]) == Apply(Run([]), e1).0 == s1;
    NoLink(s1, a, 0);
    FirstRollFree(s1, a, o, 0, 0);
    var s2 := Claims(map[r := Keyed(d, TTL), o := Keyed(a, TTL)], map[d := Keyed(r, TTL), a := Keyed(o, TTL)], []);
    assert Run([e1, e2]) == Apply(s1, e2).0 == s2;
    LinkDeletes(s2, a, 0);
    NoRollFree(s2, a, r, 0, 0);
    assert s2.codes - {o} == map[r := Keyed(d, TTL)];
    assert Run([e1, e2, e3]) == Apply(s2, e3).0;
  }
}

/** The sliding-window rate limiter over one Redis sorted set. Times are whole
    microseconds; the recorded member is determined by the request time. */
module RateLimit {
  import opened Prelude

  type Time = nat

  /** Window length in seconds. */
  type Window = w: nat | w > 0 witness 60

  const SECOND := 1_000_000

  /** The sorted set's scores, and when Redis will drop the key. */
  datatype Bucket = Bucket(members: set<Time>, expiresAt: Option<int>)

  const EMPTY := Bucket({}, None)

  /** What the key holds when it is touched at `now`. */
  function Stored(b: Bucket, now: Time): set<Time> {
    if b.expiresAt.Some? && b.expiresAt.value <= now then {} else b.members
  }

  /** The part of `times` inside the half-open window (now - window, now], or later. */
  function Recent(times: set<Time>, window: Window, now: Time): set<Time> {
    set t | t in times && t > now - window * SECOND
  }

  /** ZREMRANGEBYSCORE 0 (now - window), then ZADD now. */
  function Touched(b: Bucket, window: Window, now: Time): set<Time> {
    Recent(Stored(b, now), window, now) + {now}
  }

  class SortedSet {
    var members: set<Time>
    var expiresAt: Option<int>

    constructor ()
      ensures State() == EMPTY
    {
      members, expiresAt := {}, None;
    }

    ghost function State(): Bucket
      reads this
    {
      Bucket(members, expiresAt)
    }

    /** True when the request may proceed; `up` is false when Redis is unreachable. */
    method CheckLimit(limit: nat, window: Window, now: Time, up: bool) returns (allowed: bool)
      modifies this
      ensures State() == After(old(State()), window, now, up)
      ensures allowed <==> Allows(old(State()), limit, window, now, up)
    {
      if !up {
        return true;
      }
      if expiresAt.Some? && expiresAt.value <= now {
        members := {};
      }
      members := set t | t in members && t > now - window * SECOND;
      members := members + {now};
      var count := |members|;
      expiresAt := Some(now + (window + 1) * SECOND);
      return !(count > limit);
    }
  }

  function After(b: Bucket, window: Window, now: Time, up: bool): Bucket {
    if up then Bucket(Touched(b, window, now), Some(now + (window + 1) * SECOND)) else b
  }

  predicate Allows(b: Bucket, limit: nat, window: Window, now: Time, up: bool) {
    !up || |Touched(b, window, now)| <= limit
  }

  // ---------- Runs ----------

  datatype Request = Request(at: Time, up: bool)

  function Run(window: Window, run: seq<Request>): Bucket {
    if run == [] then EMPTY
    else After(Run(window, run[..|run| - 1]), window, run[|run| - 1].at, run[|run| - 1].up)
  }

  ghost predicate Clocked(run: seq<Request>) {
    forall i, j :: 0 <= i < j < |run| ==> run[i].at <= run[j].at
  }

  ghost predicate StrictlyClocked(run: seq<Request>) {
    forall i, j :: 0 <= i < j < |run| ==> run[i].at < run[j].at
  }

  /** Every time Redis was asked to record, allowed or rejected. */
  function Recorded(run: seq<Request>): (r: set<Time>)
    ensures forall t :: t in r <==> exists i :: 0 <= i < |run| && run[i].up && run[i].at == t
  {
    if run == [] then {}
    else
      var n := |run| - 1;
      var r := Recorded(run[..n]);
      assert forall i :: 0 <= i < n ==> run[..n][i] == run[i];
      if run[n].up then r + {run[n].at} else r
  }

  /** What the key holds, seen through any window ending now, is exactly the recorded
      history in that window: neither pruning nor the key's expiry loses a member. */
  lemma {:induction false} StoredIsHistory(window: Window, run: seq<Request>, now: Time)
    requires Clocked(run) && (run != [] ==> run[|run| - 1].at <= now)
    ensures Recent(Stored(Run(window, run), now), window, now) == Recent(Recorded(run), window, now)
  {
    if run != [] {
      var n := |run| - 1;
      StoredIsHistory(window, run[..n], if run[n].up then run[n].at else now);
      if run[n].up {
        ExpiryIsHarmless(window, run, now);
      }
    }
  }

  lemma ExpiryIsHarmless(window: Window, run: seq<Request>, now: Time)
    requires Clocked(run) && run != [] && run[|run| - 1].up && run[|run| - 1].at <= now
    requires var n := |run| - 1;
             Recent(Stored(Run(window, run[..n]), run[n].at), window, run[n].at)
               == Recent(Recorded(run[..n]), window, run[n].at)
    ensures Recent(Stored(Run(window, run), now), window, now) == Recent(Recorded(run), window, now)
  {
    var n := |run| - 1;
    var at := run[n].at;
    assert Recorded(run) == Recorded(run[..n]) + {at};
    var members := Recent(Recorded(run[..n]), window, at) + {at};
    assert Run(window, run) == Bucket(members, Some(at + (window + 1) * SECOND));
    assert forall t :: t in Recorded(run) ==> t <= at;
  }

  /** A request is judged by the number of distinct recorded times in (now - window, now]. */
  lemma JudgedByWindow(limit: nat, window: Window, run: seq<Request>, r: Request)
    requires Clocked(run + [r]) && r.up
    ensures Run(window, run + [r]).members == Recent(Recorded(run + [r]), window, r.at)
    ensures Allows(Run(window, run), limit, window, r.at, true)
       <==> |Recent(Recorded(run + [r]), window, r.at)| <= limit
  {
    var all := run + [r];
    assert all[..|all| - 1] == run;
    assert forall i :: 0 <= i < |run| ==> run[i] == all[i];
    assert run != [] ==> run[|run| - 1].at <= all[|run|].at;
    StoredIsHistory(window, run, r.at);
    assert Recorded(all) == Recorded(run) + {r.at};
    assert Recent(Recorded(all), window, r.at) == Recent(Recorded(run), window, r.at) + {r.at};
  }

  /** Exactly when a request passes: if Redis is down, or at most `limit` distinct times, its
      own included, were recorded during the last `window` seconds. */
  lemma VerdictIff(limit: nat, window: Window, run: seq<Request>, r: Request)
    requires Clocked(run + [r])
    ensures Allows(Run(window, run), limit, window, r.at, r.up) <==>
              (r.up ==> |set t | t in Recorded(run + [r]) && r.at - window * 1_000_000 < t <= r.at| <= limit)
  {
    if r.up {
      JudgedByWindow(limit, window, run, r);
      assert (run + [r])[|run|] == r;
      assert Recent(Recorded(run + [r]), window, r.at)
          == set t | t in Recorded(run + [r]) && r.at - window * 1_000_000 < t <= r.at;
    }
  }

  // ---------- The limit ----------

  /** Requests Redis judged and let through at a time in (from, from + window]. */
  function Passes(limit: nat, window: Window, run: seq<Request>, from: int): nat {
    if run == [] then 0
    else
      var n := |run| - 1;
      Passes(limit, window, run[..n], from) + if Passing(limit, window, run, from) then 1 else 0
  }

  predicate Passing(limit: nat, window: Window, run: seq<Request>, from: int)
    requires run != []
  {
    var n := |run| - 1;
    && run[n].up && from < run[n].at <= from + window * SECOND
    && Allows(Run(window, run[..n]), limit, window, run[n].at, true)
  }

  /** The instants at which they were let through. */
  function PassedAt(limit: nat, window: Window, run: seq<Request>, from: int): set<Time> {
    if run == [] then {}
    else
      var n := |run| - 1;
      PassedAt(limit, window, run[..n], from) + if Passing(limit, window, run, from) then {run[n].at} else {}
  }

  lemma {:induction false} PassedIsRecorded(limit: nat, window: Window, run: seq<Request>, from: int)
    requires Clocked(run)
    ensures forall t :: t in PassedAt(limit, window, run, from) ==> t in Recorded(run) && from < t
    ensures forall t :: t in PassedAt(limit, window, run, from) ==> run != [] && t <= run[|run| - 1].at
  {
    hide Allows, Run;
    if run != [] {
      var n := |run| - 1;
      PassedIsRecorded(limit, window, run[..n], from);
      assert n > 0 ==> run[..n][n - 1] == run[n - 1] && run[n - 1].at <= run[n].at;
    }
  }

  /** However many requests arrive, however they coincide and however many are rejected,
      no half-open window ever contains more than `limit` instants at which a request was
      let through. */
  lemma {:induction false} WindowNeverExceedsLimit(limit: nat, window: Window, run: seq<Request>, from: int)
    requires Clocked(run)
    ensures |PassedAt(limit, window, run, from)| <= limit
  {
    if run != [] {
      var n := |run| - 1;
      WindowNeverExceedsLimit(limit, window, run[..n], from);
      if Passing(limit, window, run, from) {
        hide PassedAt, Run;
        assert run[..n] + [run[n]] == run;
        JudgedByWindow(limit, window, run[..n], run[n]);
        PassedIsRecorded(limit, window, run, from);
        SubsetSize(PassedAt(limit, window, run, from), Recent(Recorded(run), window, run[n].at));
      }
    }
  }

  /** At strictly increasing times instants are requests, so the limit bounds requests. */
  lemma {:induction false} DistinctRequestsWithinLimit(limit: nat, window: Window, run: seq<Request>, from: int)
    requires StrictlyClocked(run)
    ensures Passes(limit, window, run, from) == |PassedAt(limit, window, run, from)| <= limit
  {
    hide Allows, Run;
    WindowNeverExceedsLimit(limit, window, run, from);
    if run != [] {
      var n := |run| - 1;
      DistinctRequestsWithinLimit(limit, window, run[..n], from);
      PassedIsRecorded(limit, window, run[..n], from);
      assert n > 0 ==> run[..n][n - 1] == run[n - 1] && run[n - 1].at < run[n].at;
    }
  }

  /** `count` requests in the same microsecond. */
  function Burst(at: Time, count: nat): seq<Request> { seq(count, _ => Request(at, true)) }

  /** Recording a second request at the same instant changes nothing about the verdict. */
  lemma SameInstantSameVerdict(limit: nat, window: Window, b: Bucket, at: Time)
    ensures Touched(After(b, window, at, true), window, at) == Touched(b, window, at)
    ensures Allows(After(b, window, at, true), limit, window, at, true) <==> Allows(b, limit, window, at, true)
  {
    var t := Touched(b, window, at);
    assert Recent(t, window, at) + {at} == t;
  }

  /** So a burst passes or fails as one: how many of it pass is all or none. */
  lemma {:induction false} BurstPasses(limit: nat, window: Window, run: seq<Request>, at: Time, count: nat, from: int)
    ensures Passes(limit, window, run + Burst(at, count), from)
         == Passes(limit, window, run, from)
            + if from < at <= from + window * SECOND &&
                Allows(Run(window, run), limit, window, at, true) then count else 0
    ensures count > 0 ==> Run(window, run + Burst(at, count)) == After(Run(window, run), window, at, true)
    decreases count
  {
    hide Allows, After;
    if count == 0 {
      assert run + Burst(at, 0) == run;
    } else {
      var all := run + Burst(at, count);
      assert all[..|all| - 1] == run + Burst(at, count - 1) && all[|all| - 1] == Request(at, true);
      BurstPasses(limit, window, run, at, count - 1, from);
      SameInstantSameVerdict(limit, window, Run(window, run), at);
      AgainIsAfter(window, Run(window, run), at);
      assert count == 1 ==> run + Burst(at, 0) == run;
    }
  }

  lemma AgainIsAfter(window: Window, b: Bucket, at: Time)
    ensures After(After(b, window, at, true), window, at, true) == After(b, window, at, true)
  {
    SameInstantSameVerdict(0, window, b, at);
  }

  /** Between instants and requests lies the whole gap: simultaneous requests share one
      member, so under any limit but zero a burst of any size passes at a single instant. */
  lemma BurstSlipsThrough(limit: nat, window: Window, at: Time, count: nat)
    requires limit > 0
    ensures Passes(limit, window, Burst(at, count), at - 1) == count
  {
    BurstPasses(limit, window, [], at, count, at - 1);
    assert [] + Burst(at, count) == Burst(at, count);
    assert Touched(EMPTY, window, at) == {at};
  }

  /** Failing open: a request made while Redis is unreachable proceeds and leaves no
      trace, so the limit bounds only what Redis judged. */
  lemma OutageIsUnlimited(limit: nat, window: Window, run: seq<Request>, at: Time)
    ensures Allows(Run(window, run), limit, window, at, false)
    ensures Run(window, run + [Request(at, false)]) == Run(window, run)
    ensures Recorded(run + [Request(at, false)]) == Recorded(run)
  {
    var all := run + [Request(at, false)];
    assert all[..|all| - 1] == run;
  }
}

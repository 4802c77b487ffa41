/** The gate retold from a run's own history, without its stored row: which fetches it
    lets through, what they leave behind, and what the learner is served after them. */
module GateHistory {
  import opened Prelude
  import opened Playback
  import HlsText
  import M = Manifest
  import T = Timeline

  // ---------- What a run leaves behind ----------

  /** The fetches let through, from the learner's first one on. */
  function Admitted(c: Settings, lesson: Lesson, run: seq<Fetch>): seq<Fetch> {
    if run == [] then []
    else
      var n := |run| - 1;
      Admitted(c, lesson, run[..n]) + if AnswerAfter(c, lesson, run[..n], run[n]).Ok? then [run[n]] else []
  }

  /** The gate's answer to a fetch that follows the run. */
  function AnswerAfter(c: Settings, lesson: Lesson, run: seq<Fetch>, f: Fetch): Result<bool, Refusal> {
    Answer(c, lesson, Run(c, lesson, FRESH, run), f.seg, f.at)
  }

  /** The greatest index among the fetches, -1 if there are none. */
  function Highest(fetches: seq<Fetch>): int {
    if fetches == [] then -1 else Max(Highest(fetches[..|fetches| - 1]), fetches[|fetches| - 1].seg)
  }

  /** Whole seconds from one moment to another, none if that is not later. */
  function SecondsBetween(a: Micros, b: Micros): nat { if b <= a then 0 else (b - a) / 1_000_000 }

  /** Whole seconds a segment plays: its recorded length rounded, or the nominal one, and
      at least a second. */
  function Playing(c: Settings, lesson: Lesson, seg: nat): int {
    match lesson.durations
    case Some(ds) => Max(1, if seg < |ds| then RoundHalfEven(ds[seg]) else c.segmentSeconds)
    case None => Max(1, c.segmentSeconds)
  }

  /** The seconds between each fetch and the one before it, no gap counting for more than
      the segment it ends with plays. */
  function Banked(c: Settings, lesson: Lesson, fetches: seq<Fetch>): int {
    if |fetches| < 2 then 0
    else
      var n := |fetches| - 1;
      Banked(c, lesson, fetches[..n])
      + Min(SecondsBetween(fetches[n - 1].at, fetches[n].at), Playing(c, lesson, fetches[n].seg))
  }

  /** Playing time through the end of segment `seg`; nothing plays past the recorded ones. */
  function PlayedThrough(c: Settings, lesson: Lesson, seg: int): real {
    if seg < 0 then 0.0
    else
      PlayedThrough(c, lesson, seg - 1) +
      match lesson.durations
      case Some(ds) => if ds == [] then c.segmentSeconds as real else if seg < |ds| then ds[seg] else 0.0
      case None => c.segmentSeconds as real
  }

  /** When the last segment was first let through. */
  function FinishedAt(lesson: Lesson, fetches: seq<Fetch>): Option<Micros> {
    if fetches == [] || lesson.segmentsCount.None? then None
    else
      var n := |fetches| - 1;
      match FinishedAt(lesson, fetches[..n])
      case Some(t) => Some(t)
      case None => if Highest(fetches) >= lesson.segmentsCount.value - 1 then Some(fetches[n].at) else None
  }

  function LastAt(fetches: seq<Fetch>): Option<Micros> {
    if fetches == [] then None else Some(fetches[|fetches| - 1].at)
  }

  /** The row that a list of admitted fetches amounts to. */
  function Row(c: Settings, lesson: Lesson, a: seq<Fetch>): Progress {
    Progress(Highest(a), Banked(c, lesson, a), LastAt(a), FinishedAt(lesson, a))
  }

  /** The stored row is nothing but this history. */
  lemma {:induction false} RowIsHistory(c: Settings, lesson: Lesson, run: seq<Fetch>)
    ensures Run(c, lesson, FRESH, run) == Row(c, lesson, Admitted(c, lesson, run))
  {
    hide Answer, Step, Highest, Banked, LastAt, FinishedAt;
    if run == [] {
      NothingYet(c, lesson);
    } else {
      var n := |run| - 1;
      RowIsHistory(c, lesson, run[..n]);
      var a := Admitted(c, lesson, run[..n]);
      StepIsHistory(c, lesson, a, run[n]);
      assert a + [] == a;
    }
  }

  lemma NothingYet(c: Settings, lesson: Lesson)
    ensures Row(c, lesson, []) == FRESH
  {
  }

  lemma StepIsHistory(c: Settings, lesson: Lesson, a: seq<Fetch>, f: Fetch)
    ensures var p := Row(c, lesson, a);
            Step(c, lesson, p, f.seg, f.at) ==
              if Answer(c, lesson, p, f.seg, f.at).Ok? then Row(c, lesson, a + [f]) else p
  {
    hide Accepts, Completes, Earned, Banked, FinishedAt;
    var p := Row(c, lesson, a);
    AcceptedIsOk(c, lesson, p, f);
    assert (a + [f])[..|a|] == a;
    EarnedIsBanked(c, lesson, p, a, f);
    CompletesIs(lesson, p, a, f);
  }

  lemma AcceptedIsOk(c: Settings, lesson: Lesson, p: Progress, f: Fetch)
    ensures Answer(c, lesson, p, f.seg, f.at).Ok? <==> Accepts(c, lesson, p, f.seg, f.at)
  {
    hide Earned, Required;
  }

  lemma EarnedIsBanked(c: Settings, lesson: Lesson, p: Progress, a: seq<Fetch>, f: Fetch)
    requires p.lastAt == LastAt(a)
    ensures Banked(c, lesson, a + [f]) == Banked(c, lesson, a) + Earned(c, lesson, p, f.seg, f.at)
  {
    hide RoundHalfEven;
    assert (a + [f])[..|a|] == a;
    WholeIsRound(c.segmentSeconds);
    assert Playing(c, lesson, f.seg) == Clamp(c, lesson, f.seg);
    assert a != [] ==> Max(0, WholeSeconds(f.at - a[|a| - 1].at)) == SecondsBetween(a[|a| - 1].at, f.at);
  }

  lemma WholeIsRound(n: nat)
    ensures RoundHalfEven(n as real) == n
  {
  }

  lemma CompletesIs(lesson: Lesson, p: Progress, a: seq<Fetch>, f: Fetch)
    requires p.watermark == Highest(a) && p.completedAt == FinishedAt(lesson, a)
    ensures FinishedAt(lesson, a + [f]) == if Completes(lesson, p, f.seg) then Some(f.at) else p.completedAt
  {
    assert (a + [f])[..|a|] == a;
  }

  // ---------- The answers ----------

  lemma {:induction false} OffsetIsPlayed(c: Settings, lesson: Lesson, seg: nat)
    ensures EndOffset(c, lesson, seg) == PlayedThrough(c, lesson, seg)
  {
    hide Nominal;
    NominalGrows(c, seg);
    if seg > 0 {
      OffsetIsPlayed(c, lesson, seg - 1);
    } else if lesson.HasDurations() {
      assert PrefixSum(lesson.durations.value, 1) == PrefixSum(lesson.durations.value, 0) + lesson.durations.value[0];
    }
  }

  lemma QuotientIff(x: real, e: real, r: real)
    requires r > 0.0
    ensures x >= e / r <==> x * r >= e
  {
    var q := e / r;
    assert q * r == e;
    if x >= q {
      assert (x - q) * r >= 0.0;
    } else {
      assert (q - x) * r > 0.0;
    }
  }

  lemma PaidIff(c: Settings, lesson: Lesson, credit: int, top: int)
    requires credit >= 0
    ensures credit as real >= Required(c, lesson, top)
       <==> credit as real * c.maxRate >= PlayedThrough(c, lesson, top - c.lookahead)
  {
    hide EndOffset, PlayedThrough;
    if top >= c.lookahead {
      OffsetIsPlayed(c, lesson, top - c.lookahead);
      QuotientIff(credit as real, EndOffset(c, lesson, top - c.lookahead), c.maxRate);
    } else {
      NothingPlayed(c, lesson, top - c.lookahead);
      assert credit as real * c.maxRate >= 0.0;
    }
  }

  lemma NothingPlayed(c: Settings, lesson: Lesson, seg: int)
    requires seg < 0
    ensures PlayedThrough(c, lesson, seg) == 0.0
  {
  }

  lemma {:induction false} BankedIsNat(c: Settings, lesson: Lesson, fetches: seq<Fetch>)
    ensures Banked(c, lesson, fetches) >= 0
  {
    if |fetches| >= 2 {
      BankedIsNat(c, lesson, fetches[..|fetches| - 1]);
    }
  }

  /** Exactly how every fetch of every run is answered: as a skip iff it lies more than the
      look-ahead beyond the highest index let through before; any other fetch is let through
      iff the seconds banked, its own gap included, at the maximum rate cover the timeline
      up to the look-ahead behind the watermark it leaves; and it reports completion iff it
      is the first to reach the last segment. */
  lemma AnswerIff(c: Settings, lesson: Lesson, run: seq<Fetch>, f: Fetch)
    ensures var a, answer := Admitted(c, lesson, run), AnswerAfter(c, lesson, run, f);
            var top := Max(Highest(a), f.seg);
            && (answer == Err(SkipBlocked) <==> f.seg > Highest(a) + c.lookahead)
            && (f.seg <= Highest(a) + c.lookahead ==>
                  if Banked(c, lesson, a + [f]) as real * c.maxRate >= PlayedThrough(c, lesson, top - c.lookahead)
                  then answer.Ok? else answer == Err(RateExceeded))
            && (answer.Ok? ==>
                  (answer.value <==> lesson.segmentsCount.Some? && top >= lesson.segmentsCount.value - 1
                                     && (a == [] || Highest(a) < lesson.segmentsCount.value - 1)))
  {
    hide Required, Earned, Banked, PlayedThrough, FinishedAt, Run, Admitted;
    RowIsHistory(c, lesson, run);
    var a, p := Admitted(c, lesson, run), Run(c, lesson, FRESH, run);
    EarnedIsBanked(c, lesson, p, a, f);
    BankedIsNat(c, lesson, a + [f]);
    PaidIff(c, lesson, Banked(c, lesson, a + [f]), Max(Highest(a), f.seg));
    FinishedIff(lesson, a);
  }

  lemma {:induction false} FinishedIff(lesson: Lesson, a: seq<Fetch>)
    ensures FinishedAt(lesson, a).Some?
       <==> lesson.segmentsCount.Some? && a != [] && Highest(a) >= lesson.segmentsCount.value - 1
  {
    if a != [] {
      FinishedIff(lesson, a[..|a| - 1]);
    }
  }

  // ---------- What is served ----------

  /** The media lines with an index up to the bound; those without one are always kept. */
  function UpTo(es: seq<M.Entry>, bound: int): seq<M.Entry> {
    if es == [] then []
    else
      var n := |es| - 1;
      UpTo(es[..n], bound) + if es[n].index.Some? && es[n].index.value > bound then [] else [es[n]]
  }

  lemma {:induction false} VisibleIsUpTo(es: seq<M.Entry>, bound: int)
    ensures M.Visible(es, Some(bound)) == UpTo(es, bound)
  {
    if es != [] {
      var n := |es| - 1;
      VisibleIsUpTo(es[..n], bound);
      M.VisibleAppend(es[..n], [es[n]], Some(bound));
      assert es == es[..n] + [es[n]] && [es[n]][1..] == [];
      assert M.Visible([es[n]], Some(bound)) == if es[n].index.Some? && es[n].index.value > bound then [] else [es[n]];
    }
  }

  lemma {:induction false} InUpTo(es: seq<M.Entry>, bound: int, e: M.Entry)
    ensures e in UpTo(es, bound) <==> e in es && (e.index.Some? ==> e.index.value <= bound)
  {
    if es != [] {
      var n := |es| - 1;
      InUpTo(es[..n], bound, e);
      assert es == es[..n] + [es[n]];
    }
  }

  /** After any run the learner is served exactly the media lines up to the look-ahead beyond
      the highest index let through, and among the packaged segments exactly those that the
      gate would not refuse as skips. */
  lemma ServedWindow(c: Settings, lesson: Lesson, run: seq<Fetch>, lines: seq<string>, site: M.Site)
    ensures var bound := Highest(Admitted(c, lesson, run)) + c.lookahead;
            M.Listing(M.Playlist(c, Run(c, lesson, FRESH, run), lines, site)) ==
              M.Served(site, UpTo(M.Entries(lines), bound))
    ensures forall e, at :: e in M.Entries(lines) && e.index.Some? ==>
              (e in UpTo(M.Entries(lines), Highest(Admitted(c, lesson, run)) + c.lookahead)
               <==> AnswerAfter(c, lesson, run, Fetch(e.index.value, at)) != Err(SkipBlocked))
  {
    hide M.Entries, M.Rendered, M.Listing, M.Served, Run, Admitted, AnswerAfter, Highest, UpTo, M.Visible;
    RowIsHistory(c, lesson, run);
    var bound := Highest(Admitted(c, lesson, run)) + c.lookahead;
    M.PlayerSeesWindow(lines, Some(bound), site);
    VisibleIsUpTo(M.Entries(lines), bound);
    forall e, at | e in M.Entries(lines) && e.index.Some?
      ensures e in UpTo(M.Entries(lines), bound)
         <==> AnswerAfter(c, lesson, run, Fetch(e.index.value, at)) != Err(SkipBlocked)
    {
      InUpTo(M.Entries(lines), bound, e);
      AnswerIff(c, lesson, run, Fetch(e.index.value, at));
    }
  }

  lemma {:induction false} UpToOfNumbered(es: seq<M.Entry>, bound: int)
    requires T.Contiguous(es)
    ensures UpTo(es, bound) == es[..Min(|es|, Max(0, bound + 1))]
  {
    if es != [] {
      var n := |es| - 1;
      UpToOfNumbered(es[..n], bound);
      assert es[n].index == Some(n);
    }
  }

  lemma PrintedIsNumbered(ds: seq<nat>)
    requires |ds| <= 1_000_000
    ensures T.Contiguous(T.PrintedEntries(ds, 0)) && |T.PrintedEntries(ds, 0)| == |ds|
    ensures forall i :: 0 <= i < |ds| ==>
              T.PrintedEntries(ds, 0)[i] == M.Entry(Some(T.InfLine(ds[i])), Some(i), HlsText.SegmentName(i))
  {
    hide T.InfLine, HlsText.SegmentName;
  }

  /** Of a playlist as the packager prints it the learner is served the first segments,
      in order and under their own durations and addresses, up to the same bound. */
  lemma ServedOfPrinted(c: Settings, lesson: Lesson, run: seq<Fetch>, header: seq<string>, ds: seq<nat>, site: M.Site)
    requires T.HeaderOnly(header) && |ds| <= 1_000_000
    ensures var served := M.Listing(M.Playlist(c, Run(c, lesson, FRESH, run), T.Printed(header, ds), site));
            && |served| == Min(|ds|, Max(0, Highest(Admitted(c, lesson, run)) + c.lookahead + 1))
            && forall i :: 0 <= i < |served| ==>
                 served[i] == M.Listed(Some(T.InfLine(ds[i])),
                                       site.base + "/seg/" + HlsText.SegmentName(i) + "?t=" + site.token)
  {
    hide M.Entries, M.Playlist, M.Listing, Run, Admitted, AnswerAfter, Highest, UpTo, T.InfLine, HlsText.SegmentName,
      T.Contiguous, T.PrintedEntries;
    ServedWindow(c, lesson, run, T.Printed(header, ds), site);
    T.PrintedHasEntries(header, ds);
    PrintedIsNumbered(ds);
    UpToOfNumbered(T.PrintedEntries(ds, 0), Highest(Admitted(c, lesson, run)) + c.lookahead);
  }
}

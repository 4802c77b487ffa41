/** The anti-seek gate on HLS segment fetches: a watermark, a clamped
    play-credit counter and the wall clock of the previous accepted fetch.

    Times are integer microseconds; segment lengths and the playback rate are
    exact reals. */
module Playback {
  import opened Prelude

  type Micros = int

  const SECOND := 1_000_000

  datatype RawSettings = Settings(segmentSeconds: nat, lookahead: nat, maxRate: real)

  type Settings = s: RawSettings | s.maxRate > 0.0 witness Settings(6, 8, 2.0)

  /** What the gate reads of a packaged lesson. */
  datatype Lesson = Lesson(durations: Option<seq<real>>, segmentsCount: Option<int>)
  {
    /** Packaged durations are parsed from unsigned decimals. */
    ghost predicate Timed() {
      durations.Some? ==> forall i :: 0 <= i < |durations.value| ==> durations.value[i] >= 0.0
    }

    predicate HasDurations() { durations.Some? && durations.value != [] }
  }

  /** One learner's playback state for one lesson. */
  datatype Progress = Progress(watermark: int, credit: int, lastAt: Option<Micros>, completedAt: Option<Micros>)

  const FRESH := Progress(-1, 0, None, None)

  datatype Refusal = SkipBlocked | RateExceeded

  // ---------- The lesson's timeline ----------

  function PrefixSum(lengths: seq<real>, n: nat): real
    requires n <= |lengths|
  {
    if n == 0 then 0.0 else PrefixSum(lengths, n - 1) + lengths[n - 1]
  }

  /** Seconds of playback through the end of segment `seg`. */
  function EndOffset(c: Settings, lesson: Lesson, seg: nat): real {
    if lesson.HasDurations() then
      PrefixSum(lesson.durations.value, Min(seg, |lesson.durations.value| - 1) + 1)
    else Nominal(c, seg + 1)
  }

  /** Playing time of n segments of nominal length. */
  function Nominal(c: Settings, n: nat): real { n as real * c.segmentSeconds as real }

  function SegmentLength(c: Settings, lesson: Lesson, seg: nat): real {
    if lesson.HasDurations() && seg < |lesson.durations.value| then lesson.durations.value[seg]
    else c.segmentSeconds as real
  }

  lemma {:induction false} PrefixSumMonotone(lengths: seq<real>, m: nat, n: nat)
    requires m <= n <= |lengths|
    requires forall i :: 0 <= i < |lengths| ==> lengths[i] >= 0.0
    ensures PrefixSum(lengths, m) <= PrefixSum(lengths, n)
    decreases n
  {
    if m < n {
      PrefixSumMonotone(lengths, m, n - 1);
    }
  }

  /** The timeline never runs backwards. */
  lemma EndOffsetMonotone(c: Settings, lesson: Lesson, a: nat, b: nat)
    requires lesson.Timed() && a <= b
    ensures EndOffset(c, lesson, a) <= EndOffset(c, lesson, b)
  {
    hide Nominal, PrefixSum;
    if lesson.HasDurations() {
      var last := |lesson.durations.value| - 1;
      PrefixSumMonotone(lesson.durations.value, Min(a, last) + 1, Min(b, last) + 1);
    } else {
      NominalMonotone(c, a + 1, b + 1);
    }
  }

  lemma NominalMonotone(c: Settings, a: nat, b: nat)
    requires a <= b
    ensures Nominal(c, a) <= Nominal(c, b)
  {
    assert (b - a) as real * c.segmentSeconds as real >= 0.0;
  }

  // ---------- One fetch ----------

  /** Highest segment index the served manifest may expose. */
  function VisibleCeiling(c: Settings, watermark: int): int {
    watermark + c.lookahead
  }

  /** Play credit a learner must hold before the watermark may stand at `watermark`. */
  function Required(c: Settings, lesson: Lesson, watermark: int): real {
    if watermark < c.lookahead then 0.0 else EndOffset(c, lesson, watermark - c.lookahead) / c.maxRate
  }

  /** int(timedelta.total_seconds()), which truncates toward zero. */
  function WholeSeconds(elapsed: int): int {
    if elapsed >= 0 then elapsed / SECOND else -((-elapsed) / SECOND)
  }

  /** The most a gap before fetching `seg` is credited. */
  function Clamp(c: Settings, lesson: Lesson, seg: nat): int { Max(1, RoundHalfEven(SegmentLength(c, lesson, seg))) }

  /** Seconds credited for the gap before fetching `seg`: never more than the
      (rounded) length of that segment. */
  function Earned(c: Settings, lesson: Lesson, p: Progress, seg: nat, now: Micros): (e: int)
    ensures e >= 0
    ensures p.lastAt.Some? && p.lastAt.value <= now ==> e * SECOND <= now - p.lastAt.value
    ensures p.lastAt.None? ==> e == 0
  {
    var gap := if p.lastAt.None? then 0 else Max(0, WholeSeconds(now - p.lastAt.value));
    Min(gap, Clamp(c, lesson, seg))
  }

  predicate Skips(c: Settings, p: Progress, seg: nat) {
    seg > VisibleCeiling(c, p.watermark)
  }

  predicate Accepts(c: Settings, lesson: Lesson, p: Progress, seg: nat, now: Micros) {
    && !Skips(c, p, seg)
    && (p.credit + Earned(c, lesson, p, seg, now)) as real >= Required(c, lesson, Max(p.watermark, seg))
  }

  predicate Completes(lesson: Lesson, p: Progress, seg: nat) {
    lesson.segmentsCount.Some? && Max(p.watermark, seg) >= lesson.segmentsCount.value - 1 && p.completedAt.None?
  }

  /** The verdict on a fetch: the rule that refuses it, or whether it completed the lesson. */
  function Answer(c: Settings, lesson: Lesson, p: Progress, seg: nat, now: Micros): Result<bool, Refusal> {
    if Skips(c, p, seg) then Err(SkipBlocked)
    else if !Accepts(c, lesson, p, seg, now) then Err(RateExceeded)
    else Ok(Completes(lesson, p, seg))
  }

  /** The state after a fetch; a refused fetch leaves no trace. */
  function Step(c: Settings, lesson: Lesson, p: Progress, seg: nat, now: Micros): Progress {
    if Accepts(c, lesson, p, seg, now) then
      Progress(Max(p.watermark, seg), p.credit + Earned(c, lesson, p, seg, now), Some(now),
               if Completes(lesson, p, seg) then Some(now) else p.completedAt)
    else p
  }

  /** The stored row, updated in place by every accepted fetch. */
  class LessonProgress {
    var maxSegmentIndex: int
    var playCreditSeconds: int
    var lastSegmentAt: Option<Micros>
    var completedAt: Option<Micros>

    constructor ()
      ensures State() == FRESH
    {
      maxSegmentIndex, playCreditSeconds, lastSegmentAt, completedAt := -1, 0, None, None;
    }

    ghost function State(): Progress
      reads this
    {
      Progress(maxSegmentIndex, playCreditSeconds, lastSegmentAt, completedAt)
    }

    method GateSegmentFetch(c: Settings, lesson: Lesson, seg: nat, now: Micros)
      returns (r: Result<bool, Refusal>)
      modifies this
      ensures State() == Step(c, lesson, old(State()), seg, now)
      ensures r == Answer(c, lesson, old(State()), seg, now)
    {
      if seg > maxSegmentIndex + c.lookahead {
        return Err(SkipBlocked);
      }
      var gap := 0;
      if lastSegmentAt.Some? {
        gap := Max(0, WholeSeconds(now - lastSegmentAt.value));
      }
      var clamp := Max(1, RoundHalfEven(SegmentLength(c, lesson, seg)));
      var credit := playCreditSeconds + Min(gap, clamp);
      var newMax := Max(maxSegmentIndex, seg);
      var gateIndex := newMax - c.lookahead;
      var required := 0.0;
      if gateIndex >= 0 {
        required := EndOffset(c, lesson, gateIndex) / c.maxRate;
      }
      if (credit as real) < required {
        return Err(RateExceeded);
      }
      maxSegmentIndex := newMax;
      playCreditSeconds := credit;
      lastSegmentAt := Some(now);
      var justCompleted := false;
      if lesson.segmentsCount.Some? && newMax >= lesson.segmentsCount.value - 1 && completedAt.None? {
        completedAt := Some(now);
        justCompleted := true;
      }
      return Ok(justCompleted);
    }
  }

  // ---------- Whole runs ----------

  datatype Fetch = Fetch(seg: nat, at: Micros)

  ghost predicate Clocked(run: seq<Fetch>) {
    forall i, j :: 0 <= i < j < |run| ==> run[i].at <= run[j].at
  }

  function Run(c: Settings, lesson: Lesson, p: Progress, run: seq<Fetch>): Progress {
    if run == [] then p
    else
      var before := Run(c, lesson, p, run[..|run| - 1]);
      Step(c, lesson, before, run[|run| - 1].seg, run[|run| - 1].at)
  }

  /** Was the i-th fetch of the run accepted? */
  predicate Accepted(c: Settings, lesson: Lesson, p: Progress, run: seq<Fetch>, i: nat)
    requires i < |run|
  {
    Accepts(c, lesson, Run(c, lesson, p, run[..i]), run[i].seg, run[i].at)
  }

  ghost predicate AllAccepted(c: Settings, lesson: Lesson, p: Progress, run: seq<Fetch>) {
    forall i :: 0 <= i < |run| ==> Accepted(c, lesson, p, run, i)
  }

  /** When the first fetch of the run was accepted. */
  function FirstAccepted(c: Settings, lesson: Lesson, p: Progress, run: seq<Fetch>): (t: Option<Micros>) {
    if run == [] then None
    else
      var n := |run| - 1;
      match FirstAccepted(c, lesson, p, run[..n])
      case Some(t) => Some(t)
      case None => if Accepted(c, lesson, p, run, n) then Some(run[n].at) else None
  }

  /** Every persisted state has paid for its watermark, and its credit is
      covered by the wall clock since `start`. */
  ghost predicate Coherent(c: Settings, lesson: Lesson, p: Progress, start: Option<Micros>) {
    && p.watermark >= -1 && p.credit >= 0
    && p.credit as real >= Required(c, lesson, p.watermark)
    && (p.lastAt.None? <==> start.None?)
    && (p.lastAt.None? ==> p == FRESH)
    && (p.lastAt.Some? ==> p.watermark >= 0 && p.credit * SECOND <= p.lastAt.value - start.value)
    && (p.completedAt.Some? ==> p.lastAt.Some? && lesson.segmentsCount.Some? && p.completedAt.value <= p.lastAt.value)
    && (p.completedAt.Some? && lesson.segmentsCount.value - 1 >= c.lookahead ==>
          Outpaced(c, lesson, lesson.segmentsCount.value - 1 - c.lookahead, p.completedAt.value - start.value))
    && (p.completedAt.Some? ==> p.watermark >= lesson.segmentsCount.value - 1)
    && (p.completedAt.None? && p.lastAt.Some? && lesson.segmentsCount.Some? ==>
        p.watermark < lesson.segmentsCount.value - 1)
  }

  /** Playing through segment `seg` at the maximum rate takes at most `elapsed`. */
  ghost predicate Outpaced(c: Settings, lesson: Lesson, seg: nat, elapsed: Micros) {
    EndOffset(c, lesson, seg) * SECOND as real <= c.maxRate * elapsed as real
  }

  /** A watermark that is paid for, with credit the clock covers, is outpaced. */
  lemma PaidInTime(c: Settings, lesson: Lesson, watermark: int, credit: int, elapsed: Micros)
    requires watermark >= c.lookahead && credit as real >= Required(c, lesson, watermark)
    requires credit * SECOND <= elapsed
    ensures Outpaced(c, lesson, watermark - c.lookahead, elapsed)
  {
    hide EndOffset;
    QuotientPaid(EndOffset(c, lesson, watermark - c.lookahead), c.maxRate, credit, elapsed);
  }

  lemma QuotientPaid(e: real, r: real, credit: int, elapsed: int)
    requires r > 0.0 && credit as real >= e / r && credit * SECOND <= elapsed
    ensures e * SECOND as real <= r * elapsed as real
  {
    assert e == (e / r) * r;
    assert e <= credit as real * r;
    assert credit as real * SECOND as real == (credit * SECOND) as real;
    assert (credit * SECOND) as real * r <= elapsed as real * r;
  }

  /** What is outpaced further on is outpaced before. */
  lemma OutpacedBelow(c: Settings, lesson: Lesson, a: nat, b: nat, elapsed: Micros)
    requires lesson.Timed() && a <= b && Outpaced(c, lesson, b, elapsed)
    ensures Outpaced(c, lesson, a, elapsed)
  {
    hide EndOffset;
    EndOffsetMonotone(c, lesson, a, b);
  }

  lemma StepKeepsCoherent(c: Settings, lesson: Lesson, p: Progress, start: Option<Micros>, seg: nat, now: Micros)
    requires lesson.Timed() && Coherent(c, lesson, p, start)
    requires p.lastAt.Some? ==> p.lastAt.value <= now
    ensures Coherent(c, lesson, Step(c, lesson, p, seg, now),
                     if start.None? && Accepts(c, lesson, p, seg, now) then Some(now) else start)
  {
    hide Required, Outpaced, Earned;
    if Accepts(c, lesson, p, seg, now) {
      var q := Step(c, lesson, p, seg, now);
      var elapsed := now - if start.None? then now else start.value;
      EarnedFits(c, lesson, p, seg, now);
      assert q.credit * SECOND <= elapsed;
      if Completes(lesson, p, seg) && lesson.segmentsCount.value - 1 >= c.lookahead {
        PaidInTime(c, lesson, q.watermark, q.credit, elapsed);
        OutpacedBelow(c, lesson, lesson.segmentsCount.value - 1 - c.lookahead, q.watermark - c.lookahead, elapsed);
      }
    }
  }

  lemma EarnedFits(c: Settings, lesson: Lesson, p: Progress, seg: nat, now: Micros)
    ensures var e := Earned(c, lesson, p, seg, now);
            && e >= 0 && (p.lastAt.None? ==> e == 0)
            && (p.lastAt.Some? && p.lastAt.value <= now ==> e * SECOND <= now - p.lastAt.value)
  {
  }

  lemma {:induction false} RunKeepsCoherent(c: Settings, lesson: Lesson, run: seq<Fetch>)
    requires lesson.Timed() && Clocked(run)
    ensures Coherent(c, lesson, Run(c, lesson, FRESH, run), FirstAccepted(c, lesson, FRESH, run))
    ensures var p := Run(c, lesson, FRESH, run); p.lastAt.Some? ==> run != [] && p.lastAt.value <= run[|run| - 1].at
  {
    if run != [] {
      var n := |run| - 1;
      RunKeepsCoherent(c, lesson, run[..n]);
      StepKeepsCoherent(c, lesson, Run(c, lesson, FRESH, run[..n]), FirstAccepted(c, lesson, FRESH, run[..n]),
                        run[n].seg, run[n].at);
    }
  }

  /** Wall-clock bound: whatever mix of jumps, rewatches and refusals a run holds,
      the timeline up to the look-ahead window behind the watermark is at most
      maxRate times the time since the first accepted fetch. */
  lemma WatermarkIsOutpaced(c: Settings, lesson: Lesson, run: seq<Fetch>)
    requires lesson.Timed() && Clocked(run)
    requires Run(c, lesson, FRESH, run).watermark >= c.lookahead
    ensures var p := Run(c, lesson, FRESH, run);
            var first := FirstAccepted(c, lesson, FRESH, run);
            && first.Some? && p.lastAt.Some?
            && Outpaced(c, lesson, p.watermark - c.lookahead, p.lastAt.value - first.value)
  {
    RunKeepsCoherent(c, lesson, run);
    var p := Run(c, lesson, FRESH, run);
    PaidInTime(c, lesson, p.watermark, p.credit,
               p.lastAt.value - FirstAccepted(c, lesson, FRESH, run).value);
  }

  /** Hence the gate cannot mark a lesson complete faster than maxRate allows. */
  lemma CompletionIsOutpaced(c: Settings, lesson: Lesson, run: seq<Fetch>)
    requires lesson.Timed() && Clocked(run)
    requires lesson.segmentsCount.Some? && lesson.segmentsCount.value - 1 >= c.lookahead
    requires Run(c, lesson, FRESH, run).completedAt.Some?
    ensures var first := FirstAccepted(c, lesson, FRESH, run);
            && first.Some?
            && Outpaced(c, lesson, lesson.segmentsCount.value - 1 - c.lookahead,
                        Run(c, lesson, FRESH, run).completedAt.value - first.value)
  {
    RunKeepsCoherent(c, lesson, run);
  }

  /** In every reachable state a refetch at or below the watermark is accepted. */
  lemma {:induction false} RewatchNeverRefused(c: Settings, lesson: Lesson, run: seq<Fetch>, seg: nat, now: Micros)
    requires lesson.Timed() && Clocked(run)
    requires seg <= Run(c, lesson, FRESH, run).watermark
    ensures Accepts(c, lesson, Run(c, lesson, FRESH, run), seg, now)
  {
    RunKeepsCoherent(c, lesson, run);
  }

  lemma RunSplits(c: Settings, lesson: Lesson, p: Progress, a: seq<Fetch>, b: seq<Fetch>)
    ensures Run(c, lesson, p, a + b) == Run(c, lesson, Run(c, lesson, p, a), b)
    decreases |b|
  {
    if b == [] {
      assert a + b == a;
    } else {
      assert (a + b)[..|a + b| - 1] == a + b[..|b| - 1];
      RunSplits(c, lesson, p, a, b[..|b| - 1]);
    }
  }

  lemma {:induction false} WatermarkRises(c: Settings, lesson: Lesson, p: Progress, run: seq<Fetch>)
    ensures p.watermark <= Run(c, lesson, p, run).watermark
  {
    if run != [] {
      WatermarkRises(c, lesson, p, run[..|run| - 1]);
    }
  }

  /** The watermark only rises, so a segment the manifest once listed is never
      afterwards refused as a skip, whatever is fetched in between. */
  lemma {:induction false} ListedNeverSkips(c: Settings, lesson: Lesson, p: Progress, run: seq<Fetch>, seg: nat)
    requires seg <= VisibleCeiling(c, p.watermark)
    ensures !Skips(c, Run(c, lesson, p, run), seg)
  {
    WatermarkRises(c, lesson, p, run);
  }

  /** How many fetches of the run reported just_completed. */
  function Completions(c: Settings, lesson: Lesson, p: Progress, run: seq<Fetch>): nat {
    if run == [] then 0
    else
      var n := |run| - 1;
      var before := Run(c, lesson, p, run[..n]);
      Completions(c, lesson, p, run[..n]) +
      if Accepted(c, lesson, p, run, n) && Completes(lesson, before, run[n].seg) then 1 else 0
  }

  /** just_completed fires exactly once: when the watermark first reaches the last segment. */
  lemma {:induction false} CompletesExactlyOnce(c: Settings, lesson: Lesson, run: seq<Fetch>)
    requires lesson.Timed() && Clocked(run)
    ensures var p := Run(c, lesson, FRESH, run);
            Completions(c, lesson, FRESH, run) ==
            if lesson.segmentsCount.Some? && p.lastAt.Some? &&
                p.watermark >= lesson.segmentsCount.value - 1 then 1 else 0
  {
    RunKeepsCoherent(c, lesson, run);
    if run != [] {
      RunKeepsCoherent(c, lesson, run[..|run| - 1]);
      CompletesExactlyOnce(c, lesson, run[..|run| - 1]);
    }
  }

  // ---------- Progress ----------

  /** The segment that stops being free when the watermark reaches `watermark`: its
      length, or 0 when there is none. */
  function Leaving(c: Settings, lesson: Lesson, watermark: int): real {
    var seg := watermark - c.lookahead;
    if seg < 0 then 0.0
    else if !lesson.HasDurations() then c.segmentSeconds as real
    else if seg < |lesson.durations.value| then lesson.durations.value[seg]
    else 0.0
  }

  /** Raising the watermark by one costs exactly the playing time, at the maximum rate,
      of the segment leaving the look-ahead window. */
  lemma RequiredGrows(c: Settings, lesson: Lesson, watermark: int)
    requires watermark >= -1
    ensures Required(c, lesson, watermark + 1)
         == Required(c, lesson, watermark) + Leaving(c, lesson, watermark + 1) / c.maxRate
  {
    hide EndOffset, Leaving;
    var seg := watermark + 1 - c.lookahead;
    if seg >= 0 {
      OffsetGrows(c, lesson, watermark);
      Shared(if seg == 0 then 0.0 else EndOffset(c, lesson, seg - 1), Leaving(c, lesson, watermark + 1), c.maxRate);
    } else {
      NothingLeaves(c, lesson, watermark + 1);
    }
  }

  lemma OffsetGrows(c: Settings, lesson: Lesson, watermark: int)
    requires watermark + 1 >= c.lookahead
    ensures var seg := watermark + 1 - c.lookahead;
            EndOffset(c, lesson, seg) ==
              (if seg == 0 then 0.0 else EndOffset(c, lesson, seg - 1)) + Leaving(c, lesson, watermark + 1)
  {
    hide Nominal;
    var seg := watermark + 1 - c.lookahead;
    NominalGrows(c, seg);
    if lesson.HasDurations() {
      assert PrefixSum(lesson.durations.value, 0) == 0.0;
    }
  }

  lemma NominalGrows(c: Settings, n: nat)
    ensures Nominal(c, n + 1) == Nominal(c, n) + c.segmentSeconds as real && Nominal(c, 0) == 0.0
  {
    assert (n + 1) as real == n as real + 1.0;
  }

  lemma Shared(x: real, y: real, r: real)
    requires r > 0.0
    ensures (x + y) / r == x / r + y / r && 0.0 / r == 0.0
  {
  }

  lemma NothingLeaves(c: Settings, lesson: Lesson, watermark: int)
    requires watermark < c.lookahead
    ensures Leaving(c, lesson, watermark) / c.maxRate == 0.0
  {
  }

  /** The formula the gate documents, for segments of nominal length. */
  function Documented(c: Settings, watermark: int): real {
    (watermark + 1 - c.lookahead) as real * c.segmentSeconds as real / c.maxRate
  }

  lemma {:induction false} PrefixSumEven(lengths: seq<real>, n: nat, d: real)
    requires n <= |lengths|
    ensures (forall i :: 0 <= i < n ==> lengths[i] == d) ==> PrefixSum(lengths, n) == n as real * d
    ensures (forall k :: 0 < k <= n ==> PrefixSum(lengths, k) == k as real * d) ==> forall i :: 0 <= i < n ==>
        lengths[i] == d
  {
    if n > 0 {
      PrefixSumEven(lengths, n - 1, d);
      assert n as real * d == (n - 1) as real * d + d;
      assert PrefixSum(lengths, n) == PrefixSum(lengths, n - 1) + lengths[n - 1];
      assert n == 1 ==> PrefixSum(lengths, n - 1) == (n - 1) as real * d;
    }
  }

  /** The documented formula is the requirement, over the first n segments past the
      look-ahead, exactly when no recorded duration among them differs from the nominal. */
  lemma DocumentedIff(c: Settings, lesson: Lesson, n: nat)
    requires lesson.HasDurations() ==> n <= |lesson.durations.value|
    ensures (forall w :: c.lookahead <= w < c.lookahead + n ==> Required(c, lesson, w) == Documented(c, w))
       <==> (lesson.HasDurations() ==> forall i :: 0 <= i < n ==> lesson.durations.value[i] == c.segmentSeconds as real)
  {
    hide Required, Documented, PrefixSum;
    var d := c.segmentSeconds as real;
    if lesson.HasDurations() {
      var ds := lesson.durations.value;
      forall w | c.lookahead <= w < c.lookahead + n
        ensures Required(c, lesson, w) == Documented(c, w) <==>
            PrefixSum(ds, w - c.lookahead + 1) == (w - c.lookahead + 1) as real * d
      {
        DocumentedAt(c, lesson, w);
      }
      if forall i :: 0 <= i < n ==> ds[i] == d {
        forall w | c.lookahead <= w < c.lookahead + n ensures Required(c, lesson, w) == Documented(c, w) {
          PrefixSumEven(ds, w - c.lookahead + 1, d);
        }
      }
      if forall w :: c.lookahead <= w < c.lookahead + n ==> Required(c, lesson, w) == Documented(c, w) {
        forall k | 0 < k <= n ensures PrefixSum(ds, k) == k as real * d {
          assert Required(c, lesson, c.lookahead + k - 1) == Documented(c, c.lookahead + k - 1);
        }
        PrefixSumEven(ds, n, d);
      }
    } else {
      forall w | c.lookahead <= w < c.lookahead + n ensures Required(c, lesson, w) == Documented(c, w) {
        DocumentedNominal(c, lesson, w);
      }
    }
  }

  lemma DocumentedAt(c: Settings, lesson: Lesson, w: int)
    requires lesson.HasDurations() && c.lookahead <= w < c.lookahead + |lesson.durations.value|
    ensures var n := w - c.lookahead + 1;
            (Required(c, lesson, w) == Documented(c, w)
             <==> PrefixSum(lesson.durations.value, n) == n as real * c.segmentSeconds as real)
  {
    hide PrefixSum;
    var a, b := PrefixSum(lesson.durations.value, w - c.lookahead + 1),
        (w + 1 - c.lookahead) as real * c.segmentSeconds as real;
    if a / c.maxRate == b / c.maxRate {
      SameQuotient(a, b, c.maxRate);
    }
  }

  lemma DocumentedNominal(c: Settings, lesson: Lesson, w: int)
    requires !lesson.HasDurations() && c.lookahead <= w
    ensures Required(c, lesson, w) == Documented(c, w)
  {
  }

  lemma SameQuotient(a: real, b: real, r: real)
    requires r > 0.0 && a / r == b / r
    ensures a == b
  {
    assert a == (a / r) * r && b == (b / r) * r;
  }

  /** Whole seconds a learner has to let pass before the watermark may reach `watermark`. */
  function Wait(c: Settings, lesson: Lesson, watermark: int): int {
    Ceil(Leaving(c, lesson, watermark) / c.maxRate)
  }

  /** From every coherent state, on any lesson: after waiting as long as the segment
      leaving the window plays, the next segment is accepted, provided the clamp of the
      next segment lets that wait be credited in full. */
  lemma NextSegmentAccepted(c: Settings, lesson: Lesson, p: Progress, start: Option<Micros>, now: Micros)
    requires c.lookahead >= 1 && lesson.Timed() && Coherent(c, lesson, p, start)
    requires Wait(c, lesson, p.watermark + 1) <= Clamp(c, lesson, p.watermark + 1)
    requires p.lastAt.Some? ==> now >= p.lastAt.value + Wait(c, lesson, p.watermark + 1) * SECOND
    ensures Accepts(c, lesson, p, p.watermark + 1, now)
  {
    hide Coherent, Required, Clamp, Earned, Leaving, Wait;
    var next := p.watermark + 1;
    CoherentCredit(c, lesson, p, start);
    RequiredGrows(c, lesson, p.watermark);
    WaitCovers(c, lesson, next);
    if p.lastAt.Some? {
      WaitIsEarned(c, lesson, p, next, Wait(c, lesson, next), now);
    } else {
      FirstIsFree(c, lesson);
      assert p.credit + Earned(c, lesson, p, next, now) >= 0;
    }
  }

  lemma CoherentCredit(c: Settings, lesson: Lesson, p: Progress, start: Option<Micros>)
    requires Coherent(c, lesson, p, start)
    ensures p.watermark >= -1 && p.credit >= 0 && p.credit as real >= Required(c, lesson, p.watermark)
    ensures p.lastAt.None? ==> p.watermark == -1
  {
  }

  lemma WaitCovers(c: Settings, lesson: Lesson, watermark: int)
    requires lesson.Timed()
    ensures 0.0 <= Leaving(c, lesson, watermark) / c.maxRate <= Wait(c, lesson, watermark) as real
    ensures Wait(c, lesson, watermark) >= 0
  {
    assert Leaving(c, lesson, watermark) >= 0.0;
    assert Leaving(c, lesson, watermark) / c.maxRate >= 0.0;
  }

  lemma WaitIsEarned(c: Settings, lesson: Lesson, p: Progress, seg: nat, wait: int, now: Micros)
    requires p.lastAt.Some? && 0 <= wait <= Clamp(c, lesson, seg) && now >= p.lastAt.value + wait * SECOND
    ensures Earned(c, lesson, p, seg, now) >= wait
  {
    hide Clamp;
    GapCounts(now - p.lastAt.value, wait);
  }

  lemma GapCounts(gap: int, pace: int)
    requires pace >= 0 && gap >= pace * SECOND
    ensures WholeSeconds(gap) >= pace
    ensures gap == pace * SECOND ==> WholeSeconds(gap) == pace
  {
    assert gap / SECOND >= pace;
  }

  lemma FirstIsFree(c: Settings, lesson: Lesson)
    requires c.lookahead >= 1
    ensures Required(c, lesson, 0) == 0.0
  {
  }

  /** Extending an accepted run by one accepted fetch. */
  lemma AcceptedSnoc(c: Settings, lesson: Lesson, p: Progress, run: seq<Fetch>)
    requires run != [] && AllAccepted(c, lesson, p, run[..|run| - 1])
    requires Accepts(c, lesson, Run(c, lesson, p, run[..|run| - 1]), run[|run| - 1].seg, run[|run| - 1].at)
    ensures AllAccepted(c, lesson, p, run)
  {
    hide Accepts, Run;
    var n := |run| - 1;
    forall i | 0 <= i < n ensures Accepted(c, lesson, p, run, i) {
      assert run[..n][..i] == run[..i];
      assert Accepted(c, lesson, p, run[..n], i);
    }
  }

  lemma AppendAccepted(c: Settings, lesson: Lesson, p: Progress, a: seq<Fetch>, b: seq<Fetch>)
    requires AllAccepted(c, lesson, p, a) && AllAccepted(c, lesson, Run(c, lesson, p, a), b)
    ensures AllAccepted(c, lesson, p, a + b)
    ensures Run(c, lesson, p, a + b) == Run(c, lesson, Run(c, lesson, p, a), b)
  {
    hide Accepts;
    RunSplits(c, lesson, p, a, b);
    forall i | 0 <= i < |a + b| ensures Accepted(c, lesson, p, a + b, i) {
      if i < |a| {
        assert (a + b)[..i] == a[..i];
        assert Accepted(c, lesson, p, a, i);
      } else {
        assert (a + b)[..i] == a + b[..i - |a|];
        RunSplits(c, lesson, p, a, b[..i - |a|]);
        assert Accepted(c, lesson, Run(c, lesson, p, a), b, i - |a|);
      }
    }
  }

  lemma NothingToAccept(c: Settings, lesson: Lesson, p: Progress)
    ensures AllAccepted(c, lesson, p, [])
  {
  }

  /** The segments 0, 1, ..., |times|-1 fetched in order at the given times. */
  function Sequential(times: seq<Micros>): seq<Fetch> {
    seq(|times|, i requires 0 <= i < |times| => Fetch(i, times[i]))
  }

  /** Credit banked by such a viewer once segment k has been fetched. */
  function Banked(c: Settings, lesson: Lesson, times: seq<Micros>, k: nat): int
    requires k < |times|
  {
    if k == 0 then 0
    else
      Banked(c, lesson, times, k - 1) + Min(Max(0, WholeSeconds(times[k] - times[k - 1])), Clamp(c, lesson, k))
  }

  ghost predicate KeepsUp(c: Settings, lesson: Lesson, times: seq<Micros>, k: nat)
    requires k < |times|
  {
    Banked(c, lesson, times, k) as real >= Required(c, lesson, k)
  }

  /** The state after segments 0 .. n-1 have been accepted in order. */
  ghost predicate Reached(c: Settings, lesson: Lesson, p: Progress, times: seq<Micros>, n: nat)
    requires n <= |times|
  {
    && p.watermark == n - 1
    && (n == 0 ==> p == FRESH)
    && (n > 0 ==> p.credit == Banked(c, lesson, times, n - 1) && p.lastAt == Some(times[n - 1]))
    && (lesson.segmentsCount.Some? && n < lesson.segmentsCount.value ==> p.completedAt.None?)
    && (n > 0 && lesson.segmentsCount == Some(n) ==> p.completedAt == Some(times[n - 1]))
  }

  lemma SequentialStep(c: Settings, lesson: Lesson, p: Progress, times: seq<Micros>, n: nat)
    requires c.lookahead >= 1 && n < |times| && Reached(c, lesson, p, times, n)
    ensures Accepts(c, lesson, p, n, times[n]) <==> KeepsUp(c, lesson, times, n)
    ensures Accepts(c, lesson, p, n, times[n]) ==> Reached(c, lesson, Step(c, lesson, p, n, times[n]), times, n + 1)
  {
    hide Required, Clamp;
  }

  lemma {:induction false} BankedPrefix(c: Settings, lesson: Lesson, times: seq<Micros>, n: nat, k: nat)
    requires k < n <= |times|
    ensures Banked(c, lesson, times[..n], k) == Banked(c, lesson, times, k)
  {
    if k > 0 {
      BankedPrefix(c, lesson, times, n, k - 1);
    }
  }

  /** Exactly when a lesson may be watched straight through on a given schedule: its
      clamped gaps must keep up with the requirement at every segment. */
  lemma {:induction false} SequentialIff(c: Settings, lesson: Lesson, times: seq<Micros>)
    requires c.lookahead >= 1
    ensures AllAccepted(c, lesson, FRESH, Sequential(times)) <==>
        forall k :: 0 <= k < |times| ==> KeepsUp(c, lesson, times, k)
    ensures AllAccepted(c, lesson, FRESH, Sequential(times)) ==>
              Reached(c, lesson, Run(c, lesson, FRESH, Sequential(times)), times, |times|)
    decreases |times|
  {
    hide Accepts, Step, Required;
    if times == [] {
      NothingToAccept(c, lesson, FRESH);
    } else {
      var n := |times| - 1;
      var run, before := Sequential(times), times[..n];
      assert run[..n] == Sequential(before);
      SequentialIff(c, lesson, before);
      forall k | 0 <= k < n ensures KeepsUp(c, lesson, times, k) <==> KeepsUp(c, lesson, before, k) {
        BankedPrefix(c, lesson, times, n, k);
      }
      if AllAccepted(c, lesson, FRESH, run[..n]) {
        var p := Run(c, lesson, FRESH, run[..n]);
        ReachedPrefix(c, lesson, p, times, n);
        SequentialStep(c, lesson, p, times, n);
        if Accepts(c, lesson, p, n, times[n]) {
          AcceptedSnoc(c, lesson, FRESH, run);
        }
        assert Accepted(c, lesson, FRESH, run, n) <==> Accepts(c, lesson, p, n, times[n]);
      } else {
        PrefixAccepted(c, lesson, FRESH, run);
      }
    }
  }

  lemma ReachedPrefix(c: Settings, lesson: Lesson, p: Progress, times: seq<Micros>, n: nat)
    requires n <= |times| && Reached(c, lesson, p, times[..n], n)
    ensures Reached(c, lesson, p, times, n)
  {
    if n > 0 {
      BankedPrefix(c, lesson, times, n, n - 1);
    }
  }

  lemma PrefixAccepted(c: Settings, lesson: Lesson, p: Progress, run: seq<Fetch>)
    requires run != []
    ensures AllAccepted(c, lesson, p, run) ==> AllAccepted(c, lesson, p, run[..|run| - 1])
  {
    hide Accepts, Run;
    var n := |run| - 1;
    if AllAccepted(c, lesson, p, run) {
      forall i | 0 <= i < n ensures Accepted(c, lesson, p, run[..n], i) {
        assert Accepted(c, lesson, p, run, i);
        assert run[..n][..i] == run[..i];
      }
    }
  }

  /** The most a viewer can have banked by segment k, however long the pauses. */
  function ClampSum(c: Settings, lesson: Lesson, k: nat): int {
    if k == 0 then 0 else ClampSum(c, lesson, k - 1) + Clamp(c, lesson, k)
  }

  lemma {:induction false} BankedAtMost(c: Settings, lesson: Lesson, times: seq<Micros>, k: nat)
    requires k < |times|
    ensures Banked(c, lesson, times, k) <= ClampSum(c, lesson, k)
  {
    if k > 0 {
      BankedAtMost(c, lesson, times, k - 1);
    }
  }

  /** A viewer who pauses for the whole clamp before every segment. */
  function Patient(c: Settings, lesson: Lesson, n: nat): seq<Micros> {
    seq(n, i requires 0 <= i < n => ClampSum(c, lesson, i) * SECOND)
  }

  lemma {:induction false} PatientBanksAll(c: Settings, lesson: Lesson, n: nat, k: nat)
    requires k < n
    ensures Banked(c, lesson, Patient(c, lesson, n), k) == ClampSum(c, lesson, k)
  {
    if k > 0 {
      PatientBanksAll(c, lesson, n, k - 1);
      var times := Patient(c, lesson, n);
      assert times[k] - times[k - 1] == Clamp(c, lesson, k) * SECOND;
    }
  }

  ghost predicate Watchable(c: Settings, lesson: Lesson, n: nat) {
    exists times :: |times| == n && AllAccepted(c, lesson, FRESH, Sequential(times))
  }

  /** Exactly when the first n segments of a lesson, whatever its durations, can be
      watched straight through at all: the clamps must cover the requirement. */
  lemma WatchableIff(c: Settings, lesson: Lesson, n: nat)
    requires c.lookahead >= 1
    ensures Watchable(c, lesson, n)
       <==> forall k :: 0 <= k < n ==> ClampSum(c, lesson, k) as real >= Required(c, lesson, k)
  {
    hide AllAccepted, Required, Clamp;
    if Watchable(c, lesson, n) {
      var times :| |times| == n && AllAccepted(c, lesson, FRESH, Sequential(times));
      SequentialIff(c, lesson, times);
      forall k | 0 <= k < n ensures ClampSum(c, lesson, k) as real >= Required(c, lesson, k) {
        assert KeepsUp(c, lesson, times, k);
        BankedAtMost(c, lesson, times, k);
      }
    }
    if forall k :: 0 <= k < n ==> ClampSum(c, lesson, k) as real >= Required(c, lesson, k) {
      var times := Patient(c, lesson, n);
      forall k | 0 <= k < n ensures KeepsUp(c, lesson, times, k) {
        PatientBanksAll(c, lesson, n, k);
      }
      SequentialIff(c, lesson, times);
    }
  }

  // ---------- Evenly cut lessons ----------

  /** Every segment plays d seconds, recorded or nominal; the last recorded one may be
      shorter. This is what forced keyframes produce. */
  ghost predicate Even(c: Settings, lesson: Lesson, d: real) {
    && d >= 0.0
    && (!lesson.HasDurations() ==> d == c.segmentSeconds as real)
    && (lesson.HasDurations() ==>
          var ds := lesson.durations.value;
          && 0.0 <= ds[|ds| - 1] <= d
          && forall i :: 0 <= i < |ds| - 1 ==> ds[i] == d)
  }

  /** n fetches that stay within the recorded segments. */
  ghost predicate Within(lesson: Lesson, n: nat) { lesson.HasDurations() ==> n <= |lesson.durations.value| }

  /** Segment `seg` is the last recorded one. */
  ghost predicate IsLast(lesson: Lesson, seg: int) { lesson.HasDurations() && seg == |lesson.durations.value| - 1 }

  /** Whole seconds needed to play d seconds at the maximum rate. */
  function Pace(c: Settings, d: real): int { Ceil(d / c.maxRate) }

  /** A segment of d seconds can be credited for its own pace. */
  predicate PaceFits(c: Settings, d: real) { Pace(c, d) <= Max(1, RoundHalfEven(d)) }

  lemma PaceCovers(c: Settings, d: real)
    requires d >= 0.0
    ensures 0.0 <= d / c.maxRate <= Pace(c, d) as real && Pace(c, d) >= 0
    ensures d > 0.0 ==> Pace(c, d) >= 1
  {
    assert d / c.maxRate >= 0.0;
    if d > 0.0 {
      assert d / c.maxRate > 0.0;
    }
  }

  /** It always can at the default rate of two and above, and for whole seconds at any
      rate of one and above. */
  lemma PaceUsuallyFits(c: Settings, d: real)
    requires d >= 0.0
    requires c.maxRate >= 2.0 || (c.maxRate >= 1.0 && d == d.Floor as real)
    ensures PaceFits(c, d)
  {
    var r := c.maxRate;
    var q := d / r;
    assert q * r == d && q >= 0.0;
    if r >= 2.0 {
      assert q * r >= q * 2.0;
      assert q <= d / 2.0;
      HalfFits(d, q);
    } else {
      assert q * r >= q;
      assert RoundHalfEven(d) == d.Floor;
    }
  }

  lemma HalfFits(d: real, q: real)
    requires 0.0 <= q <= d / 2.0
    ensures Ceil(q) <= Max(1, RoundHalfEven(d))
  {
    if d > 2.0 && d < 3.0 {
      assert RoundHalfEven(d) >= 2;
    }
  }

  lemma RequiredEven(c: Settings, lesson: Lesson, d: real, k: nat)
    requires c.lookahead >= 1 && Even(c, lesson, d) && Within(lesson, k + 1)
    ensures Required(c, lesson, k) == if k < c.lookahead then 0.0 else (k + 1 - c.lookahead) as real * (d / c.maxRate)
  {
    if k >= c.lookahead {
      var m := k + 1 - c.lookahead;
      if lesson.HasDurations() {
        PrefixSumEven(lesson.durations.value, m, d);
      }
      assert EndOffset(c, lesson, k - c.lookahead) == m as real * d;
      assert (m as real * d) / c.maxRate == m as real * (d / c.maxRate);
    }
  }

  /** Gaps of at least the pace, each credited at least the pace, bank k times the pace. */
  lemma {:induction false} BankedAtLeast(c: Settings, lesson: Lesson, times: seq<Micros>, k: nat, pace: int)
    requires k < |times| && pace >= 0
    requires forall i :: 0 < i <= k ==> times[i] >= times[i - 1] + pace * SECOND && Clamp(c, lesson, i) >= pace
    ensures Banked(c, lesson, times, k) >= k * pace
  {
    hide Clamp, WholeSeconds;
    if k > 0 {
      BankedAtLeast(c, lesson, times, k - 1, pace);
      GapCounts(times[k] - times[k - 1], pace);
    }
  }

  lemma ClampIsEven(c: Settings, lesson: Lesson, d: real, k: nat)
    requires Even(c, lesson, d) && PaceFits(c, d) && Within(lesson, k + 1) && !IsLast(lesson, k)
    ensures Clamp(c, lesson, k) >= Pace(c, d)
  {
  }

  lemma TimesMonotone(a: real, b: real, m: nat, k: nat)
    requires 0.0 <= a <= b && m <= k
    ensures m as real * a <= k as real * b
  {
    assert m as real * a <= k as real * a <= k as real * b;
  }

  lemma HonestKeepsUp(c: Settings, lesson: Lesson, d: real, times: seq<Micros>, k: nat)
    requires c.lookahead >= 1 && Even(c, lesson, d) && PaceFits(c, d) && Within(lesson, |times|) && k < |times|
    requires forall i :: 0 < i < |times| ==> times[i] >= times[i - 1] + Pace(c, d) * SECOND
    requires IsLast(lesson, |times| - 1) ==> c.lookahead >= 2 || Clamp(c, lesson, |times| - 1) >= Pace(c, d)
    ensures KeepsUp(c, lesson, times, k)
  {
    hide Clamp, PaceFits, Even, Required, Banked, Pace, EndOffset, SegmentLength;
    var j := if IsLast(lesson, k) && c.lookahead >= 2 && k > 0 then k - 1 else k;
    HonestBanks(c, lesson, d, times, k, j);
    RequiredEven(c, lesson, d, k);
    EvenPaceCovers(c, lesson, d);
    EnoughBanked(k, j, c.lookahead, Pace(c, d), d / c.maxRate);
  }

  /** All segments up to j are credited a full pace. */
  lemma HonestBanks(c: Settings, lesson: Lesson, d: real, times: seq<Micros>, k: nat, j: nat)
    requires Even(c, lesson, d) && PaceFits(c, d) && Within(lesson, |times|) && j <= k < |times| && k <= j + 1
    requires forall i :: 0 < i < |times| ==> times[i] >= times[i - 1] + Pace(c, d) * SECOND
    requires IsLast(lesson, j) ==> Clamp(c, lesson, j) >= Pace(c, d) || j == 0
    ensures Banked(c, lesson, times, k) >= j * Pace(c, d)
  {
    hide Clamp, PaceFits, Even, Banked, Pace, EndOffset, SegmentLength;
    forall i | 0 < i <= j ensures Clamp(c, lesson, i) >= Pace(c, d) {
      if !IsLast(lesson, i) {
        ClampIsEven(c, lesson, d, i);
      }
    }
    EvenPaceCovers(c, lesson, d);
    BankedAtLeast(c, lesson, times, j, Pace(c, d));
    BankedRises(c, lesson, times, k);
  }

  lemma BankedRises(c: Settings, lesson: Lesson, times: seq<Micros>, k: nat)
    requires k < |times|
    ensures k > 0 ==> Banked(c, lesson, times, k - 1) <= Banked(c, lesson, times, k)
  {
  }

  /** j paces cover what segment k requires. */
  lemma EnoughBanked(k: nat, j: nat, lookahead: nat, pace: int, q: real)
    requires 0.0 <= q <= pace as real && k <= j + 1 && lookahead >= 1 && (k == j + 1 ==> lookahead >= 2)
    ensures (j * pace) as real >= if k < lookahead then 0.0 else (k + 1 - lookahead) as real * q
  {
    assert (j * pace) as real == j as real * pace as real;
    if k >= lookahead {
      TimesMonotone(q, pace as real, k + 1 - lookahead, j);
    } else {
      assert j * pace >= 0;
    }
  }

  /** An honest viewer, never faster than the maximum rate, watches an evenly cut lesson
      straight through and completes it: always with a look-ahead of two, and with a
      look-ahead of one when the last segment can be credited for a full pace. */
  lemma HonestViewerCompletes(c: Settings, lesson: Lesson, d: real, times: seq<Micros>)
    requires c.lookahead >= 1 && Even(c, lesson, d) && PaceFits(c, d) && Within(lesson, |times|)
    requires forall i :: 0 < i < |times| ==> times[i] >= times[i - 1] + Pace(c, d) * SECOND
    requires IsLast(lesson, |times| - 1) ==> c.lookahead >= 2 || Clamp(c, lesson, |times| - 1) >= Pace(c, d)
    ensures AllAccepted(c, lesson, FRESH, Sequential(times))
    ensures var p := Run(c, lesson, FRESH, Sequential(times));
            && p.watermark == |times| - 1
            && (|times| > 0 ==> p.lastAt == Some(times[|times| - 1]))
            && (|times| > 0 && lesson.segmentsCount == Some(|times|) ==> p.completedAt == Some(times[|times| - 1]))
  {
    hide KeepsUp, AllAccepted, Run, Even, PaceFits, Clamp;
    forall k | 0 <= k < |times| ensures KeepsUp(c, lesson, times, k) {
      HonestKeepsUp(c, lesson, d, times, k);
    }
    SequentialIff(c, lesson, times);
  }

  /** Fetches exactly one pace apart. */
  function Steady(c: Settings, d: real, n: nat): seq<Micros> {
    seq(n, i requires 0 <= i < n => i * Pace(c, d) * SECOND)
  }

  lemma {:induction false} SteadyBanks(c: Settings, lesson: Lesson, d: real, n: nat, k: nat)
    requires Even(c, lesson, d) && PaceFits(c, d) && Within(lesson, n) && k < n
    ensures Banked(c, lesson, Steady(c, d, n), k)
         == if k > 0 && IsLast(lesson, k) then (k - 1) * Pace(c, d) + Min(Pace(c, d), Clamp(c, lesson, k))
            else k * Pace(c, d)
  {
    hide Clamp, PaceFits, Even;
    if k > 0 {
      var times, pace := Steady(c, d, n), Pace(c, d);
      SteadyBanks(c, lesson, d, n, k - 1);
      SteadyGap(c, d, n, k);
      EvenPaceCovers(c, lesson, d);
      GapCounts(times[k] - times[k - 1], pace);
      if !IsLast(lesson, k) {
        ClampIsEven(c, lesson, d, k);
      }
    }
  }

  lemma SteadyGap(c: Settings, d: real, n: nat, k: nat)
    requires 0 < k < n
    ensures Steady(c, d, n)[k] - Steady(c, d, n)[k - 1] == Pace(c, d) * SECOND
  {
    hide Pace;
  }

  lemma EvenPaceCovers(c: Settings, lesson: Lesson, d: real)
    requires Even(c, lesson, d)
    ensures 0.0 <= d / c.maxRate <= Pace(c, d) as real && Pace(c, d) >= 0
  {
    PaceCovers(c, d);
  }

  /** The exact condition at a steady pace: with a look-ahead of one, a last segment
      shorter than a pace must still be credited for what is missing. */
  lemma SteadyViewerIff(c: Settings, lesson: Lesson, d: real, n: nat)
    requires c.lookahead >= 1 && Even(c, lesson, d) && PaceFits(c, d) && Within(lesson, n)
    ensures AllAccepted(c, lesson, FRESH, Sequential(Steady(c, d, n))) <==>
              (c.lookahead == 1 && n > 1 && IsLast(lesson, n - 1) ==>
                 ((n - 2) * Pace(c, d) + Min(Pace(c, d), Clamp(c, lesson, n - 1))) as real >=
                     (n - 1) as real * (d / c.maxRate))
  {
    hide KeepsUp, AllAccepted, Even, PaceFits, Clamp;
    var times := Steady(c, d, n);
    SequentialIff(c, lesson, times);
    forall k | 0 <= k < n
      ensures KeepsUp(c, lesson, times, k) <==>
                (c.lookahead == 1 && k > 0 && IsLast(lesson, k) ==>
                   ((k - 1) * Pace(c, d) + Min(Pace(c, d), Clamp(c, lesson, k))) as real >= k as real * (d / c.maxRate))
    {
      SteadyKeepsUpIff(c, lesson, d, n, k);
    }
    assert forall k :: 0 <= k < n - 1 ==> !IsLast(lesson, k);
  }

  lemma SteadyKeepsUpIff(c: Settings, lesson: Lesson, d: real, n: nat, k: nat)
    requires c.lookahead >= 1 && Even(c, lesson, d) && PaceFits(c, d) && Within(lesson, n) && k < n
    ensures KeepsUp(c, lesson, Steady(c, d, n), k) <==>
              (c.lookahead == 1 && k > 0 && IsLast(lesson, k) ==>
                 ((k - 1) * Pace(c, d) + Min(Pace(c, d), Clamp(c, lesson, k))) as real >= k as real * (d / c.maxRate))
  {
    hide Clamp, PaceFits, Pace, Steady, EndOffset, Banked, Required, Even;
    SteadyBanks(c, lesson, d, n, k);
    RequiredEven(c, lesson, d, k);
    if !(c.lookahead == 1 && k > 0 && IsLast(lesson, k)) {
      SteadyKeepsUp(c, lesson, d, n, k);
    }
  }

  lemma SteadyKeepsUp(c: Settings, lesson: Lesson, d: real, n: nat, k: nat)
    requires c.lookahead >= 1 && Even(c, lesson, d) && PaceFits(c, d) && Within(lesson, n) && k < n
    requires !(c.lookahead == 1 && k > 0 && IsLast(lesson, k))
    ensures KeepsUp(c, lesson, Steady(c, d, n), k)
  {
    hide KeepsUp, PaceFits, Clamp, Even;
    var times := Steady(c, d, n)[..k + 1];
    forall i | 0 < i < |times| ensures times[i] >= times[i - 1] + Pace(c, d) * SECOND {
      SteadyGap(c, d, n, i);
    }
    if k == 0 {
      OnePrefix(c, lesson, d, n);
    } else {
      HonestKeepsUp(c, lesson, d, times, k);
      SamePrefix(c, lesson, Steady(c, d, n), k);
    }
  }

  lemma OnePrefix(c: Settings, lesson: Lesson, d: real, n: nat)
    requires c.lookahead >= 1 && n > 0
    ensures KeepsUp(c, lesson, Steady(c, d, n), 0)
  {
  }

  lemma SamePrefix(c: Settings, lesson: Lesson, times: seq<Micros>, k: nat)
    requires k < |times| && KeepsUp(c, lesson, times[..k + 1], k)
    ensures KeepsUp(c, lesson, times, k)
  {
    BankedPrefix(c, lesson, times, k + 1, k);
  }

  /** So a look-ahead of one can refuse an honest viewer's last segment: 6, 6 and 1
      seconds at rate two, fetched at 0, 3 and 6 seconds. */
  lemma ShortLastSegmentStalls()
    ensures var c, lesson := Settings(6, 1, 2.0), Lesson(Some([6.0, 6.0, 1.0]), Some(3));
            var run := Sequential([0, 3 * SECOND, 6 * SECOND]);
            Accepted(c, lesson, FRESH, run, 0) && Accepted(c, lesson, FRESH, run, 1) &&
                !Accepted(c, lesson, FRESH, run, 2)
  {
    hide Accepts, Run, Required, Clamp, Banked;
    var c, lesson := Settings(6, 1, 2.0), Lesson(Some([6.0, 6.0, 1.0]), Some(3));
    var two, times := [0, 3 * SECOND], [0, 3 * SECOND, 6 * SECOND];
    StallNumbers(c, lesson, two);
    StallNumbers(c, lesson, times);
    SequentialIff(c, lesson, two);
    SequentialIff(c, lesson, times);
    assert KeepsUp(c, lesson, two, 0) && KeepsUp(c, lesson, two, 1) && !KeepsUp(c, lesson, times, 2);
    var run := Sequential(times);
    assert run[..2] == Sequential(two);
    forall i | 0 <= i < 2 ensures Accepted(c, lesson, FRESH, run, i) {
      assert run[..i] == Sequential(two)[..i];
      assert Accepted(c, lesson, FRESH, Sequential(two), i);
    }
  }

  lemma StallNumbers(c: Settings, lesson: Lesson, times: seq<Micros>)
    requires c == Settings(6, 1, 2.0) && lesson == Lesson(Some([6.0, 6.0, 1.0]), Some(3))
    requires times == [0, 3 * SECOND] || times == [0, 3 * SECOND, 6 * SECOND]
    ensures Required(c, lesson, 0) == 0.0 && Required(c, lesson, 1) == 3.0 && Required(c, lesson, 2) == 6.0
    ensures Banked(c, lesson, times, 0) == 0 && Banked(c, lesson, times, 1) == 3
    ensures |times| == 3 ==> Banked(c, lesson, times, 2) == 4
  {
    hide RoundHalfEven;
    var ds := lesson.durations.value;
    assert PrefixSum(ds, 0) == 0.0;
    assert PrefixSum(ds, 1) == PrefixSum(ds, 0) + 6.0;
    assert PrefixSum(ds, 2) == PrefixSum(ds, 1) + 6.0;
    assert Clamp(c, lesson, 1) == 6 && Clamp(c, lesson, 2) == 1;
    assert WholeSeconds(3 * SECOND) == 3;
  }

  /** `count` refetches of the watermark, one second apart. */
  function Rewatches(p: Progress, count: nat): seq<Fetch>
    requires p.lastAt.Some? && p.watermark >= 0
  {
    seq(count, i => Fetch(p.watermark, p.lastAt.value + (i + 1) * SECOND))
  }

  lemma RewatchStep(c: Settings, lesson: Lesson, p: Progress, start: Option<Micros>, seg: nat, now: Micros)
    requires lesson.Timed() && Coherent(c, lesson, p, start)
    requires p.watermark == seg && p.lastAt.Some? && now == p.lastAt.value + SECOND
    ensures Accepts(c, lesson, p, seg, now)
    ensures var q := Step(c, lesson, p, seg, now);
            q.credit == p.credit + 1 && q.watermark == seg && q.lastAt == Some(now) && Coherent(c, lesson, q, start)
  {
    StepKeepsCoherent(c, lesson, p, start, seg, now);
  }

  /** Refetching the watermark is always accepted and banks a second each time. */
  lemma {:induction false} RewatchesBankCredit(c: Settings, lesson: Lesson, p: Progress, start: Option<Micros>,
      count: nat)
    requires lesson.Timed() && Coherent(c, lesson, p, start) && p.lastAt.Some? && p.watermark >= 0
    ensures AllAccepted(c, lesson, p, Rewatches(p, count))
    ensures var q := Run(c, lesson, p, Rewatches(p, count));
            && q.credit == p.credit + count && q.watermark == p.watermark
            && q.lastAt == Some(p.lastAt.value + count * SECOND)
            && Coherent(c, lesson, q, start)
  {
    hide Accepts, Step, Accepted, AllAccepted, Coherent;
    var run := Rewatches(p, count);
    if count == 0 {
      NothingToAccept(c, lesson, p);
    } else {
      RewatchesBankCredit(c, lesson, p, start, count - 1);
      assert run[..count - 1] == Rewatches(p, count - 1);
      var q := Run(c, lesson, p, run[..count - 1]);
      RewatchStep(c, lesson, q, start, p.watermark, p.lastAt.value + count * SECOND);
      AcceptedSnoc(c, lesson, p, run);
    }
  }

  /** No lesson is a dead end, however its durations are laid out: from every
      coherent state some schedule of accepted fetches raises the watermark to
      any target. */
  lemma {:induction false} NeverStuck(c: Settings, lesson: Lesson, p: Progress, start: Option<Micros>, target: int)
    returns (run: seq<Fetch>)
    requires c.lookahead >= 1
    requires lesson.Timed() && Coherent(c, lesson, p, start)
    ensures AllAccepted(c, lesson, p, run)
    ensures Run(c, lesson, p, run).watermark >= target
    decreases target - p.watermark
  {
    if target <= p.watermark {
      run := [];
    } else {
      var climb := [];
      if p.lastAt.Some? {
        var need := Ceil(Required(c, lesson, p.watermark + 1));
        climb := Rewatches(p, Max(0, need));
        RewatchesBankCredit(c, lesson, p, start, Max(0, need));
      }
      var q := Run(c, lesson, p, climb);
      var now := if q.lastAt.Some? then q.lastAt.value else 0;
      var next := Fetch(p.watermark + 1, now);
      assert Accepts(c, lesson, q, next.seg, next.at);
      StepKeepsCoherent(c, lesson, q, start, next.seg, next.at);
      var q' := Step(c, lesson, q, next.seg, next.at);
      var rest := NeverStuck(c, lesson, q', if start.None? then Some(now) else start, target);
      AppendAccepted(c, lesson, p, climb, [next]);
      AppendAccepted(c, lesson, p, climb + [next], rest);
      run := climb + [next] + rest;
    }
  }

  /** The look-ahead has to be positive for that: with none, a learner who has
      fetched nothing may fetch nothing. */
  lemma {:induction false} NoLookaheadNoPlayback(c: Settings, lesson: Lesson, run: seq<Fetch>)
    requires c.lookahead == 0
    ensures Run(c, lesson, FRESH, run) == FRESH
  {
    if run != [] {
      NoLookaheadNoPlayback(c, lesson, run[..|run| - 1]);
    }
  }
}

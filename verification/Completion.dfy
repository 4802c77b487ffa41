/** One enrollment's progress: lesson rows written by the playback gate and by the
    progress endpoint, the recomputed percentage, completion and the certificate. */
module Completion {
  import opened Prelude
  import Playback
  import GateHistory

  type Time = Playback.Micros
  type LessonId = nat

  /** The course's lessons; fixed while the learner studies. */
  type Curriculum = map<LessonId, Playback.Lesson>

  /** The enrollment row, its lesson rows, and how many certificates its learner holds
      for its course. */
  datatype Study = Study(rows: map<LessonId, Playback.Progress>, percent: int, completedAt: Option<Time>,
      certificates: nat)

  const JUST_ENROLLED := Study(map[], 0, None, 0)

  datatype Denial = LessonNotFound | SectionLocked | Gated(reason: Playback.Refusal)

  function Row(rows: map<LessonId, Playback.Progress>, l: LessonId): Playback.Progress {
    if l in rows then rows[l] else Playback.FRESH
  }

  function Done(rows: map<LessonId, Playback.Progress>): set<LessonId> {
    set l | l in rows && rows[l].completedAt.Some?
  }

  function Percent(done: nat, total: nat): int {
    if total > 0 then RoundHalfEven(done as real / total as real * 100.0) else 0
  }

  function Recompute(s: Study, total: nat, now: Time): Study {
    var done := |Done(s.rows)|;
    var t := s.(percent := Percent(done, total));
    if total > 0 && done >= total && s.completedAt.None? then
      t.(completedAt := Some(now), certificates := Max(1, s.certificates))
    else if (total == 0 || done < total) && s.completedAt.Some? then t.(completedAt := None)
    else t
  }

  /** completed: true, false, or left out of the request. */
  function Marked(p: Playback.Progress, completed: Option<bool>, now: Time): Playback.Progress {
    if completed == Some(true) && p.completedAt.None? then p.(completedAt := Some(now))
    else if completed == Some(false) then p.(completedAt := None)
    else p
  }

  /** `open` is the section-quiz gate's verdict on the lesson's section. */
  function Mark(curriculum: Curriculum, s: Study, l: LessonId, open: bool, completed: Option<bool>,
                now: Time): Result<Study, Denial> {
    if l !in curriculum then Err(LessonNotFound)
    else if !open then Err(SectionLocked)
    else Ok(Recompute(s.(rows := s.rows[l := Marked(Row(s.rows, l), completed, now)]), |curriculum|, now))
  }

  /** A segment fetch through the gate; progress is recomputed only when the fetch
      completes the lesson. */
  function Watch(c: Playback.Settings, curriculum: Curriculum, s: Study, l: LessonId, seg: nat,
                 now: Time): Result<Study, Denial> {
    if l !in curriculum then Err(LessonNotFound)
    else
      var p := Row(s.rows, l);
      if Playback.Skips(c, p, seg) then Err(Gated(Playback.SkipBlocked))
      else if !Playback.Accepts(c, curriculum[l], p, seg, now) then Err(Gated(Playback.RateExceeded))
      else
        var t := s.(rows := s.rows[l := Playback.Step(c, curriculum[l], p, seg, now)]);
        Ok(if Playback.Completes(curriculum[l], p, seg) then Recompute(t, |curriculum|, now) else t)
  }

  class Enrollment {
    var rows: map<LessonId, Playback.Progress>
    var progressPercent: int
    var completedAt: Option<Time>
    var certificates: nat

    constructor ()
      ensures State() == JUST_ENROLLED
    {
      rows, progressPercent, completedAt, certificates := map[], 0, None, 0;
    }

    ghost function State(): Study
      reads this
    {
      Study(rows, progressPercent, completedAt, certificates)
    }

    method EnsureCertificate()
      modifies this`certificates
      ensures certificates == Max(1, old(certificates))
    {
      if certificates > 0 {
        return;
      }
      certificates := certificates + 1;
    }

    method RecomputeProgress(total: nat, now: Time)
      modifies this
      ensures State() == Recompute(old(State()), total, now)
    {
      var completed := |Done(rows)|;
      progressPercent := if total > 0 then RoundHalfEven(completed as real / total as real * 100.0) else 0;
      if total > 0 && completed >= total && completedAt.None? {
        completedAt := Some(now);
        EnsureCertificate();
      } else if (total == 0 || completed < total) && completedAt.Some? {
        completedAt := None;
      }
    }

    method UpdateLessonProgress(curriculum: Curriculum, l: LessonId, open: bool, completed: Option<bool>, now: Time)
      returns (r: Result<(), Denial>)
      modifies this
      ensures match Mark(curriculum, old(State()), l, open, completed, now)
              case Ok(s) => r == Ok(()) && State() == s
              case Err(e) => r == Err(e) && State() == old(State())
    {
      if l !in curriculum {
        return Err(LessonNotFound);
      }
      if !open {
        return Err(SectionLocked);
      }
      if l !in rows {
        rows := rows[l := Playback.Progress(-1, 0, None, None)];
      }
      if completed == Some(true) && rows[l].completedAt.None? {
        rows := rows[l := rows[l].(completedAt := Some(now))];
      } else if completed == Some(false) {
        rows := rows[l := rows[l].(completedAt := None)];
      }
      assert rows == old(rows)[l := Marked(Row(old(rows), l), completed, now)];
      RecomputeProgress(|curriculum|, now);
      return Ok(());
    }

    method FetchSegment(c: Playback.Settings, curriculum: Curriculum, l: LessonId, seg: nat, now: Time)
      returns (r: Result<(), Denial>)
      modifies this
      ensures match Watch(c, curriculum, old(State()), l, seg, now)
              case Ok(s) => r == Ok(()) && State() == s
              case Err(e) => r == Err(e) && State() == old(State())
    {
      if l !in curriculum {
        return Err(LessonNotFound);
      }
      var row := new Playback.LessonProgress();
      if l in rows {
        var p := rows[l];
        row.maxSegmentIndex, row.playCreditSeconds := p.watermark, p.credit;
        row.lastSegmentAt, row.completedAt := p.lastAt, p.completedAt;
      }
      ghost var before := row.State();
      var verdict := row.GateSegmentFetch(c, curriculum[l], seg, now);
      assert before == Row(old(rows), l);
      if verdict.Err? {
        assert verdict.error == if Playback.Skips(c, before, seg) then Playback.SkipBlocked else Playback.RateExceeded;
        return Err(Gated(verdict.error));
      }
      rows := rows[l := Playback.Progress(row.maxSegmentIndex, row.playCreditSeconds, row.lastSegmentAt,
          row.completedAt)];
      if verdict.value {
        RecomputeProgress(|curriculum|, now);
      }
      return Ok(());
    }
  }

  // ---------- Runs ----------

  datatype Event =
    | Progressed(lesson: LessonId, open: bool, completed: Option<bool>, at: Time)
    | Fetched(lesson: LessonId, seg: nat, at: Time)

  /** A refused request changes nothing. */
  function Apply(c: Playback.Settings, curriculum: Curriculum, s: Study, e: Event): Study {
    var r := match e
      case Progressed(l, open, completed, at) => Mark(curriculum, s, l, open, completed, at)
      case Fetched(l, seg, at) => Watch(c, curriculum, s, l, seg, at);
    if r.Ok? then r.value else s
  }

  function Run(c: Playback.Settings, curriculum: Curriculum, events: seq<Event>): Study {
    if events == [] then JUST_ENROLLED
    else Apply(c, curriculum, Run(c, curriculum, events[..|events| - 1]), events[|events| - 1])
  }

  /** Completion is exactly "there are lessons and all are done"; the percentage is
      current; a completed enrollment has its one certificate. */
  ghost predicate Settled(curriculum: Curriculum, s: Study) {
    && s.rows.Keys <= curriculum.Keys
    && s.percent == Percent(|Done(s.rows)|, |curriculum|)
    && (s.completedAt.Some? <==> |curriculum| > 0 && |Done(s.rows)| == |curriculum|)
    && s.certificates <= 1
    && (s.completedAt.Some? ==> s.certificates == 1)
  }

  /** Completed rows never exceed the lessons. */
  lemma DoneWithinLessons(curriculum: Curriculum, rows: map<LessonId, Playback.Progress>)
    requires rows.Keys <= curriculum.Keys
    ensures |Done(rows)| <= |curriculum|
  {
    SubsetSize(Done(rows), curriculum.Keys);
  }

  lemma RecomputeSettles(curriculum: Curriculum, s: Study, now: Time)
    requires s.rows.Keys <= curriculum.Keys && s.certificates <= 1 && (s.completedAt.Some? ==> s.certificates == 1)
    ensures Settled(curriculum, Recompute(s, |curriculum|, now))
  {
    DoneWithinLessons(curriculum, s.rows);
  }

  lemma StepKeepsSettled(c: Playback.Settings, curriculum: Curriculum, s: Study, e: Event)
    requires Settled(curriculum, s)
    ensures Settled(curriculum, Apply(c, curriculum, s, e))
  {
    hide Recompute, Percent, Playback.Accepts;
    match e {
      case Progressed(l, open, completed, at) =>
        if l in curriculum && open {
          RecomputeSettles(curriculum, s.(rows := s.rows[l := Marked(Row(s.rows, l), completed, at)]), at);
        }
      case Fetched(l, seg, at) =>
        if l in curriculum {
          var p := Row(s.rows, l);
          var rows := s.rows[l := Playback.Step(c, curriculum[l], p, seg, at)];
          RecomputeSettles(curriculum, s.(rows := rows), at);
          if !Playback.Completes(curriculum[l], p, seg) {
            assert Done(rows) == Done(s.rows);
          }
        }
    }
  }

  /** In every reachable state, whatever is fetched, marked or unmarked. */
  lemma {:induction false} RunKeepsSettled(c: Playback.Settings, curriculum: Curriculum, events: seq<Event>)
    ensures Settled(curriculum, Run(c, curriculum, events))
  {
    if events == [] {
      assert Done(map[]) == {};
    } else {
      RunKeepsSettled(c, curriculum, events[..|events| - 1]);
      StepKeepsSettled(c, curriculum, Run(c, curriculum, events[..|events| - 1]), events[|events| - 1]);
    }
  }

  lemma RoundsToHundred(x: real)
    requires 0.0 <= x <= 100.0
    ensures 0 <= RoundHalfEven(x) <= 100
    ensures RoundHalfEven(x) == 100 <==> x >= 99.5
  {
  }

  lemma RatioAtLeast(d: real, t: real)
    requires 0.0 <= d <= t && t > 0.0
    ensures 0.0 <= d / t * 100.0 <= 100.0
    ensures d / t * 100.0 >= 99.5 <==> 200.0 * d >= 199.0 * t
  {
    var q := d / t;
    assert q * t == d && 0.0 <= q <= 1.0;
    if q >= 0.995 {
      assert q * t >= 0.995 * t;
    } else {
      assert q * t < 0.995 * t;
    }
  }

  /** When 100 percent shows: from 99.5 percent on, ties included. */
  lemma HundredIff(done: nat, total: nat)
    requires total > 0 && done <= total
    ensures 0 <= Percent(done, total) <= 100
    ensures Percent(done, total) == 100 <==> 200 * done >= 199 * total
  {
    hide RoundHalfEven;
    RatioAtLeast(done as real, total as real);
    RoundsToHundred(done as real / total as real * 100.0);
    assert (200 * done) as real == 200.0 * done as real && (199 * total) as real == 199.0 * total as real;
  }

  /** The percentage stays in 0..100, and completion always shows 100; a large course
      shows 100 before it is complete. */
  lemma PercentInRange(c: Playback.Settings, curriculum: Curriculum, events: seq<Event>)
    ensures var s := Run(c, curriculum, events);
            && 0 <= s.percent <= 100
            && (s.completedAt.Some? ==> s.percent == 100)
            && (s.percent == 100 && |curriculum| < 200 ==> s.completedAt.Some?)
  {
    hide Run, Percent;
    RunKeepsSettled(c, curriculum, events);
    var s := Run(c, curriculum, events);
    DoneWithinLessons(curriculum, s.rows);
    NoLessonsNoPercent(|Done(s.rows)|);
    if |curriculum| > 0 {
      HundredIff(|Done(s.rows)|, |curriculum|);
    }
  }

  lemma NoLessonsNoPercent(done: nat)
    ensures Percent(done, 0) == 0
  {
  }

  lemma HundredBeforeComplete()
    ensures Percent(199, 200) == 100
  {
    HundredIff(199, 200);
  }

  // ---------- Certificates ----------

  /** The enrollment was complete at some moment of the run. */
  function EverComplete(c: Playback.Settings, curriculum: Curriculum, events: seq<Event>): bool {
    Run(c, curriculum, events).completedAt.Some?
    || (events != [] && EverComplete(c, curriculum, events[..|events| - 1]))
  }

  /** One certificate if the enrollment was ever complete, none otherwise, however often
      completion is toggled. */
  lemma {:induction false} OneCertificateIff(c: Playback.Settings, curriculum: Curriculum, events: seq<Event>)
    ensures Run(c, curriculum, events).certificates == if EverComplete(c, curriculum, events) then 1 else 0
  {
    RunKeepsSettled(c, curriculum, events);
    if events != [] {
      hide Settled, Percent, Playback.Accepts;
      var n := |events| - 1;
      OneCertificateIff(c, curriculum, events[..n]);
      CertificatesOnlyGrow(c, curriculum, Run(c, curriculum, events[..n]), events[n]);
      SettledCertificate(curriculum, Run(c, curriculum, events));
    }
  }

  lemma CertificatesOnlyGrow(c: Playback.Settings, curriculum: Curriculum, s: Study, e: Event)
    ensures Apply(c, curriculum, s, e).certificates >= s.certificates
    ensures Apply(c, curriculum, s, e).certificates > s.certificates ==> Apply(c, curriculum, s, e).completedAt.Some?
  {
    hide Percent, Playback.Accepts, Playback.Completes, Playback.Skips, Done;
  }

  lemma SettledCertificate(curriculum: Curriculum, s: Study)
    requires Settled(curriculum, s)
    ensures s.certificates <= 1 && (s.completedAt.Some? ==> s.certificates == 1)
  {
  }

  // ---------- The gate is out of the endpoint's reach ----------

  /** The fetches of one lesson that reached the gate. */
  function FetchesOf(curriculum: Curriculum, events: seq<Event>, l: LessonId): seq<Playback.Fetch> {
    if events == [] then []
    else
      var e := events[|events| - 1];
      FetchesOf(curriculum, events[..|events| - 1], l) +
      if e.Fetched? && e.lesson == l then [Playback.Fetch(e.seg, e.at)] else []
  }

  /** Equal in everything the gate decides by. */
  ghost predicate SameGate(p: Playback.Progress, q: Playback.Progress) {
    p.watermark == q.watermark && p.credit == q.credit && p.lastAt == q.lastAt
  }

  lemma StepKeepsSameGate(c: Playback.Settings, lesson: Playback.Lesson, p: Playback.Progress,
                          q: Playback.Progress, seg: nat, now: Time)
    requires SameGate(p, q)
    ensures SameGate(Playback.Step(c, lesson, p, seg, now), Playback.Step(c, lesson, q, seg, now))
  {
  }

  lemma ApplyRow(c: Playback.Settings, curriculum: Curriculum, s: Study, e: Event, l: LessonId)
    requires l in curriculum
    ensures var after := Row(Apply(c, curriculum, s, e).rows, l);
            if e.Fetched? && e.lesson == l then after == Playback.Step(c, curriculum[l], Row(s.rows, l), e.seg, e.at)
            else SameGate(after, Row(s.rows, l))
  {
    hide Percent, Done;
  }

  /** Marking lessons complete or incomplete never moves a watermark, a credit or a
      clock: each lesson's gate state is that of its own fetches alone. */
  lemma {:induction false} TogglesDontMoveTheGate(c: Playback.Settings, curriculum: Curriculum, events: seq<Event>,
      l: LessonId)
    requires l in curriculum
    ensures SameGate(Row(Run(c, curriculum, events).rows, l),
                     Playback.Run(c, curriculum[l], Playback.FRESH, FetchesOf(curriculum, events, l)))
  {
    hide Apply, Playback.Step;
    if events != [] {
      var n := |events| - 1;
      var e := events[n];
      var fetches := FetchesOf(curriculum, events[..n], l);
      TogglesDontMoveTheGate(c, curriculum, events[..n], l);
      ApplyRow(c, curriculum, Run(c, curriculum, events[..n]), e, l);
      if e.Fetched? && e.lesson == l {
        var all := fetches + [Playback.Fetch(e.seg, e.at)];
        assert all[..|all| - 1] == fetches;
        StepKeepsSameGate(c, curriculum[l], Row(Run(c, curriculum, events[..n]).rows, l),
                          Playback.Run(c, curriculum[l], Playback.FRESH, fetches), e.seg, e.at);
      } else {
        assert FetchesOf(curriculum, events, l) == fetches;
      }
    }
  }

  lemma SameGateSameAnswer(c: Playback.Settings, lesson: Playback.Lesson, p: Playback.Progress, q: Playback.Progress,
                           seg: nat, now: Time)
    requires SameGate(p, q)
    ensures var a, b := Playback.Answer(c, lesson, p, seg, now), Playback.Answer(c, lesson, q, seg, now);
            (a.Ok? <==> b.Ok?) && (a.Err? ==> a == b)
  {
  }

  /** After any run a fetch of a lesson of the course is answered as the lesson's own fetches
      alone decide, and marking is refused exactly in a locked section. */
  lemma AnswersIff(c: Playback.Settings, curriculum: Curriculum, events: seq<Event>, l: LessonId, seg: nat,
                   open: bool, completed: Option<bool>, now: Time)
    ensures var s := Run(c, curriculum, events);
            var fetched, marked := Watch(c, curriculum, s, l, seg, now), Mark(curriculum, s, l, open, completed, now);
            if l !in curriculum then fetched == Err(LessonNotFound) == marked
            else
              && (match GateHistory.AnswerAfter(c, curriculum[l], FetchesOf(curriculum, events, l),
                                                Playback.Fetch(seg, now))
                  case Ok(_) => fetched.Ok?
                  case Err(e) => fetched == Err(Gated(e)))
              && (if open then marked.Ok? else marked == Err(SectionLocked))
  {
    hide Run, Playback.Run, Recompute, Playback.Accepts, Playback.Skips;
    if l in curriculum {
      TogglesDontMoveTheGate(c, curriculum, events, l);
      SameGateSameAnswer(c, curriculum[l], Row(Run(c, curriculum, events).rows, l),
                         Playback.Run(c, curriculum[l], Playback.FRESH, FetchesOf(curriculum, events, l)), seg, now);
    }
  }

  ghost predicate Clocked(events: seq<Event>) {
    forall i, j :: 0 <= i < j < |events| ==> events[i].at <= events[j].at
  }

  lemma {:induction false} FetchesAreClocked(curriculum: Curriculum, events: seq<Event>, l: LessonId)
    requires Clocked(events)
    ensures Playback.Clocked(FetchesOf(curriculum, events, l))
    ensures forall i :: 0 <= i < |FetchesOf(curriculum, events, l)| ==>
              events != [] && FetchesOf(curriculum, events, l)[i].at <= events[|events| - 1].at
  {
    if events != [] {
      var n := |events| - 1;
      FetchesAreClocked(curriculum, events[..n], l);
      assert n > 0 ==> events[..n][n - 1] == events[n - 1] && events[n - 1].at <= events[n].at;
    }
  }

  /** So the wall-clock bound on the watermark survives any use of the progress endpoint. */
  lemma {:induction false} WatermarkOutpacedDespiteToggles(c: Playback.Settings, curriculum: Curriculum,
      events: seq<Event>, l: LessonId)
    requires Clocked(events) && l in curriculum && curriculum[l].Timed()
    requires Row(Run(c, curriculum, events).rows, l).watermark >= c.lookahead
    ensures var p := Row(Run(c, curriculum, events).rows, l);
            var first := Playback.FirstAccepted(c, curriculum[l], Playback.FRESH, FetchesOf(curriculum, events, l));
            && first.Some? && p.lastAt.Some?
            && Playback.Outpaced(c, curriculum[l], p.watermark - c.lookahead, p.lastAt.value - first.value)
  {
    hide Run, Playback.Run;
    TogglesDontMoveTheGate(c, curriculum, events, l);
    FetchesAreClocked(curriculum, events, l);
    Playback.WatermarkIsOutpaced(c, curriculum[l], FetchesOf(curriculum, events, l));
  }

  // ---------- When completing a lesson takes playing it ----------

  /** The last request the endpoint accepted that set or cleared the lesson's completion. */
  function LastMark(curriculum: Curriculum, events: seq<Event>, l: LessonId): Option<bool> {
    if events == [] then None
    else
      var e := events[|events| - 1];
      if Marks(curriculum, e, l) then e.completed else LastMark(curriculum, events[..|events| - 1], l)
  }

  predicate Marks(curriculum: Curriculum, e: Event, l: LessonId) {
    e.Progressed? && e.lesson == l && l in curriculum && e.open && e.completed.Some?
  }

  /** The learner has not reached the last segment; a lesson never packaged has none. */
  predicate Short(lesson: Playback.Lesson, p: Playback.Progress) {
    lesson.segmentsCount.Some? ==> p.watermark < lesson.segmentsCount.value - 1
  }

  /** What one event does to the completion of a lesson. */
  lemma StepStamps(c: Playback.Settings, curriculum: Curriculum, s: Study, e: Event, l: LessonId)
    requires l in curriculum
    ensures var before, after := Row(s.rows, l), Row(Apply(c, curriculum, s, e).rows, l);
            && before.watermark <= after.watermark
            && (Marks(curriculum, e, l) ==> (after.completedAt.Some? <==> e.completed.value))
            && (!Marks(curriculum, e, l) && after.completedAt != before.completedAt ==>
                  && e.Fetched? && e.lesson == l && curriculum[l].segmentsCount.Some?
                  && after.completedAt == Some(e.at) == after.lastAt && !Short(curriculum[l], after))
            && (before.completedAt.Some? && after.completedAt.Some? ==> after.completedAt == before.completedAt)
  {
    hide Percent, Done, Playback.Accepts, Playback.Earned;
  }

  /** A fetch the gate accepts that leaves the watermark at the last segment. */
  predicate Finishes(c: Playback.Settings, curriculum: Curriculum, s: Study, e: Event, l: LessonId) {
    && e.Fetched? && e.lesson == l && l in curriculum
    && Playback.Accepts(c, curriculum[l], Row(s.rows, l), e.seg, e.at)
    && !Short(curriculum[l], Playback.Step(c, curriculum[l], Row(s.rows, l), e.seg, e.at))
  }

  /** The last word on a lesson: what the latest accepted mark said, or "done" from a later
      fetch that finished it. */
  function LastWord(c: Playback.Settings, curriculum: Curriculum, events: seq<Event>, l: LessonId): bool {
    if events == [] then false
    else
      var n := |events| - 1;
      var e := events[n];
      if Marks(curriculum, e, l) then e.completed.value
      else Finishes(c, curriculum, Run(c, curriculum, events[..n]), e, l) || LastWord(c, curriculum, events[..n], l)
  }

  lemma StepSpeaks(c: Playback.Settings, curriculum: Curriculum, s: Study, e: Event, l: LessonId)
    requires l in curriculum
    ensures Row(Apply(c, curriculum, s, e).rows, l).completedAt.Some? <==>
              if Marks(curriculum, e, l) then e.completed.value
              else Finishes(c, curriculum, s, e, l) || Row(s.rows, l).completedAt.Some?
  {
    hide Percent, Done, Playback.Required, Playback.Earned;
  }

  /** The exact condition, at every moment of every run and for every lesson, packaged or
      not: it is complete if and only if the last word on it is "done". */
  lemma {:induction false} CompletionIff(c: Playback.Settings, curriculum: Curriculum, events: seq<Event>, l: LessonId)
    requires l in curriculum
    ensures Row(Run(c, curriculum, events).rows, l).completedAt.Some? <==> LastWord(c, curriculum, events, l)
  {
    hide Apply, Finishes;
    if events != [] {
      CompletionIff(c, curriculum, events[..|events| - 1], l);
      StepSpeaks(c, curriculum, Run(c, curriculum, events[..|events| - 1]), events[|events| - 1], l);
    }
  }

  /** A row that is still short was never finished by a fetch. */
  lemma StillShort(c: Playback.Settings, curriculum: Curriculum, s: Study, e: Event, l: LessonId)
    requires l in curriculum && Short(curriculum[l], Row(Apply(c, curriculum, s, e).rows, l))
    ensures Short(curriculum[l], Row(s.rows, l)) && !Finishes(c, curriculum, s, e, l)
  {
    hide Percent, Done, Playback.Required, Playback.Earned;
  }

  lemma {:induction false} ShortMeansMarked(c: Playback.Settings, curriculum: Curriculum, events: seq<Event>,
                                            l: LessonId)
    requires l in curriculum && Short(curriculum[l], Row(Run(c, curriculum, events).rows, l))
    ensures LastWord(c, curriculum, events, l) <==> LastMark(curriculum, events, l) == Some(true)
  {
    hide Apply, Finishes, Short;
    if events != [] {
      var n := |events| - 1;
      StillShort(c, curriculum, Run(c, curriculum, events[..n]), events[n], l);
      ShortMeansMarked(c, curriculum, events[..n], l);
    }
  }

  /** In particular, as long as the last segment has not been reached, the last accepted
      request to mark the lesson decides alone. */
  lemma UnplayedCompletionIff(c: Playback.Settings, curriculum: Curriculum, events: seq<Event>, l: LessonId)
    requires l in curriculum
    ensures var p := Row(Run(c, curriculum, events).rows, l);
            (Short(curriculum[l], p) ==> (p.completedAt.Some? <==> LastMark(curriculum, events, l) == Some(true)))
  {
    CompletionIff(c, curriculum, events, l);
    if Short(curriculum[l], Row(Run(c, curriculum, events).rows, l)) {
      ShortMeansMarked(c, curriculum, events, l);
    }
  }

  /** No accepted request of the run marks the lesson complete; it may well be unmarked. */
  ghost predicate NeverMarked(curriculum: Curriculum, events: seq<Event>, l: LessonId) {
    forall i :: 0 <= i < |events| && Marks(curriculum, events[i], l) ==> events[i].completed == Some(false)
  }

  /** A completion time the gate could have given: the last segment is reached, and the
      timeline behind it fits the wall clock since the first accepted fetch. */
  ghost predicate InTime(c: Playback.Settings, lesson: Playback.Lesson, p: Playback.Progress, first: Option<Time>) {
    p.completedAt.Some? ==>
      && lesson.segmentsCount.Some? && !Short(lesson, p) && first.Some?
      && (lesson.segmentsCount.value - 1 >= c.lookahead ==>
            Playback.Outpaced(c, lesson, lesson.segmentsCount.value - 1 - c.lookahead,
                p.completedAt.value - first.value))
  }

  lemma FirstStays(c: Playback.Settings, lesson: Playback.Lesson, run: seq<Playback.Fetch>, f: Playback.Fetch)
    ensures var first := Playback.FirstAccepted(c, lesson, Playback.FRESH, run);
            first.Some? ==> Playback.FirstAccepted(c, lesson, Playback.FRESH, run + [f]) == first
  {
    assert (run + [f])[..|run + [f]| - 1] == run;
  }

  /** The first accepted fetch of a lesson, over a run of fetches and requests. */
  ghost function FirstFetch(c: Playback.Settings, curriculum: Curriculum, events: seq<Event>, l: LessonId): Option<Time>
    requires l in curriculum
  {
    Playback.FirstAccepted(c, curriculum[l], Playback.FRESH, FetchesOf(curriculum, events, l))
  }

  lemma FirstFetchStays(c: Playback.Settings, curriculum: Curriculum, events: seq<Event>, l: LessonId)
    requires events != [] && l in curriculum
    ensures var first := FirstFetch(c, curriculum, events[..|events| - 1], l);
            first.Some? ==> FirstFetch(c, curriculum, events, l) == first
  {
    hide Playback.FirstAccepted;
    var n := |events| - 1;
    var e := events[n];
    var fetches := FetchesOf(curriculum, events[..n], l);
    if e.Fetched? && e.lesson == l {
      FirstStays(c, curriculum[l], fetches, Playback.Fetch(e.seg, e.at));
    } else {
      assert FetchesOf(curriculum, events, l) == fetches;
    }
  }

  /** A fetch that completes the lesson does so in time. */
  lemma CompletedInTime(c: Playback.Settings, curriculum: Curriculum, events: seq<Event>, l: LessonId)
    requires Clocked(events) && l in curriculum && curriculum[l].Timed()
    requires var p := Row(Run(c, curriculum, events).rows, l);
             p.completedAt.Some? && p.completedAt == p.lastAt && curriculum[l].segmentsCount.Some? &&
                 !Short(curriculum[l], p)
    ensures InTime(c, curriculum[l], Row(Run(c, curriculum, events).rows, l), FirstFetch(c, curriculum, events, l))
  {
    hide Run, Playback.Run, Playback.Outpaced, Playback.FirstAccepted, Playback.Coherent;
    var p, last := Row(Run(c, curriculum, events).rows, l), curriculum[l].segmentsCount.value - 1;
    FetchedMeansFirst(c, curriculum, events, l);
    if last >= c.lookahead {
      WatermarkOutpacedDespiteToggles(c, curriculum, events, l);
      Playback.OutpacedBelow(c, curriculum[l], last - c.lookahead, p.watermark - c.lookahead,
                    p.lastAt.value - FirstFetch(c, curriculum, events, l).value);
    }
  }

  lemma FetchedMeansFirst(c: Playback.Settings, curriculum: Curriculum, events: seq<Event>, l: LessonId)
    requires Clocked(events) && l in curriculum && curriculum[l].Timed()
    ensures Row(Run(c, curriculum, events).rows, l).lastAt.Some? ==> FirstFetch(c, curriculum, events, l).Some?
  {
    hide Run, Playback.Run, Playback.FirstAccepted;
    TogglesDontMoveTheGate(c, curriculum, events, l);
    FetchesAreClocked(curriculum, events, l);
    Playback.RunKeepsCoherent(c, curriculum[l], FetchesOf(curriculum, events, l));
  }

  /** In every run that never marks the lesson complete, whatever is unmarked and fetched
      again, completion still takes reaching the last segment at no more than the maximum
      rate. */
  lemma {:induction false} UnmarkedCompletionIsOutpaced(c: Playback.Settings, curriculum: Curriculum,
      events: seq<Event>, l: LessonId)
    requires Clocked(events) && l in curriculum && curriculum[l].Timed() && NeverMarked(curriculum, events, l)
    ensures InTime(c, curriculum[l], Row(Run(c, curriculum, events).rows, l), FirstFetch(c, curriculum, events, l))
  {
    hide Apply, Playback.Outpaced, FirstFetch;
    if events != [] {
      var n := |events| - 1;
      var before, after := Row(Run(c, curriculum, events[..n]).rows, l), Row(Run(c, curriculum, events).rows, l);
      StepStamps(c, curriculum, Run(c, curriculum, events[..n]), events[n], l);
      UnmarkedCompletionIsOutpaced(c, curriculum, events[..n], l);
      FirstFetchStays(c, curriculum, events, l);
      assert Marks(curriculum, events[n], l) ==> events[n].completed == Some(false);
      if after.completedAt.Some? && after.completedAt != before.completedAt {
        CompletedInTime(c, curriculum, events, l);
      }
    }
  }

  /** The witness that marking is needed as a hypothesis: one request to the endpoint
      completes a lesson whose segments were never fetched. */
  lemma MarkingNeedsNoPlayback(c: Playback.Settings, curriculum: Curriculum, l: LessonId, at: Time)
    requires curriculum.Keys == {l}
    ensures var s := Run(c, curriculum, [Progressed(l, true, Some(true), at)]);
            s.completedAt == Some(at) && s.certificates == 1 && s.rows[l].watermark == -1
  {
    var e := Progressed(l, true, Some(true), at);
    assert [e][..0] == [];
    var rows := map[l := Playback.FRESH.(completedAt := Some(at))];
    assert |curriculum| == |curriculum.Keys|;
    assert Done(rows) == {l};
    assert Apply(c, curriculum, JUST_ENROLLED, e).rows == rows;
  }

  // ---------- The percentage ----------

  lemma PercentIs(done: nat, total: nat)
    ensures if total > 0 then Nearest(Percent(done, total), 100 * done, total) else Percent(done, total) == 0
  {
    if total > 0 {
      PercentIsNearest(done, total);
    }
  }

  /** The lessons on which the last word is "done". */
  ghost function DoneLessons(c: Playback.Settings, curriculum: Curriculum, events: seq<Event>): set<LessonId> {
    set l | l in curriculum && LastWord(c, curriculum, events, l)
  }

  /** After every run the percentage is the rounded share of lessons whose last word is "done",
      and the enrollment is complete iff there are lessons and that is the last word on all. */
  lemma PercentIff(c: Playback.Settings, curriculum: Curriculum, events: seq<Event>)
    ensures var s := Run(c, curriculum, events);
            var done := |DoneLessons(c, curriculum, events)|;
            && (if |curriculum| > 0 then Nearest(s.percent, 100 * done, |curriculum|) else s.percent == 0)
            && (s.completedAt.Some? <==> |curriculum| > 0 && done == |curriculum|)
  {
    hide Run, Percent, LastWord, Nearest;
    RunKeepsSettled(c, curriculum, events);
    var s := Run(c, curriculum, events);
    forall l | l in curriculum ensures l in Done(s.rows) <==> LastWord(c, curriculum, events, l) {
      CompletionIff(c, curriculum, events, l);
    }
    assert Done(s.rows) == DoneLessons(c, curriculum, events);
    PercentIs(|Done(s.rows)|, |curriculum|);
  }

  /** The moment since when every lesson's last word has been "done". */
  function CompleteSince(c: Playback.Settings, curriculum: Curriculum, events: seq<Event>): Option<Time> {
    if events == [] || |curriculum| == 0 || exists l :: l in curriculum && !LastWord(c, curriculum, events, l) then None
    else
      var n := |events| - 1;
      match CompleteSince(c, curriculum, events[..n])
      case Some(t) => Some(t)
      case None => Some(events[n].at)
  }

  lemma StepDates(c: Playback.Settings, curriculum: Curriculum, s: Study, e: Event)
    requires Settled(curriculum, s)
    ensures var after := Apply(c, curriculum, s, e).completedAt;
            after.Some? ==> after == if s.completedAt.Some? then s.completedAt else Some(e.at)
  {
    hide Percent, Done, Playback.Accepts, Playback.Skips, Playback.Completes;
  }

  /** The stored completion date of an enrollment is that moment. */
  lemma {:induction false} CompletionDateIs(c: Playback.Settings, curriculum: Curriculum, events: seq<Event>)
    ensures Run(c, curriculum, events).completedAt == CompleteSince(c, curriculum, events)
  {
    hide Apply, LastWord, Percent, Settled, Nearest;
    AllDoneIff(c, curriculum, events);
    if events != [] {
      var n := |events| - 1;
      CompletionDateIs(c, curriculum, events[..n]);
      RunKeepsSettled(c, curriculum, events[..n]);
      StepDates(c, curriculum, Run(c, curriculum, events[..n]), events[n]);
    }
  }

  lemma AllDoneIff(c: Playback.Settings, curriculum: Curriculum, events: seq<Event>)
    ensures Run(c, curriculum, events).completedAt.Some? <==>
              |curriculum| > 0 && forall l :: l in curriculum ==> LastWord(c, curriculum, events, l)
  {
    hide Run, LastWord, Nearest;
    PercentIff(c, curriculum, events);
    var done := DoneLessons(c, curriculum, events);
    assert |curriculum| == |curriculum.Keys|;
    if |done| == |curriculum| {
      SubsetOfSameSize(done, curriculum.Keys);
      assert forall l :: l in curriculum ==> l in done;
    }
    if forall l :: l in curriculum ==> LastWord(c, curriculum, events, l) {
      assert done == curriculum.Keys;
    }
  }
}

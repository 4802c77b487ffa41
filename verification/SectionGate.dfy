/** The section-quiz gate in front of a course's later sections, and the status view
    the learner's screen reads. A quiz's id is its position in the catalogue. */
module SectionGate {
  import opened Prelude
  import Grading

  type UserId = nat
  type CourseId = nat
  type SectionId = nat
  type QuizId = nat

  datatype Section = Section(course: CourseId, order: int)

  /** `paper` holds the questions, the pass mark and the number of attempts. */
  datatype Quiz = Quiz(course: CourseId, section: Option<SectionId>, gating: bool, archived: bool,
                       paper: Grading.Assessment)

  datatype Catalogue = Catalogue(sections: map<SectionId, Section>, quizzes: seq<Quiz>, published: set<CourseId>)
  {
    predicate Visible(q: QuizId) { q < |quizzes| && quizzes[q].course in published && !quizzes[q].archived }

    /** q is the section quiz of s. */
    predicate Gates(q: QuizId, s: SectionId) { Visible(q) && quizzes[q].gating && quizzes[q].section == Some(s) }

    /** The unique constraints: one section per place in a course, one section quiz per section. */
    ghost predicate Kept() {
      && (forall s, t :: s in sections && t in sections && s != t && sections[s].course == sections[t].course ==>
            sections[s].order != sections[t].order)
      && (forall q, r | 0 <= q < r < |quizzes| && quizzes[q].gating && quizzes[r].gating ::
            quizzes[q].section.Some? ==> quizzes[q].section != quizzes[r].section)
    }

    /** Question ids are primary keys. */
    ghost predicate Papers() { forall q :: 0 <= q < |quizzes| ==> Grading.Unambiguous(quizzes[q].paper.questions) }
  }

  datatype Attempt = Attempt(user: UserId, quiz: QuizId, passed: bool)

  datatype Book = Book(enrolled: set<(UserId, CourseId)>, attempts: seq<Attempt>)

  function Tries(attempts: seq<Attempt>, u: UserId, q: QuizId): nat {
    if attempts == [] then 0
    else
      var n := |attempts| - 1;
      Tries(attempts[..n], u, q) + if attempts[n].user == u && attempts[n].quiz == q then 1 else 0
  }

  predicate Passed(attempts: seq<Attempt>, u: UserId, q: QuizId) { Attempt(u, q, true) in attempts }

  // ---------- The status view ----------

  datatype Denial = SectionNotFound | NotEnrolled

  datatype Status = Status(quiz: Option<QuizId>, required: bool, passed: bool, attempts: nat)

  function SectionQuiz(c: Catalogue, s: SectionId): (r: Option<QuizId>)
    ensures r.Some? ==> c.Gates(r.value, s)
    ensures r.None? ==> forall q: QuizId :: !c.Gates(q, s)
  {
    QuizBelow(c, s, |c.quizzes|)
  }

  function QuizBelow(c: Catalogue, s: SectionId, n: nat): (r: Option<QuizId>)
    requires n <= |c.quizzes|
    ensures r.Some? ==> c.Gates(r.value, s)
    ensures r.None? ==> forall q: QuizId :: q < n ==> !c.Gates(q, s)
  {
    if n == 0 then None else if c.Gates(n - 1, s) then Some(n - 1) else QuizBelow(c, s, n - 1)
  }

  function StatusOf(c: Catalogue, b: Book, u: UserId, s: SectionId): Result<Status, Denial> {
    if s !in c.sections then Err(SectionNotFound)
    else if (u, c.sections[s].course) !in b.enrolled then Err(NotEnrolled)
    else
      match SectionQuiz(c, s)
      case None => Ok(Status(None, false, false, 0))
      case Some(q) => Ok(Status(Some(q), true, Passed(b.attempts, u, q), Tries(b.attempts, u, q)))
  }

  // ---------- The gate ----------

  datatype Verdict = Admitted | Blocked(quiz: QuizId, section: SectionId)

  /** A section quiz of an earlier section of the course. */
  predicate IsPrior(c: Catalogue, course: CourseId, order: int, q: QuizId) {
    && c.Visible(q) && c.quizzes[q].gating && c.quizzes[q].section.Some?
    && c.quizzes[q].section.value in c.sections
    && c.sections[c.quizzes[q].section.value].course == course
    && OrderOf(c, q) < order
  }

  /** The place of q's section in its course. */
  function OrderOf(c: Catalogue, q: QuizId): int {
    if q < |c.quizzes| && c.quizzes[q].section.Some? && c.quizzes[q].section.value in c.sections
    then c.sections[c.quizzes[q].section.value].order else 0
  }

  ghost predicate Ascending(c: Catalogue, course: CourseId, order: int, qs: seq<QuizId>) {
    && (forall i :: 0 <= i < |qs| ==> IsPrior(c, course, order, qs[i]))
    && (forall i, j :: 0 <= i < j < |qs| ==> OrderOf(c, qs[i]) <= OrderOf(c, qs[j]))
  }

  lemma HeadStaysLeast(c: Catalogue, course: CourseId, order: int, qs: seq<QuizId>, q: QuizId, r: seq<QuizId>)
    requires Ascending(c, course, order, qs) && qs != [] && OrderOf(c, qs[0]) <= OrderOf(c, q)
    requires Ascending(c, course, order, r) && forall x: QuizId :: x in r ==> x == q || x in qs[1..]
    ensures Ascending(c, course, order, [qs[0]] + r)
  {
    hide OrderOf, IsPrior;
    var all := [qs[0]] + r;
    forall i | 0 <= i < |r| ensures OrderOf(c, qs[0]) <= OrderOf(c, r[i]) {
      assert r[i] in r;
      if r[i] != q {
        var j :| 0 <= j < |qs[1..]| && qs[1..][j] == r[i];
        assert qs[j + 1] == r[i];
      }
    }
    assert forall i :: 0 < i < |all| ==> all[i] == r[i - 1];
  }

  function Insert(c: Catalogue, course: CourseId, order: int, qs: seq<QuizId>, q: QuizId): (r: seq<QuizId>)
    requires Ascending(c, course, order, qs) && IsPrior(c, course, order, q)
    ensures Ascending(c, course, order, r)
    ensures forall x :: x in r <==> x == q || x in qs
  {
    if qs == [] || OrderOf(c, q) < OrderOf(c, qs[0]) then [q] + qs
    else
      var r := Insert(c, course, order, qs[1..], q);
      HeadStaysLeast(c, course, order, qs, q, r);
      [qs[0]] + r
  }

  /** The query of the gate: prior section quizzes, ascending by section order. */
  function PriorQuizzes(c: Catalogue, course: CourseId, order: int, n: nat): (qs: seq<QuizId>)
    requires n <= |c.quizzes|
    ensures Ascending(c, course, order, qs)
    ensures forall q: QuizId :: q in qs <==> q < n && IsPrior(c, course, order, q)
  {
    if n == 0 then []
    else
      var qs := PriorQuizzes(c, course, order, n - 1);
      if IsPrior(c, course, order, n - 1) then Insert(c, course, order, qs, n - 1) else qs
  }

  function Prior(c: Catalogue, course: CourseId, target: SectionId): seq<QuizId>
    requires target in c.sections
  {
    PriorQuizzes(c, course, c.sections[target].order, |c.quizzes|)
  }

  /** A section that is missing or belongs elsewhere is left to the caller's own 404. */
  function Gate(c: Catalogue, attempts: seq<Attempt>, u: UserId, course: CourseId, target: SectionId): Verdict {
    if target !in c.sections || c.sections[target].course != course then Admitted
    else
      var prior := Prior(c, course, target);
      match First<QuizId>(prior, (q: QuizId) => !Passed(attempts, u, q))
      case None => Admitted
      case Some(i) => Blocked(prior[i], c.quizzes[prior[i]].section.value)
  }

  /** The verdict in terms of the query's set of rows. */
  lemma GateFacts(c: Catalogue, attempts: seq<Attempt>, u: UserId, course: CourseId,
                                     target: SectionId)
    requires target in c.sections && c.sections[target].course == course
    ensures Gate(c, attempts, u, course, target).Admitted? <==>
              forall q: QuizId :: IsPrior(c, course, c.sections[target].order, q) ==> Passed(attempts, u, q)
    ensures var v := Gate(c, attempts, u, course, target);
            v.Blocked? ==>
              && IsPrior(c, course, c.sections[target].order, v.quiz) && c.quizzes[v.quiz].section == Some(v.section)
              && !Passed(attempts, u, v.quiz)
              && forall q: QuizId | IsPrior(c, course, c.sections[target].order, q) ::
                   OrderOf(c, q) < OrderOf(c, v.quiz) ==> Passed(attempts, u, q)
  {
    hide PriorQuizzes, Passed, OrderOf;
    var order := c.sections[target].order;
    var prior := Prior(c, course, target);
    assert forall q: QuizId :: IsPrior(c, course, order, q) ==> q in prior;
    var f := First<QuizId>(prior, (q: QuizId) => !Passed(attempts, u, q));
    forall q: QuizId | IsPrior(c, course, order, q)
      ensures f.None? || OrderOf(c, q) < OrderOf(c, prior[f.value]) ==> Passed(attempts, u, q)
    {
      var j :| 0 <= j < |prior| && prior[j] == q;
    }
  }

  /** Quiz q is taken in front of the target: a section quiz, not archived, of a published course,
      attached to an earlier section of the target's course. */
  ghost predicate InFrontOf(c: Catalogue, target: SectionId, q: QuizId)
    requires target in c.sections
  {
    && q < |c.quizzes|
    && var z := c.quizzes[q];
       && z.gating && !z.archived && z.course in c.published
       && z.section.Some? && z.section.value in c.sections
       && c.sections[z.section.value].course == c.sections[target].course
       && c.sections[z.section.value].order < c.sections[target].order
  }

  /** Exactly when a learner is let into a section of the course: every quiz in front of it has
      a passed attempt of theirs. Otherwise the first such quiz, in section order, without one
      is reported with its section. */
  lemma AdmittedIff(c: Catalogue, attempts: seq<Attempt>, u: UserId, course: CourseId, target: SectionId)
    ensures var v := Gate(c, attempts, u, course, target);
            if target !in c.sections || c.sections[target].course != course then v == Admitted
            else
              && (v == Admitted <==>
                    forall q: QuizId :: InFrontOf(c, target, q) ==> Attempt(u, q, true) in attempts)
              && (v.Blocked? ==>
                    && InFrontOf(c, target, v.quiz) && c.quizzes[v.quiz].section == Some(v.section)
                    && Attempt(u, v.quiz, true) !in attempts
                    && forall q: QuizId :: InFrontOf(c, target, q) && Attempt(u, q, true) !in attempts ==>
                         c.sections[c.quizzes[q].section.value].order >= c.sections[v.section].order)
  {
    hide Gate;
    if target in c.sections && c.sections[target].course == course {
      GateFacts(c, attempts, u, course, target);
      assert forall q: QuizId :: IsPrior(c, course, c.sections[target].order, q) <==> InFrontOf(c, target, q);
    } else {
      NotMine(c, attempts, u, course, target);
    }
  }

  lemma NotMine(c: Catalogue, attempts: seq<Attempt>, u: UserId, course: CourseId, target: SectionId)
    ensures target !in c.sections || c.sections[target].course != course ==>
              Gate(c, attempts, u, course, target) == Admitted
  {
  }

  // ---------- Gate and view agree ----------

  /** s comes before the target in the course. */
  predicate Earlier(c: Catalogue, course: CourseId, target: SectionId, s: SectionId)
    requires target in c.sections
  {
    s in c.sections && c.sections[s].course == course && c.sections[s].order < c.sections[target].order
  }

  /** What the learner's screen shows for a section: nothing left to pass. */
  predicate ShownOpen(c: Catalogue, b: Book, u: UserId, s: SectionId) {
    var r := StatusOf(c, b, u, s);
    r.Ok? && (r.value.passed || !r.value.required)
  }

  /** An enrolled learner is admitted exactly when the view shows every earlier section
      of the course as passed or not required. */
  lemma GateAgreesWithView(c: Catalogue, b: Book, u: UserId, course: CourseId, target: SectionId)
    requires c.Kept() && (u, course) in b.enrolled && target in c.sections && c.sections[target].course == course
    ensures Gate(c, b.attempts, u, course, target).Admitted? <==>
              forall s: SectionId :: Earlier(c, course, target, s) ==>
                ShownOpen(c, b, u, s)
  {
    GateFacts(c, b.attempts, u, course, target);
    var v := Gate(c, b.attempts, u, course, target);
    hide Gate, Passed;
    if v.Admitted? {
      forall s: SectionId | Earlier(c, course, target, s) ensures ShownOpen(c, b, u, s) {
        if SectionQuiz(c, s).Some? {
          assert IsPrior(c, course, c.sections[target].order, SectionQuiz(c, s).value);
        }
      }
    } else {
      OneQuizPerSection(c, v.section);
      assert c.Gates(v.quiz, v.section) && SectionQuiz(c, v.section) == Some(v.quiz);
      assert Earlier(c, course, target, v.section) && !ShownOpen(c, b, u, v.section);
    }
  }

  lemma OneQuizPerSection(c: Catalogue, s: SectionId)
    requires c.Kept()
    ensures forall q: QuizId, r: QuizId :: c.Gates(q, s) && c.Gates(r, s) ==> q == r
  {
  }

  /** The reported blocker is that section's quiz, it is unpassed, and everything before
      it is open: it is the one to take next. */
  lemma BlockerIsEarliest(c: Catalogue, b: Book, u: UserId, course: CourseId, target: SectionId)
    requires c.Kept() && (u, course) in b.enrolled && Gate(c, b.attempts, u, course, target).Blocked?
    ensures var v := Gate(c, b.attempts, u, course, target);
            && v.section in c.sections && c.sections[v.section].order < c.sections[target].order
            && StatusOf(c, b, u, v.section) == Ok(Status(Some(v.quiz), true, false, Tries(b.attempts, u, v.quiz)))
            && Gate(c, b.attempts, u, course, v.section).Admitted?
  {
    var v := Gate(c, b.attempts, u, course, target);
    GateFacts(c, b.attempts, u, course, target);
    GateFacts(c, b.attempts, u, course, v.section);
    OneQuizPerSection(c, v.section);
    assert c.Gates(v.quiz, v.section);
    assert SectionQuiz(c, v.section) == Some(v.quiz);
    forall q: QuizId | IsPrior(c, course, c.sections[v.section].order, q) ensures Passed(b.attempts, u, q) {
      assert IsPrior(c, course, c.sections[target].order, q);
    }
  }

  /** The unlocked sections are downward closed in section order. */
  lemma UnlockedIsDownwardClosed(c: Catalogue, attempts: seq<Attempt>, u: UserId,
      course: CourseId, earlier: SectionId, target: SectionId)
    requires earlier in c.sections && c.sections[earlier].course == course
    requires target in c.sections && c.sections[target].course == course
    requires c.sections[earlier].order <= c.sections[target].order
    requires Gate(c, attempts, u, course, target).Admitted?
    ensures Gate(c, attempts, u, course, earlier).Admitted?
  {
    GateFacts(c, attempts, u, course, target);
    GateFacts(c, attempts, u, course, earlier);
    hide Gate, Passed;
  }

  /** With an unchanged catalogue, submissions only ever unlock. */
  lemma UnlockedOnlyGrows(c: Catalogue, attempts: seq<Attempt>, more: seq<Attempt>, u: UserId,
                                             course: CourseId, target: SectionId)
    requires Gate(c, attempts, u, course, target).Admitted?
    ensures Gate(c, attempts + more, u, course, target).Admitted?
  {
    if target in c.sections && c.sections[target].course == course {
      GateFacts(c, attempts, u, course, target);
      GateFacts(c, attempts + more, u, course, target);
    }
  }

  // ---------- Attempts over time ----------

  datatype Step =
    | Join(user: UserId, course: CourseId)
    | Take(user: UserId, quiz: QuizId, answers: seq<Grading.Answer>)

  predicate AttemptsLeft(c: Catalogue, attempts: seq<Attempt>, u: UserId, q: QuizId) {
    q < |c.quizzes| && Grading.MayTry(c.quizzes[q].paper, Tries(attempts, u, q))
  }

  /** Enrolling needs a published course; submitting needs a visible quiz, enrollment in
      its course, and answers the assessment accepts, whose grading decides whether they pass.
      Anything else is refused without a trace. */
  function Apply(c: Catalogue, b: Book, e: Step): Book {
    match e
    case Join(u, course) => if course in c.published then b.(enrolled := b.enrolled + {(u, course)}) else b
    case Take(u, q, answers) =>
      if c.Visible(q) && (u, c.quizzes[q].course) in b.enrolled then
        match Grading.Submit(c.quizzes[q].paper, Tries(b.attempts, u, q), answers)
        case Err(_) => b
        case Ok(submission) => b.(attempts := b.attempts + [Attempt(u, q, submission.passed)])
      else b
  }

  /** A submission is recorded exactly for an enrolled learner, a quiz that is not archived in a
      published course, and answers that are accepted after as many tries as are on record;
      whether it passed is what the grading says. */
  lemma TakeIff(c: Catalogue, b: Book, u: UserId, q: QuizId, answers: seq<Grading.Answer>)
    ensures var after := Apply(c, b, Take(u, q, answers));
            var open := q < |c.quizzes| && !c.quizzes[q].archived && c.quizzes[q].course in c.published
                        && (u, c.quizzes[q].course) in b.enrolled;
            var prior := |TriesAt(b.attempts, u, q)|;
            if open && Grading.Submit(c.quizzes[q].paper, prior, answers).Ok?
            then after == Book(b.enrolled,
                               b.attempts
                               + [Attempt(u, q, Grading.Submit(c.quizzes[q].paper, prior, answers).value.passed)])
            else after == b
  {
    hide Grading.Submit, Tries, TriesAt;
    TriesCount(b.attempts, u, q);
  }

  /** The attempts on record by this learner at this quiz. */
  ghost function TriesAt(attempts: seq<Attempt>, u: UserId, q: QuizId): set<int> {
    set i | 0 <= i < |attempts| && attempts[i].user == u && attempts[i].quiz == q
  }

  lemma {:induction false} TriesCount(attempts: seq<Attempt>, u: UserId, q: QuizId)
    ensures Tries(attempts, u, q) == |TriesAt(attempts, u, q)|
  {
    if attempts == [] {
      assert TriesAt(attempts, u, q) == {};
    } else {
      var n := |attempts| - 1;
      TriesCount(attempts[..n], u, q);
      OneMoreTry(attempts, u, q);
    }
  }

  lemma OneMoreTry(attempts: seq<Attempt>, u: UserId, q: QuizId)
    requires attempts != []
    ensures var n := |attempts| - 1;
            && TriesAt(attempts, u, q) ==
                 TriesAt(attempts[..n], u, q) + (if attempts[n].user == u && attempts[n].quiz == q then {n} else {})
            && n !in TriesAt(attempts[..n], u, q)
  {
  }

  /** What an enrolled learner's screen shows for a section: its quiz if it has one that is not
      archived in a published course, whether they ever passed it, and how often they tried. */
  lemma StatusIff(c: Catalogue, b: Book, u: UserId, s: SectionId)
    ensures var r := StatusOf(c, b, u, s);
            if s !in c.sections then r == Err(SectionNotFound)
            else if (u, c.sections[s].course) !in b.enrolled then r == Err(NotEnrolled)
            else
              && r.Ok?
              && match r.value.quiz
                 case None => r.value == Status(None, false, false, 0) && forall q: QuizId :: !Offers(c, s, q)
                 case Some(q) =>
                   && Offers(c, s, q)
                   && r.value == Status(Some(q), true, Attempt(u, q, true) in b.attempts,
                                        |TriesAt(b.attempts, u, q)|)
  {
    hide Tries, TriesAt;
    if s in c.sections && (u, c.sections[s].course) in b.enrolled {
      assert forall q: QuizId :: c.Gates(q, s) <==> Offers(c, s, q);
      if SectionQuiz(c, s).Some? {
        TriesCount(b.attempts, u, SectionQuiz(c, s).value);
      }
    }
  }

  ghost predicate Offers(c: Catalogue, s: SectionId, q: QuizId) {
    && q < |c.quizzes|
    && var z := c.quizzes[q]; z.gating && !z.archived && z.course in c.published && z.section == Some(s)
  }

  function Run(c: Catalogue, b: Book, steps: seq<Step>): Book
    decreases |steps|
  {
    if steps == [] then b else Run(c, Apply(c, b, steps[0]), steps[1..])
  }

  /** Nobody ever takes a quiz more often than it allows. */
  lemma {:induction false} TriesWithinLimit(c: Catalogue, b: Book, steps: seq<Step>, u: UserId, q: QuizId)
    requires q < |c.quizzes| && c.quizzes[q].paper.maxAttempts.Some?
    requires Tries(b.attempts, u, q) <= c.quizzes[q].paper.maxAttempts.value
    ensures Tries(Run(c, b, steps).attempts, u, q) <= c.quizzes[q].paper.maxAttempts.value
    decreases |steps|
  {
    hide Apply, Tries;
    if steps != [] {
      TriesGrow(c, b, steps[0], u, q);
      TriesWithinLimit(c, Apply(c, b, steps[0]), steps[1..], u, q);
    }
  }

  lemma SubmitNeedsAttempts(a: Grading.Assessment, prior: nat, answers: seq<Grading.Answer>)
    ensures Grading.Submit(a, prior, answers).Ok? ==> Grading.MayTry(a, prior)
  {
    hide Grading.Fault, Grading.Awarded;
  }

  /** The one row a step may add. */
  lemma StepAdds(c: Catalogue, b: Book, e: Step)
    ensures var after := Apply(c, b, e).attempts;
            after != b.attempts ==>
              && e.Take? && e.quiz < |c.quizzes| && AttemptsLeft(c, b.attempts, e.user, e.quiz)
              && after == b.attempts + [Attempt(e.user, e.quiz, after[|b.attempts|].passed)]
              && (after[|b.attempts|].passed ==>
                    Grading.Passes(c.quizzes[e.quiz].paper, Tries(b.attempts, e.user, e.quiz), e.answers))
  {
    hide Grading.Submit, Grading.MayTry, Tries;
    if e.Take? && e.quiz < |c.quizzes| {
      SubmitNeedsAttempts(c.quizzes[e.quiz].paper, Tries(b.attempts, e.user, e.quiz), e.answers);
    }
  }

  lemma TriesGrow(c: Catalogue, b: Book, e: Step, u: UserId, q: QuizId)
    ensures Tries(Apply(c, b, e).attempts, u, q) == Tries(b.attempts, u, q)
            || (Tries(Apply(c, b, e).attempts, u, q) == Tries(b.attempts, u, q) + 1 &&
                AttemptsLeft(c, b.attempts, u, q))
  {
    hide Apply, AttemptsLeft;
    StepAdds(c, b, e);
    var after := Apply(c, b, e).attempts;
    assert after != b.attempts ==> after[..|after| - 1] == b.attempts;
  }

  /** A quiz this learner may still pass: attempts are left, and its paper can be passed. */
  predicate CanPass(c: Catalogue, attempts: seq<Attempt>, u: UserId, q: QuizId) {
    AttemptsLeft(c, attempts, u, q) && Grading.Passable(c.quizzes[q].paper)
  }

  lemma StepKeepsHopeless(c: Catalogue, b: Book, e: Step, u: UserId, q: QuizId)
    requires c.Papers() && q < |c.quizzes| && !Passed(b.attempts, u, q) && !CanPass(c, b.attempts, u, q)
    ensures !Passed(Apply(c, b, e).attempts, u, q) && !CanPass(c, Apply(c, b, e).attempts, u, q)
  {
    hide Apply, Grading.Passable, Grading.Passes;
    StepAdds(c, b, e);
    TriesGrow(c, b, e, u, q);
    var after := Apply(c, b, e).attempts;
    if Passed(after, u, q) {
      Grading.PassesOnlyIfPassable(c.quizzes[q].paper, Tries(b.attempts, u, q), e.answers);
    }
  }

  /** Failing the last allowed attempt is final, and so is a paper that cannot be passed:
      the quiz stays unpassed in every run. */
  lemma {:induction false} HopelessIsFinal(c: Catalogue, b: Book, steps: seq<Step>, u: UserId, q: QuizId)
    requires c.Papers() && q < |c.quizzes| && !Passed(b.attempts, u, q) && !CanPass(c, b.attempts, u, q)
    ensures !Passed(Run(c, b, steps).attempts, u, q)
    decreases |steps|
  {
    hide Apply, Passed, CanPass;
    if steps != [] {
      StepKeepsHopeless(c, b, steps[0], u, q);
      HopelessIsFinal(c, Apply(c, b, steps[0]), steps[1..], u, q);
    }
  }

  lemma {:induction false} RunSplits(c: Catalogue, b: Book, a: seq<Step>, z: seq<Step>)
    ensures Run(c, b, a + z) == Run(c, Run(c, b, a), z)
    decreases |a|
  {
    hide Apply;
    if a == [] {
      assert a + z == z;
    } else {
      assert (a + z)[1..] == a[1..] + z;
      RunSplits(c, Apply(c, b, a[0]), a[1..], z);
    }
  }

  /** Enrolling and passing one quiz at the first try. */
  lemma ClearPasses(c: Catalogue, b: Book, u: UserId, q: QuizId) returns (steps: seq<Step>)
    requires c.Papers() && c.Visible(q) && CanPass(c, b.attempts, u, q)
    ensures Run(c, b, steps).attempts == b.attempts + [Attempt(u, q, true)]
  {
    hide Grading.Submit, Grading.Passable, Tries;
    var paper := c.quizzes[q].paper;
    var answers := Grading.PassingAnswers(paper, Tries(b.attempts, u, q));
    var join, take := Join(u, c.quizzes[q].course), Take(u, q, answers);
    steps := [join, take];
    var b1 := Apply(c, b, join);
    assert steps[1..] == [take] && [take][1..] == [];
    assert Run(c, b1, [take]) == Run(c, Apply(c, b1, take), []);
  }

  lemma OtherTriesUntouched(attempts: seq<Attempt>, u: UserId, q: QuizId, r: QuizId)
    requires q != r
    ensures Tries(attempts + [Attempt(u, r, true)], u, q) == Tries(attempts, u, q)
    ensures Passed(attempts, u, q) ==> Passed(attempts + [Attempt(u, r, true)], u, q)
  {
    assert (attempts + [Attempt(u, r, true)])[..|attempts|] == attempts;
  }

  /** Every quiz of the list is visible and passed already or still to be had. */
  ghost predicate Clearable(c: Catalogue, attempts: seq<Attempt>, u: UserId, qs: seq<QuizId>) {
    forall q: QuizId :: q in qs ==> c.Visible(q) && (Passed(attempts, u, q) || CanPass(c, attempts, u, q))
  }

  lemma ClearableRest(c: Catalogue, attempts: seq<Attempt>, u: UserId, qs: seq<QuizId>)
    requires qs != [] && Clearable(c, attempts, u, qs)
    ensures Clearable(c, attempts, u, qs[1..])
    ensures Clearable(c, attempts + [Attempt(u, qs[0], true)], u, qs[1..])
  {
    hide Grading.Passable, Tries;
    forall q: QuizId | q in qs[1..]
      ensures Passed(attempts + [Attempt(u, qs[0], true)], u, q) ||
              CanPass(c, attempts + [Attempt(u, qs[0], true)], u, q)
    {
      assert Attempt(u, qs[0], true) in attempts + [Attempt(u, qs[0], true)];
      if q != qs[0] {
        OtherTriesUntouched(attempts, u, q, qs[0]);
      }
    }
  }

  lemma {:induction false} ClearAll(c: Catalogue, b: Book, u: UserId, qs: seq<QuizId>) returns (steps: seq<Step>)
    requires c.Papers() && Clearable(c, b.attempts, u, qs)
    ensures forall q: QuizId :: q in qs || Passed(b.attempts, u, q) ==> Passed(Run(c, b, steps).attempts, u, q)
    decreases |qs|
  {
    hide Apply, CanPass;
    steps := [];
    if qs != [] {
      ClearableRest(c, b.attempts, u, qs);
      if Passed(b.attempts, u, qs[0]) {
        steps := ClearAll(c, b, u, qs[1..]);
      } else {
        assert qs[0] in qs;
        var first := ClearPasses(c, b, u, qs[0]);
        var b' := Run(c, b, first);
        var rest := ClearAll(c, b', u, qs[1..]);
        RunSplits(c, b, first, rest);
        steps := first + rest;
      }
    }
  }

  /** Some run of submissions leads past the gate. */
  ghost predicate Reachable(c: Catalogue, b: Book, u: UserId, course: CourseId, target: SectionId) {
    exists steps :: Gate(c, Run(c, b, steps).attempts, u, course, target).Admitted?
  }

  /** A section can still be unlocked exactly when every earlier quiz is passed, or has
      attempts left and a paper that can be passed; any other one locks the rest of the
      course for good. */
  lemma UnlockableIff(c: Catalogue, b: Book, u: UserId, course: CourseId, target: SectionId)
    requires c.Papers() && target in c.sections && c.sections[target].course == course
    ensures Reachable(c, b, u, course, target) <==>
              forall q: QuizId :: IsPrior(c, course, c.sections[target].order, q) ==>
                Passed(b.attempts, u, q) || CanPass(c, b.attempts, u, q)
  {
    hide Gate, Run, Passed, CanPass;
    var order := c.sections[target].order;
    if forall q: QuizId :: IsPrior(c, course, order, q) ==>
        Passed(b.attempts, u, q) || CanPass(c, b.attempts, u, q) {
      var steps := ClearAll(c, b, u, Prior(c, course, target));
      GateFacts(c, Run(c, b, steps).attempts, u, course, target);
      assert Gate(c, Run(c, b, steps).attempts, u, course, target).Admitted?;
    } else {
      var q: QuizId :| IsPrior(c, course, order, q) && !Passed(b.attempts, u, q) && !CanPass(c, b.attempts, u, q);
      forall steps ensures !Gate(c, Run(c, b, steps).attempts, u, course, target).Admitted? {
        HopelessIsFinal(c, b, steps, u, q);
        GateFacts(c, Run(c, b, steps).attempts, u, course, target);
      }
    }
  }

  /** A section quiz as it is created: no questions yet, and the default pass mark. */
  const BLANK_PAPER := Grading.Assessment([], 70, None)

  const TWO_SECTIONS := Catalogue(map[0 := Section(0, 0), 1 := Section(0, 1)],
                                  [Quiz(0, Some(0), true, false, BLANK_PAPER)], {0})

  /** It happens: in a published course such a quiz, which nobody can ever pass, locks the
      second section for good, with attempts left throughout. */
  lemma BlankQuizLocksTheCourse(u: UserId, enrolled: set<(UserId, CourseId)>)
    ensures AttemptsLeft(TWO_SECTIONS, [], u, 0) && !Reachable(TWO_SECTIONS, Book(enrolled, []), u, 0, 1)
  {
    hide Reachable;
    BlankPaperIsImpassable();
    UnlockableIff(TWO_SECTIONS, Book(enrolled, []), u, 0, 1);
    assert IsPrior(TWO_SECTIONS, 0, 1, 0);
  }

  lemma BlankPaperIsImpassable()
    ensures !Grading.Passable(BLANK_PAPER)
  {
  }
}

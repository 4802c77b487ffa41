/** Grading of practice attempts and course assessments: per-answer verdicts, the
    matching bijection, the answer loop shared by both services, and the score. */
module Grading {
  import opened Prelude
  import HlsText

  type Id = nat

  // ---------- Matching items ----------

  datatype Pair = Pair(left: string, right: string)

  /** {(p, p)} over the item's pair ids. */
  function Diagonal(ids: set<string>): set<Pair> { set p | p in ids :: Pair(p, p) }

  predicate Matches(ids: set<string>, submitted: seq<Pair>) {
    multiset(submitted) == multiset(Diagonal(ids))
  }

  lemma {:induction false} DiagonalSize(ids: set<string>)
    ensures |Diagonal(ids)| == |ids|
    decreases ids
  {
    if ids != {} {
      var p :| p in ids;
      DiagonalSize(ids - {p});
      assert Diagonal(ids) == Diagonal(ids - {p}) + {Pair(p, p)};
    }
  }

  /** Distinct rows have each multiplicity at most one. */
  ghost predicate Distinct<T>(s: seq<T>) { forall i, j :: 0 <= i < j < |s| ==> s[i] != s[j] }

  function Elements<T>(s: seq<T>): set<T> { set x | x in s }

  lemma {:induction false} DistinctIsSet<T>(s: seq<T>)
    requires Distinct(s)
    ensures multiset(s) == multiset(Elements(s)) && |Elements(s)| == |s|
  {
    if s != [] {
      var n := |s| - 1;
      DistinctIsSet(s[..n]);
      assert s == s[..n] + [s[n]];
      assert Elements(s) == Elements(s[..n]) + {s[n]};
      assert s[n] !in s[..n];
    }
  }

  lemma CountedTwice<T>(b: seq<T>, i: nat, j: nat)
    requires i < j < |b| && b[i] == b[j]
    ensures multiset(b)[b[i]] >= 2
  {
    assert b == b[..j] + b[j..];
    assert b[i] in b[..j] && b[j] in b[j..];
  }

  /** Only distinct pairs (p, p) of the item so far. */
  ghost predicate OnDiagonal(ids: set<string>, pairs: seq<Pair>) {
    && (forall i :: 0 <= i < |pairs| ==> pairs[i].left == pairs[i].right && pairs[i].left in ids)
    && (forall i, j :: 0 <= i < j < |pairs| ==> pairs[i].left != pairs[j].left)
  }

  function Lefts(pairs: seq<Pair>): set<string> { set x | x in pairs :: x.left }

  /** The submitted pairs are a permutation of the diagonal: nothing missing, nothing
      extra, nothing crossed. */
  method GradeMatching(ids: set<string>, submitted: seq<Pair>) returns (correct: bool)
    ensures correct <==> Matches(ids, submitted)
  {
    hide Matches, OnDiagonal;
    if |submitted| != |ids| {
      WrongCount(ids, submitted);
      return false;
    }
    NothingYet(ids);
    var seenLeft: set<string>, seenRight: set<string> := {}, {};
    for i := 0 to |submitted|
      invariant OnDiagonal(ids, submitted[..i])
      invariant seenLeft == Lefts(submitted[..i]) && seenRight == seenLeft
    {
      var pair := submitted[i];
      OnePairMore(ids, submitted, i);
      if pair.left != pair.right {
        return false;
      }
      if pair.left !in ids || pair.left in seenLeft || pair.right in seenRight {
        return false;
      }
      seenLeft := seenLeft + {pair.left};
      seenRight := seenRight + {pair.right};
    }
    assert submitted[..|submitted|] == submitted;
    FullDiagonal(ids, submitted);
    return true;
  }

  lemma WrongCount(ids: set<string>, submitted: seq<Pair>)
    requires |submitted| != |ids|
    ensures !Matches(ids, submitted)
  {
    DiagonalSize(ids);
    assert |multiset(submitted)| == |submitted|;
    assert |multiset(Diagonal(ids))| == |Diagonal(ids)|;
  }

  lemma NothingYet(ids: set<string>)
    ensures OnDiagonal(ids, [])
  {
  }

  lemma OnePairMore(ids: set<string>, submitted: seq<Pair>, i: nat)
    requires i < |submitted| && OnDiagonal(ids, submitted[..i])
    ensures Lefts(submitted[..i + 1]) == Lefts(submitted[..i]) + {submitted[i].left}
    ensures var p := submitted[i];
            if p.left == p.right && p.left in ids && p.left !in Lefts(submitted[..i])
            then OnDiagonal(ids, submitted[..i + 1]) else !Matches(ids, submitted)
  {
    var p := submitted[i];
    assert submitted[..i + 1] == submitted[..i] + [p];
    if p.left != p.right || p.left !in ids {
      assert p in multiset(submitted) && p !in Diagonal(ids);
    } else if p.left in Lefts(submitted[..i]) {
      var j :| 0 <= j < i && submitted[..i][j].left == p.left;
      assert submitted[j] == p;
      CountedTwice(submitted, j, i);
    }
  }

  lemma FullDiagonal(ids: set<string>, submitted: seq<Pair>)
    requires |submitted| == |ids| && OnDiagonal(ids, submitted)
    ensures Matches(ids, submitted)
  {
    DiagonalSize(ids);
    assert forall i, j :: 0 <= i < j < |submitted| ==> submitted[i].left != submitted[j].left ==>
        submitted[i] != submitted[j];
    DistinctIsSet(submitted);
    SubsetOfSameSize(Elements(submitted), Diagonal(ids));
  }

  // ---------- Single answers ----------

  datatype Choice = Choice(id: string, correct: bool)

  datatype ItemKind = Mcq(options: seq<Choice>) | Matching(pairs: set<string>)

  datatype Item = Item(id: Id, points: nat, kind: ItemKind)

  datatype PracticeAnswer =
    | Picks(item: Id, option: string)
    | Joins(item: Id, pairs: seq<Pair>)

  /** The id of the first option flagged correct. */
  function CorrectOption(options: seq<Choice>): Option<string> {
    match First(options, (o: Choice) => o.correct)
    case None => None
    case Some(i) => Some(options[i].id)
  }

  /** An answer of the wrong shape carries no option, or no pairs. */
  function GradePractice(item: Item, a: PracticeAnswer): bool {
    match item.kind
    case Mcq(options) => (if a.Picks? then Some(a.option) else None) == CorrectOption(options)
    case Matching(pairs) => Matches(pairs, if a.Joins? then a.pairs else [])
  }

  /** Author-time rule: option ids are distinct and exactly one is correct. */
  ghost predicate WellFormed(options: seq<Choice>) {
    && (forall i, j :: 0 <= i < j < |options| ==> options[i].id != options[j].id)
    && (exists k :: OnlyCorrect(options, k))
  }

  ghost predicate OnlyCorrect(options: seq<Choice>, k: int) {
    0 <= k < |options| && forall i :: 0 <= i < |options| ==> (options[i].correct <==> i == k)
  }

  /** On a well-formed item exactly the correct option earns the points: not another
      option, not an id that is no option, not an answer of the other shape. */
  lemma McqIsExact(item: Item, a: PracticeAnswer)
    requires item.kind.Mcq? && WellFormed(item.kind.options)
    ensures GradePractice(item, a) <==> a.Picks? && Choice(a.option, true) in item.kind.options
  {
    var options := item.kind.options;
    var k :| OnlyCorrect(options, k);
    assert options[k].correct;
    assert CorrectOption(options) == Some(options[k].id);
    assert options[k] == Choice(options[k].id, true);
  }

  /** With no correct option flagged, an answer that carries no option is marked
      correct; the author-time rule is what rules this out. */
  lemma UnflaggedMcqAcceptsNothing(item: Item, a: PracticeAnswer)
    requires item.kind.Mcq? && forall o :: o in item.kind.options ==> !o.correct
    ensures GradePractice(item, a) <==> a.Joins?
  {
    assert First(item.kind.options, (o: Choice) => o.correct).None?;
  }

  datatype QuestionKind =
    | OptionSet(options: seq<Choice>)
    | ShortAnswer(expected: seq<string>)

  datatype Question = Question(id: Id, points: nat, kind: QuestionKind)

  datatype Answer = Answer(question: Id, selected: seq<string>, text: string)

  function LowerChar(c: char): char { if 'A' <= c <= 'Z' then c + 32 as char else c }

  function Lower(s: string): string { seq(|s|, i requires 0 <= i < |s| => LowerChar(s[i])) }

  function CorrectIds(options: seq<Choice>): set<string> { set o | o in options && o.correct :: o.id }

  function GradeAnswer(q: Question, a: Answer): bool {
    match q.kind
    case OptionSet(options) => Elements(a.selected) == CorrectIds(options) && CorrectIds(options) != {}
    case ShortAnswer(expected) =>
      var text := Lower(HlsText.Strip(a.text));
      text != "" && exists e :: e in expected && Lower(e) == text
  }

  // ---------- The answer loop ----------

  /** What both services know of a question or item, and of a graded answer. */
  datatype Part = Part(id: Id, points: nat)

  datatype Tick = Tick(id: Id, correct: bool)

  datatype Mark = Mark(id: Id, correct: bool, awarded: nat)

  datatype GradeError = UnknownQuestion | DuplicateAnswer | EmptyQuiz | MaxAttemptsReached

  ghost predicate DistinctIds(parts: seq<Part>) {
    forall i, j :: 0 <= i < j < |parts| ==> parts[i].id != parts[j].id
  }

  function PartOf(parts: seq<Part>, id: Id): Option<Part> {
    match First(parts, (p: Part) => p.id == id)
    case None => None
    case Some(i) => Some(parts[i])
  }

  function Total(parts: seq<Part>): nat {
    if parts == [] then 0 else parts[0].points + Total(parts[1..])
  }

  function Award(parts: seq<Part>, t: Tick): nat {
    if t.correct && PartOf(parts, t.id).Some? then PartOf(parts, t.id).value.points else 0
  }

  function Awarded(parts: seq<Part>, ticks: seq<Tick>): nat {
    if ticks == [] then 0 else Awarded(parts, ticks[..|ticks| - 1]) + Award(parts, ticks[|ticks| - 1])
  }

  /** The first answer, in order, that names no part or repeats an earlier one. */
  function Fault(parts: seq<Part>, ticks: seq<Tick>): Option<GradeError> {
    if ticks == [] then None
    else
      var n := |ticks| - 1;
      match Fault(parts, ticks[..n])
      case Some(e) => Some(e)
      case None =>
        if PartOf(parts, ticks[n].id).None? then Some(UnknownQuestion)
        else if exists i :: 0 <= i < n && ticks[i].id == ticks[n].id then Some(DuplicateAnswer)
        else None
  }

  /** No fault exactly when every answer names a part and no part is answered twice. */
  lemma {:induction false} FaultlessIff(parts: seq<Part>, ticks: seq<Tick>)
    ensures Fault(parts, ticks).None? <==>
              (forall i :: 0 <= i < |ticks| ==> PartOf(parts, ticks[i].id).Some?)
              && (forall i, j :: 0 <= i < j < |ticks| ==> ticks[i].id != ticks[j].id)
  {
    if ticks != [] {
      var n := |ticks| - 1;
      FaultlessIff(parts, ticks[..n]);
      assert forall i :: 0 <= i < n ==> ticks[..n][i] == ticks[i];
    }
  }

  function Marks(parts: seq<Part>, ticks: seq<Tick>): seq<Mark> {
    seq(|ticks|, i requires 0 <= i < |ticks| => Mark(ticks[i].id, ticks[i].correct, Award(parts, ticks[i])))
  }

  // ---------- Assessments ----------

  datatype Assessment = Assessment(questions: seq<Question>, passPercent: nat, maxAttempts: Option<nat>)

  datatype Submission = Submission(attempt: nat, scorePercent: int, passed: bool, marks: seq<Mark>)

  function QuestionOf(questions: seq<Question>, id: Id): Option<Question> {
    match First(questions, (q: Question) => q.id == id)
    case None => None
    case Some(i) => Some(questions[i])
  }

  function QuestionParts(questions: seq<Question>): seq<Part> {
    seq(|questions|, i requires 0 <= i < |questions| => Part(questions[i].id, questions[i].points))
  }

  function TickAnswer(questions: seq<Question>, a: Answer): Tick {
    Tick(a.question, QuestionOf(questions, a.question).Some? && GradeAnswer(QuestionOf(questions, a.question).value, a))
  }

  function TickAnswers(questions: seq<Question>, answers: seq<Answer>): seq<Tick> {
    seq(|answers|, i requires 0 <= i < |answers| => TickAnswer(questions, answers[i]))
  }

  /** The exact ratio, as a percentage; zero when there is nothing to earn. */
  function RawPercent(awarded: nat, total: nat): real {
    if total > 0 then awarded as real / total as real * 100.0 else 0.0
  }

  function Submit(a: Assessment, prior: nat, answers: seq<Answer>): Result<Submission, GradeError> {
    var parts, ticks := QuestionParts(a.questions), TickAnswers(a.questions, answers);
    if a.maxAttempts.Some? && prior >= a.maxAttempts.value then Err(MaxAttemptsReached)
    else if Fault(parts, ticks).Some? then Err(Fault(parts, ticks).value)
    else
      var raw := RawPercent(Awarded(parts, ticks), Total(parts));
      Ok(Submission(prior + 1, RoundHalfEven(raw), raw >= a.passPercent as real, Marks(parts, ticks)))
  }

  /** Two tables whose rows answer the query alike have their first match in the same place. */
  lemma {:induction false} FirstAgrees<S, T>(a: seq<S>, b: seq<T>, p: S -> bool, q: T -> bool)
    requires |a| == |b| && forall i :: 0 <= i < |a| ==> (p(a[i]) <==> q(b[i]))
    ensures First(a, p) == First(b, q)
  {
    if a != [] {
      FirstAgrees(a[1..], b[1..], p, q);
    }
  }

  lemma SamePart(questions: seq<Question>, id: Id)
    ensures PartOf(QuestionParts(questions), id)
         == match QuestionOf(questions, id) case None => None case Some(q) => Some(Part(q.id, q.points))
  {
    FirstAgrees(QuestionParts(questions), questions, (p: Part) => p.id == id, (q: Question) => q.id == id);
  }

  method SubmitAssessment(a: Assessment, prior: nat, answers: seq<Answer>) returns (r: Result<Submission, GradeError>)
    ensures r == Submit(a, prior, answers)
  {
    hide Fault, Award, PartOf, QuestionOf, GradeAnswer;
    if a.maxAttempts.Some? && prior >= a.maxAttempts.value {
      return Err(MaxAttemptsReached);
    }
    ghost var parts, ticks := QuestionParts(a.questions), TickAnswers(a.questions, answers);
    var total := SumPoints(a.questions);
    var awardedTotal := 0;
    var marks: seq<Mark> := [];
    var seen: set<Id> := {};
    NoFaultYet(parts, ticks);
    for i := 0 to |answers|
      invariant Fault(parts, ticks[..i]).None?
      invariant awardedTotal == Awarded(parts, ticks[..i])
      invariant marks == Marks(parts, ticks[..i])
      invariant seen == set j | 0 <= j < i :: answers[j].question
    {
      var ans := answers[i];
      var question := QuestionOf(a.questions, ans.question);
      NextTick(parts, ticks, i);
      SamePart(a.questions, ans.question);
      if question.None? {
        return Err(UnknownQuestion);
      }
      if ans.question in seen {
        ghost var j :| 0 <= j < i && answers[j].question == ans.question;
        assert ticks[j].id == ticks[i].id;
        return Err(DuplicateAnswer);
      }
      seen := seen + {ans.question};
      QuestionOfId(a.questions, ans.question);
      var correct := GradeAnswer(question.value, ans);
      var awarded := if correct then question.value.points else 0;
      assert ticks[i] == Tick(ans.question, correct);
      AwardIs(parts, ticks[i]);
      awardedTotal := awardedTotal + awarded;
      marks := marks + [Mark(ans.question, correct, awarded)];
      assert ticks[..i + 1][..i] == ticks[..i];
    }
    assert ticks[..|answers|] == ticks;
    var rawPercent := if total > 0 then awardedTotal as real / total as real * 100.0 else 0.0;
    return Ok(Submission(prior + 1, RoundHalfEven(rawPercent), rawPercent >= a.passPercent as real, marks));
  }

  lemma NoFaultYet(parts: seq<Part>, ticks: seq<Tick>)
    ensures Fault(parts, ticks[..0]).None?
  {
  }

  lemma QuestionOfId(questions: seq<Question>, id: Id)
    ensures QuestionOf(questions, id).Some? ==> QuestionOf(questions, id).value.id == id
  {
  }

  lemma AwardIs(parts: seq<Part>, t: Tick)
    ensures Award(parts, t) == if t.correct && PartOf(parts, t.id).Some? then PartOf(parts, t.id).value.points else 0
  {
  }

  /** What one more answer does to the verdict on the answers before it. */
  lemma NextTick(parts: seq<Part>, ticks: seq<Tick>, i: nat)
    requires i < |ticks| && Fault(parts, ticks[..i]).None?
    ensures var known := PartOf(parts, ticks[i].id).Some?;
            var seen := exists j :: 0 <= j < i && ticks[j].id == ticks[i].id;
            && Fault(parts, ticks[..i + 1])
               == (if !known then Some(UnknownQuestion) else if seen then Some(DuplicateAnswer) else None)
            && (Fault(parts, ticks[..i + 1]).Some? ==> Fault(parts, ticks) == Fault(parts, ticks[..i + 1]))
  {
    assert ticks[..i + 1][..i] == ticks[..i];
    if Fault(parts, ticks[..i + 1]).Some? {
      FirstFaultStays(parts, ticks, i + 1);
    }
  }

  lemma {:induction false} FirstFaultStays(parts: seq<Part>, ticks: seq<Tick>, i: nat)
    requires i <= |ticks| && Fault(parts, ticks[..i]).Some?
    ensures Fault(parts, ticks) == Fault(parts, ticks[..i])
    decreases |ticks|
  {
    if i < |ticks| {
      assert ticks[..|ticks| - 1][..i] == ticks[..i];
      FirstFaultStays(parts, ticks[..|ticks| - 1], i);
    } else {
      assert ticks[..i] == ticks;
    }
  }

  method SumPoints(questions: seq<Question>) returns (total: nat)
    ensures total == Total(QuestionParts(questions))
  {
    total := 0;
    var parts := QuestionParts(questions);
    for i := 0 to |questions|
      invariant total + Total(parts[i..]) == Total(parts)
    {
      total := total + questions[i].points;
    }
  }

  // ---------- Practice ----------

  datatype Attempt = Attempt(scorePercent: int, correctCount: nat, totalCount: nat, marks: seq<Mark>)

  function ItemOf(items: seq<Item>, id: Id): Option<Item> {
    match First(items, (q: Item) => q.id == id)
    case None => None
    case Some(i) => Some(items[i])
  }

  function ItemParts(items: seq<Item>): seq<Part> {
    seq(|items|, i requires 0 <= i < |items| => Part(items[i].id, items[i].points))
  }

  function TickPractice(items: seq<Item>, a: PracticeAnswer): Tick {
    Tick(a.item, ItemOf(items, a.item).Some? && GradePractice(ItemOf(items, a.item).value, a))
  }

  function TickAttempt(items: seq<Item>, answers: seq<PracticeAnswer>): seq<Tick> {
    seq(|answers|, i requires 0 <= i < |answers| => TickPractice(items, answers[i]))
  }

  function CorrectCount(ticks: seq<Tick>): nat {
    if ticks == [] then 0 else CorrectCount(ticks[..|ticks| - 1]) + if ticks[|ticks| - 1].correct then 1 else 0
  }

  function Take(items: seq<Item>, answers: seq<PracticeAnswer>): Result<Attempt, GradeError> {
    var parts, ticks := ItemParts(items), TickAttempt(items, answers);
    if items == [] then Err(EmptyQuiz)
    else if Fault(parts, ticks).Some? then Err(Fault(parts, ticks).value)
    else
      var total := if Total(parts) == 0 then 1 else Total(parts);
      Ok(Attempt(RoundHalfEven(Awarded(parts, ticks) as real / total as real * 100.0),
                 CorrectCount(ticks), |items|, Marks(parts, ticks)))
  }

  lemma SameItem(items: seq<Item>, id: Id)
    ensures PartOf(ItemParts(items), id)
         == match ItemOf(items, id) case None => None case Some(q) => Some(Part(q.id, q.points))
  {
    FirstAgrees(ItemParts(items), items, (p: Part) => p.id == id, (q: Item) => q.id == id);
  }

  lemma ItemOfId(items: seq<Item>, id: Id)
    ensures ItemOf(items, id).Some? ==> ItemOf(items, id).value.id == id
  {
  }

  /** Here a repeated item is looked for before an unknown one; the verdict is the same. */
  method SubmitAttempt(items: seq<Item>, answers: seq<PracticeAnswer>) returns (r: Result<Attempt, GradeError>)
    ensures r == Take(items, answers)
  {
    hide Fault, Award, PartOf, ItemOf, Matches, CorrectOption;
    if items == [] {
      return Err(EmptyQuiz);
    }
    ghost var parts, ticks := ItemParts(items), TickAttempt(items, answers);
    var awarded, correctCount := 0, 0;
    var marks: seq<Mark> := [];
    var answered: set<Id> := {};
    NoFaultYet(parts, ticks);
    for i := 0 to |answers|
      invariant Fault(parts, ticks[..i]).None?
      invariant awarded == Awarded(parts, ticks[..i]) && correctCount == CorrectCount(ticks[..i])
      invariant marks == Marks(parts, ticks[..i])
      invariant answered == set j | 0 <= j < i :: answers[j].item
      invariant forall j :: 0 <= j < i ==> PartOf(parts, answers[j].item).Some?
    {
      var answer := answers[i];
      var item := ItemOf(items, answer.item);
      NextTick(parts, ticks, i);
      SameItem(items, answer.item);
      if answer.item in answered {
        ghost var j :| 0 <= j < i && answers[j].item == answer.item;
        assert ticks[j].id == ticks[i].id;
        return Err(DuplicateAnswer);
      }
      if item.None? {
        return Err(UnknownQuestion);
      }
      answered := answered + {answer.item};
      ItemOfId(items, answer.item);
      var isCorrect: bool;
      match item.value.kind {
        case Mcq(options) =>
          isCorrect := (if answer.Picks? then Some(answer.option) else None) == CorrectOption(options);
        case Matching(pairs) =>
          isCorrect := GradeMatching(pairs, if answer.Joins? then answer.pairs else []);
      }
      assert ticks[i] == Tick(answer.item, isCorrect);
      AwardIs(parts, ticks[i]);
      var points := if isCorrect then item.value.points else 0;
      if isCorrect {
        correctCount := correctCount + 1;
        awarded := awarded + points;
      }
      marks := marks + [Mark(answer.item, isCorrect, points)];
      assert ticks[..i + 1][..i] == ticks[..i];
    }
    assert ticks[..|answers|] == ticks;
    var total := SumItems(items);
    if total == 0 {
      total := 1;
    }
    return Ok(Attempt(RoundHalfEven(awarded as real / total as real * 100.0), correctCount, |items|, marks));
  }

  method SumItems(items: seq<Item>) returns (total: nat)
    ensures total == Total(ItemParts(items))
  {
    total := 0;
    var parts := ItemParts(items);
    for i := 0 to |items|
      invariant total + Total(parts[i..]) == Total(parts)
    {
      total := total + items[i].points;
    }
  }

  // ---------- Laws ----------

  lemma {:induction false} TotalWithout(parts: seq<Part>, i: nat)
    requires i < |parts|
    ensures Total(parts) == parts[i].points + Total(parts[..i] + parts[i + 1..])
  {
    var rest := parts[..i] + parts[i + 1..];
    if i == 0 {
      assert rest == parts[1..];
    } else {
      assert rest[1..] == parts[1..][..i - 1] + parts[1..][i..];
      TotalWithout(parts[1..], i - 1);
    }
  }

  lemma PartWithout(parts: seq<Part>, i: nat, id: Id)
    requires DistinctIds(parts) && i < |parts| && parts[i].id != id
    ensures PartOf(parts[..i] + parts[i + 1..], id) == PartOf(parts, id)
  {
    var rest := parts[..i] + parts[i + 1..];
    assert forall k :: 0 <= k < |rest| ==> rest[k] == parts[if k < i then k else k + 1];
    var f, g := First(parts, (p: Part) => p.id == id), First(rest, (p: Part) => p.id == id);
    if f.Some? {
      assert rest[if f.value < i then f.value else f.value - 1].id == id;
    }
  }

  lemma {:induction false} AwardedWithout(parts: seq<Part>, i: nat, ticks: seq<Tick>)
    requires DistinctIds(parts) && i < |parts| && forall k :: 0 <= k < |ticks| ==> ticks[k].id != parts[i].id
    ensures Awarded(parts[..i] + parts[i + 1..], ticks) == Awarded(parts, ticks)
  {
    if ticks != [] {
      AwardedWithout(parts, i, ticks[..|ticks| - 1]);
      PartWithout(parts, i, ticks[|ticks| - 1].id);
    }
  }

  /** Answering no part twice, nobody earns more than there is. */
  lemma {:induction false} AwardedWithinTotal(parts: seq<Part>, ticks: seq<Tick>)
    requires DistinctIds(parts) && forall i, j :: 0 <= i < j < |ticks| ==> ticks[i].id != ticks[j].id
    ensures Awarded(parts, ticks) <= Total(parts)
    decreases |ticks|
  {
    if ticks != [] {
      var n := |ticks| - 1;
      var f := First(parts, (p: Part) => p.id == ticks[n].id);
      if f.None? {
        AwardedWithinTotal(parts, ticks[..n]);
      } else {
        var i := f.value;
        TotalWithout(parts, i);
        AwardedWithout(parts, i, ticks[..n]);
        AwardedWithinTotal(parts[..i] + parts[i + 1..], ticks[..n]);
      }
    }
  }

  lemma PercentInRange(awarded: nat, total: nat)
    requires awarded <= total
    ensures 0.0 <= RawPercent(awarded, total) <= 100.0
    ensures 0 <= RoundHalfEven(RawPercent(awarded, total)) <= 100
  {
    if total > 0 {
      var a, t := awarded as real, total as real;
      assert 0.0 <= a / t <= 1.0;
    }
  }

  /** Comparing the exact ratio with the threshold needs no division. */
  lemma RatioExact(awarded: nat, total: nat, percent: nat)
    requires total > 0
    ensures RawPercent(awarded, total) >= percent as real <==> awarded * 100 >= percent * total
  {
    hide RawPercent, Times;
    PercentTimesTotal(awarded, total);
    TimesCast(2 * percent, total);
    Scaled(RawPercent(awarded, total) * 2.0, (2 * percent) as real, total as real);
    assert (2 * percent) * total == 2 * (percent * total);
  }

  function Times(x: real, y: real): real { x * y }

  lemma TimesCast(m: int, n: int)
    ensures Times(m as real, n as real) == (m * n) as real
  {
  }

  lemma PercentTimesTotal(awarded: nat, total: nat)
    requires total > 0
    ensures Times(RawPercent(awarded, total) * 2.0, total as real) == (awarded * 200) as real
  {
    var q, t := awarded as real / total as real, total as real;
    assert q * t == awarded as real;
    assert Times(q * 100.0 * 2.0, t) == (q * t) * 200.0;
  }

  /** Comparisons survive multiplication by a positive number. */
  lemma Scaled(x: real, y: real, t: real)
    requires t > 0.0
    ensures x > y <==> Times(x, t) > Times(y, t)
    ensures x == y <==> Times(x, t) == Times(y, t)
  {
    if x > y {
      assert (x - y) * t > 0.0;
    } else if x < y {
      assert (y - x) * t > 0.0;
    }
  }

  ghost predicate Unambiguous(questions: seq<Question>) {
    forall i, j :: 0 <= i < j < |questions| ==> questions[i].id != questions[j].id
  }

  /** Every stored submission: score in 0..100, and passed exactly when the points
      reach the threshold, whatever the rounded score shows; with nothing to earn,
      only a threshold of zero is passed. */
  lemma VerdictIsExact(a: Assessment, prior: nat, answers: seq<Answer>)
    requires Unambiguous(a.questions) && Submit(a, prior, answers).Ok?
    ensures var s := Submit(a, prior, answers).value;
            var awarded := Awarded(QuestionParts(a.questions), TickAnswers(a.questions, answers));
            var total := Total(QuestionParts(a.questions));
            && awarded <= total && 0 <= s.scorePercent <= 100
            && (s.passed <==> if total > 0 then awarded * 100 >= a.passPercent * total else a.passPercent == 0)
            && (s.passed ==> s.scorePercent >= a.passPercent)
  {
    hide Awarded, Total, Fault;
    var parts, ticks := QuestionParts(a.questions), TickAnswers(a.questions, answers);
    FaultlessIff(parts, ticks);
    AwardedWithinTotal(parts, ticks);
    PercentInRange(Awarded(parts, ticks), Total(parts));
    if Total(parts) > 0 {
      RatioExact(Awarded(parts, ticks), Total(parts), a.passPercent);
    }
  }

  /** Whole points just short of the threshold whose percentage rounds up to it: less than
      half a percent short, or exactly half a percent below an even threshold. */
  predicate JustShort(awarded: nat, total: nat, percent: nat) {
    && awarded * 100 < percent * total
    && (awarded * 200 > (2 * percent - 1) * total || (awarded * 200 == (2 * percent - 1) * total && percent % 2 == 0))
  }

  lemma RoundsUpTo(x: real, p: int)
    requires x < p as real
    ensures RoundHalfEven(x) >= p <==> x > p as real - 0.5 || (x == p as real - 0.5 && p % 2 == 0)
  {
  }

  lemma HalfRatio(awarded: nat, total: nat, percent: nat)
    requires total > 0
    ensures RawPercent(awarded, total) > percent as real - 0.5 <==> awarded * 200 > (2 * percent - 1) * total
    ensures RawPercent(awarded, total) == percent as real - 0.5 <==> awarded * 200 == (2 * percent - 1) * total
  {
    hide RawPercent, Times;
    var x, t := RawPercent(awarded, total), total as real;
    PercentTimesTotal(awarded, total);
    TimesCast(2 * percent - 1, total);
    Scaled(x * 2.0, (2 * percent - 1) as real, t);
  }

  /** Exactly when a failed submission displays its pass mark. */
  lemma DisplaysPassMarkIff(a: Assessment, prior: nat, answers: seq<Answer>)
    requires Submit(a, prior, answers).Ok?
    ensures var s := Submit(a, prior, answers).value;
            var awarded := Awarded(QuestionParts(a.questions), TickAnswers(a.questions, answers));
            var total := Total(QuestionParts(a.questions));
            (!s.passed && s.scorePercent >= a.passPercent <==> total > 0 && JustShort(awarded, total, a.passPercent))
  {
    hide Awarded, Total, Fault, RawPercent, RoundHalfEven;
    var awarded := Awarded(QuestionParts(a.questions), TickAnswers(a.questions, answers));
    var total := Total(QuestionParts(a.questions));
    if total > 0 {
      RatioExact(awarded, total, a.passPercent);
      HalfRatio(awarded, total, a.passPercent);
      if RawPercent(awarded, total) < a.passPercent as real {
        RoundsUpTo(RawPercent(awarded, total), a.passPercent);
      }
    } else {
      NothingToEarn(awarded);
    }
  }

  lemma NothingToEarn(awarded: nat)
    ensures RawPercent(awarded, 0) == 0.0 && RoundHalfEven(RawPercent(awarded, 0)) == 0
  {
  }

  const HARD := Question(0, 139, OptionSet([Choice("right", true), Choice("wrong", false)]))

  const EASY := Question(1, 61, OptionSet([Choice("right", true), Choice("wrong", false)]))

  /** It happens: one correct answer worth 139 of 200 points is 69.5 percent, shown as 70
      and failed against a pass mark of 70. */
  lemma RoundedScoreOverstates()
    ensures var r := Submit(Assessment([HARD, EASY], 70, None), 0, [Answer(0, ["right"], "")]);
            r.Ok? && !r.value.passed && r.value.scorePercent == 70
  {
    var questions, answers := [HARD, EASY], [Answer(0, ["right"], "")];
    var parts := QuestionParts(questions);
    assert parts == [Part(0, 139), Part(1, 61)];
    HardIsCorrect();
    var ticks := TickAnswers(questions, answers);
    assert ticks == [Tick(0, true)] by {
      assert QuestionOf(questions, 0) == Some(HARD);
    }
    TalliesOne(parts, ticks);
    assert RawPercent(139, 200) == 69.5;
  }

  lemma HardIsCorrect()
    ensures GradeAnswer(HARD, Answer(0, ["right"], ""))
  {
    var options := HARD.kind.options;
    assert options[0] == Choice("right", true) && options[0] in options;
    assert CorrectIds(options) == {"right"};
    assert ["right"][0] == "right";
    assert Elements(["right"]) == {"right"};
  }

  lemma TalliesOne(parts: seq<Part>, ticks: seq<Tick>)
    requires parts == [Part(0, 139), Part(1, 61)] && ticks == [Tick(0, true)]
    ensures Total(parts) == 200 && Awarded(parts, ticks) == 139 && Fault(parts, ticks).None?
  {
    assert parts[1..] == [Part(1, 61)] && [Part(1, 61)][1..] == [];
    assert ticks[..0] == [];
    assert PartOf(parts, 0) == Some(Part(0, 139));
  }

  lemma AttemptInRange(items: seq<Item>, answers: seq<PracticeAnswer>)
    requires DistinctIds(ItemParts(items)) && Take(items, answers).Ok?
    ensures 0 <= Take(items, answers).value.scorePercent <= 100
    ensures Take(items, answers).value.correctCount <= |answers|
  {
    hide Awarded, Total, Fault, CorrectCount;
    var parts, ticks := ItemParts(items), TickAttempt(items, answers);
    FaultlessIff(parts, ticks);
    AwardedWithinTotal(parts, ticks);
    CorrectAtMost(ticks);
    PercentInRange(Awarded(parts, ticks), if Total(parts) == 0 then 1 else Total(parts));
  }

  lemma {:induction false} CorrectAtMost(ticks: seq<Tick>)
    ensures CorrectCount(ticks) <= |ticks|
  {
    if ticks != [] {
      CorrectAtMost(ticks[..|ticks| - 1]);
    }
  }

  lemma {:induction false} AwardedSplits(parts: seq<Part>, ticks: seq<Tick>, i: nat)
    requires i < |ticks|
    ensures Awarded(parts, ticks) == Awarded(parts, ticks[..i] + ticks[i + 1..]) + Award(parts, ticks[i])
  {
    hide Award;
    var n := |ticks| - 1;
    var rest := ticks[..i] + ticks[i + 1..];
    if i == n {
      assert rest == ticks[..n];
    } else {
      assert rest[..n - 1] == ticks[..n][..i] + ticks[..n][i + 1..];
      AwardedSplits(parts, ticks[..n], i);
    }
  }

  /** The last row of a, found in its permutation b. */
  lemma LastElsewhere<T>(a: seq<T>, b: seq<T>) returns (i: nat)
    requires a != [] && multiset(a) == multiset(b)
    ensures i < |b| && b[i] == a[|a| - 1]
    ensures multiset(b[..i] + b[i + 1..]) == multiset(a[..|a| - 1])
    ensures |b| == |a|
  {
    var n := |a| - 1;
    SameSize(a, b);
    assert a[n] in multiset(a);
    i :| 0 <= i < |b| && b[i] == a[n];
    Without(b, i);
    Without(a, n);
    assert a[..n] + a[n + 1..] == a[..n];
  }

  lemma SameSize<T>(a: seq<T>, b: seq<T>)
    requires multiset(a) == multiset(b)
    ensures |a| == |b|
  {
    assert |multiset(a)| == |a| && |multiset(b)| == |b|;
  }

  lemma Without<T>(s: seq<T>, i: nat)
    requires i < |s|
    ensures multiset(s[..i] + s[i + 1..]) == multiset(s) - multiset{s[i]}
  {
    assert s == s[..i] + [s[i]] + s[i + 1..];
  }

  /** The points do not depend on the order of the answers. */
  lemma {:induction false} AwardedOrderless(parts: seq<Part>, a: seq<Tick>, b: seq<Tick>)
    requires multiset(a) == multiset(b)
    ensures Awarded(parts, a) == Awarded(parts, b)
    decreases |a|
  {
    if a == [] {
      assert |multiset(a)| == |multiset(b)|;
    } else {
      hide Award;
      var n := |a| - 1;
      var i := LastElsewhere(a, b);
      var rest := b[..i] + b[i + 1..];
      AwardedOrderless(parts, a[..n], rest);
      AwardedSplits(parts, b, i);
    }
  }

  /** Mapping row by row carries permutations to permutations. */
  lemma {:induction false} MapOrderless<A, B>(f: A -> B, a: seq<A>, b: seq<A>)
    requires multiset(a) == multiset(b)
    ensures multiset(Mapped(f, a)) == multiset(Mapped(f, b))
    decreases |a|
  {
    if a == [] {
      assert |multiset(a)| == |multiset(b)|;
    } else {
      var n := |a| - 1;
      var i := LastElsewhere(a, b);
      var rest := b[..i] + b[i + 1..];
      MapOrderless(f, a[..n], rest);
      assert Mapped(f, a) == Mapped(f, a[..n]) + [f(a[n])];
      assert Mapped(f, b) == Mapped(f, b[..i]) + [f(a[n])] + Mapped(f, b[i + 1..]);
      assert Mapped(f, rest) == Mapped(f, b[..i]) + Mapped(f, b[i + 1..]);
    }
  }

  function Mapped<A, B>(f: A -> B, a: seq<A>): seq<B> {
    seq(|a|, i requires 0 <= i < |a| => f(a[i]))
  }

  lemma TicksOrderless(questions: seq<Question>, a: seq<Answer>, b: seq<Answer>)
    requires multiset(a) == multiset(b)
    ensures multiset(TickAnswers(questions, a)) == multiset(TickAnswers(questions, b))
  {
    hide TickAnswer;
    var f := (x: Answer) => TickAnswer(questions, x);
    MapOrderless(f, a, b);
    assert TickAnswers(questions, a) == Mapped(f, a) && TickAnswers(questions, b) == Mapped(f, b);
  }

  lemma FaultOrderless(parts: seq<Part>, a: seq<Tick>, b: seq<Tick>)
    requires multiset(a) == multiset(b) && Fault(parts, a).None?
    ensures Fault(parts, b).None?
  {
    hide Fault;
    FaultlessIff(parts, a);
    FaultlessIff(parts, b);
    forall i | 0 <= i < |b| ensures PartOf(parts, b[i].id).Some? {
      assert b[i] in multiset(a);
    }
    var id := (t: Tick) => t.id;
    MapOrderless(id, a, b);
    DistinctOrderless(Mapped(id, a), Mapped(id, b));
    forall i, j | 0 <= i < j < |b| ensures b[i].id != b[j].id {
      assert Mapped(id, b)[i] != Mapped(id, b)[j];
    }
  }

  lemma DistinctOrderless<T>(a: seq<T>, b: seq<T>)
    requires multiset(a) == multiset(b) && Distinct(a)
    ensures Distinct(b)
  {
    DistinctIsSet(a);
    forall i, j | 0 <= i < j < |b| ensures b[i] != b[j] {
      if b[i] == b[j] {
        CountedTwice(b, i, j);
        assert false;
      }
    }
  }

  /** Permuting the answers changes neither acceptance, nor score, nor verdict. */
  lemma VerdictOrderless(a: Assessment, prior: nat, xs: seq<Answer>, ys: seq<Answer>)
    requires multiset(xs) == multiset(ys)
    ensures Submit(a, prior, xs).Ok? <==> Submit(a, prior, ys).Ok?
    ensures Submit(a, prior, xs).Ok? ==>
              && Submit(a, prior, xs).value.scorePercent == Submit(a, prior, ys).value.scorePercent
              && Submit(a, prior, xs).value.passed == Submit(a, prior, ys).value.passed
              && multiset(Submit(a, prior, xs).value.marks) == multiset(Submit(a, prior, ys).value.marks)
  {
    hide Fault, Awarded, TickAnswers, Marks;
    var parts := QuestionParts(a.questions);
    var tx, ty := TickAnswers(a.questions, xs), TickAnswers(a.questions, ys);
    TicksOrderless(a.questions, xs, ys);
    AwardedOrderless(parts, tx, ty);
    MarksOrderless(parts, tx, ty);
    if Fault(parts, tx).None? {
      FaultOrderless(parts, tx, ty);
    }
    if Fault(parts, ty).None? {
      FaultOrderless(parts, ty, tx);
    }
  }

  lemma MarksOrderless(parts: seq<Part>, a: seq<Tick>, b: seq<Tick>)
    requires multiset(a) == multiset(b)
    ensures multiset(Marks(parts, a)) == multiset(Marks(parts, b))
  {
    hide Award;
    var f := (t: Tick) => Mark(t.id, t.correct, Award(parts, t));
    MapOrderless(f, a, b);
    assert Marks(parts, a) == Mapped(f, a) && Marks(parts, b) == Mapped(f, b);
  }

  lemma {:induction false} CorrectCountIs(ticks: seq<Tick>)
    ensures CorrectCount(ticks) == multiset(Mapped((t: Tick) => t.correct, ticks))[true]
  {
    if ticks != [] {
      var n := |ticks| - 1;
      CorrectCountIs(ticks[..n]);
      var f := (t: Tick) => t.correct;
      assert Mapped(f, ticks) == Mapped(f, ticks[..n]) + [ticks[n].correct];
    }
  }

  /** Nor does the order of a practice attempt's answers matter. */
  lemma AttemptOrderless(items: seq<Item>, xs: seq<PracticeAnswer>, ys: seq<PracticeAnswer>)
    requires multiset(xs) == multiset(ys)
    ensures Take(items, xs).Ok? <==> Take(items, ys).Ok?
    ensures Take(items, xs).Ok? ==>
              && Take(items, xs).value.scorePercent == Take(items, ys).value.scorePercent
              && Take(items, xs).value.correctCount == Take(items, ys).value.correctCount
              && multiset(Take(items, xs).value.marks) == multiset(Take(items, ys).value.marks)
  {
    hide Fault, Awarded, CorrectCount, TickPractice, Marks;
    var parts := ItemParts(items);
    var tx, ty := TickAttempt(items, xs), TickAttempt(items, ys);
    var f := (x: PracticeAnswer) => TickPractice(items, x);
    MapOrderless(f, xs, ys);
    assert tx == Mapped(f, xs) && ty == Mapped(f, ys);
    AwardedOrderless(parts, tx, ty);
    MarksOrderless(parts, tx, ty);
    MapOrderless((t: Tick) => t.correct, tx, ty);
    CorrectCountIs(tx);
    CorrectCountIs(ty);
    if Fault(parts, tx).None? {
      FaultOrderless(parts, tx, ty);
    }
    if Fault(parts, ty).None? {
      FaultOrderless(parts, ty, tx);
    }
  }

  // ---------- What a paper can earn ----------

  /** A question somebody can answer correctly: some option is flagged, or some expected
      answer is non-empty and survives the stripping of the learner's text. */
  predicate Answerable(q: Question) {
    match q.kind
    case OptionSet(options) => CorrectIds(options) != {}
    case ShortAnswer(expected) => exists e :: e in expected && e != "" && HlsText.Strip(e) == e
  }

  lemma {:induction false} Listing<T>(s: set<T>) returns (list: seq<T>)
    ensures Elements(list) == s
    decreases s
  {
    list := [];
    if s != {} {
      var x :| x in s;
      var rest := Listing(s - {x});
      list := [x] + rest;
      assert Elements(list) == {x} + Elements(rest);
    }
  }

  lemma LowerKeepsSpace(c: char)
    ensures HlsText.IsSpace(LowerChar(c)) <==> HlsText.IsSpace(c)
  {
  }

  /** An expected answer that some text matches is itself stripped. */
  lemma MatchedIsStripped(text: string, e: string)
    requires Lower(HlsText.Strip(text)) == Lower(e) && Lower(e) != ""
    ensures e != "" && HlsText.Strip(e) == e
  {
    var t := HlsText.Strip(text);
    assert |t| == |Lower(t)| == |Lower(e)| == |e|;
    HlsText.StripEnds(text);
    assert Lower(t)[0] == Lower(e)[0] && Lower(t)[|e| - 1] == Lower(e)[|e| - 1];
    LowerKeepsSpace(t[0]);
    LowerKeepsSpace(e[0]);
    LowerKeepsSpace(t[|e| - 1]);
    LowerKeepsSpace(e[|e| - 1]);
    HlsText.StripTight(e);
  }

  lemma RightAnswer(q: Question) returns (a: Answer)
    requires Answerable(q)
    ensures a.question == q.id && GradeAnswer(q, a)
  {
    match q.kind
    case OptionSet(options) =>
      var selected := Listing(CorrectIds(options));
      a := Answer(q.id, selected, "");
    case ShortAnswer(expected) =>
      var e :| e in expected && e != "" && HlsText.Strip(e) == e;
      a := Answer(q.id, [], e);
      assert |Lower(e)| == |e|;
  }

  /** The guard is exact. */
  lemma AnswerableIff(q: Question)
    ensures Answerable(q) <==> exists a: Answer :: a.question == q.id && GradeAnswer(q, a)
  {
    if Answerable(q) {
      var a := RightAnswer(q);
    }
    if a: Answer :| a.question == q.id && GradeAnswer(q, a) {
      if q.kind.ShortAnswer? {
        var e :| e in q.kind.expected && Lower(e) == Lower(HlsText.Strip(a.text));
        MatchedIsStripped(a.text, e);
      }
    }
  }

  /** The parts with the points of unanswerable questions taken out. */
  function EarnableParts(questions: seq<Question>): seq<Part> {
    seq(|questions|, i requires 0 <= i < |questions| =>
      Part(questions[i].id, if Answerable(questions[i]) then questions[i].points else 0))
  }

  function Earnable(questions: seq<Question>): nat { Total(EarnableParts(questions)) }

  /** Whether a paper can be passed at all, from its questions and its pass mark. */
  predicate Passable(a: Assessment) {
    var total := Total(QuestionParts(a.questions));
    if total > 0 then Earnable(a.questions) * 100 >= a.passPercent * total else a.passPercent == 0
  }

  predicate MayTry(a: Assessment, prior: nat) { a.maxAttempts.None? || prior < a.maxAttempts.value }

  lemma SameEarnable(questions: seq<Question>, id: Id)
    ensures PartOf(EarnableParts(questions), id) ==
              match QuestionOf(questions, id)
              case None => None
              case Some(q) => Some(Part(q.id, if Answerable(q) then q.points else 0))
  {
    hide Answerable;
    FirstAgrees(EarnableParts(questions), questions, (p: Part) => p.id == id, (q: Question) => q.id == id);
  }

  /** A correct tick is worth the same with unanswerable points taken out. */
  lemma AwardIsEarnable(questions: seq<Question>, a: Answer)
    ensures Award(QuestionParts(questions), TickAnswer(questions, a)) ==
            Award(EarnableParts(questions), TickAnswer(questions, a))
  {
    hide PartOf, Answerable, GradeAnswer, QuestionOf;
    SamePart(questions, a.question);
    SameEarnable(questions, a.question);
    QuestionOfId(questions, a.question);
    var q := QuestionOf(questions, a.question);
    if q.Some? && GradeAnswer(q.value, a) {
      AnswerableIff(q.value);
    }
  }

  lemma {:induction false} AwardedIsEarnable(questions: seq<Question>, answers: seq<Answer>)
    ensures Awarded(QuestionParts(questions), TickAnswers(questions, answers)) ==
            Awarded(EarnableParts(questions), TickAnswers(questions, answers))
  {
    hide Award, TickAnswer, EarnableParts, QuestionParts;
    if answers != [] {
      var n := |answers| - 1;
      assert TickAnswers(questions, answers)[..n] == TickAnswers(questions, answers[..n]);
      AwardedIsEarnable(questions, answers[..n]);
      AwardIsEarnable(questions, answers[n]);
    }
  }

  /** No accepted submission earns more than the earnable points. */
  lemma AwardedAtMostEarnable(questions: seq<Question>, answers: seq<Answer>)
    requires Unambiguous(questions) && Fault(QuestionParts(questions), TickAnswers(questions, answers)).None?
    ensures Awarded(QuestionParts(questions), TickAnswers(questions, answers)) <= Earnable(questions)
  {
    hide Fault, Awarded, Total, Answerable;
    FaultlessIff(QuestionParts(questions), TickAnswers(questions, answers));
    AwardedIsEarnable(questions, answers);
    AwardedWithinTotal(EarnableParts(questions), TickAnswers(questions, answers));
  }

  lemma {:induction false} TotalSnoc(parts: seq<Part>, p: Part)
    ensures Total(parts + [p]) == Total(parts) + p.points
  {
    if parts == [] {
      assert [] + [p] == [p] && [p][1..] == [];
    } else {
      assert (parts + [p])[1..] == parts[1..] + [p];
      TotalSnoc(parts[1..], p);
    }
  }

  /** Each of the answers is right, for one of the first n questions, and none repeats. */
  ghost predicate RightBelow(questions: seq<Question>, answers: seq<Answer>, n: nat)
    requires n <= |questions|
  {
    && (forall k :: 0 <= k < |answers| ==> Asks(questions[..n], answers[k].question))
    && (forall j, k :: 0 <= j < k < |answers| ==> answers[j].question != answers[k].question)
  }

  predicate Asks(questions: seq<Question>, id: Id) { exists i :: 0 <= i < |questions| && questions[i].id == id }

  lemma QuestionAt(questions: seq<Question>, i: nat)
    requires Unambiguous(questions) && i < |questions|
    ensures QuestionOf(questions, questions[i].id) == Some(questions[i])
  {
  }

  /** One right answer for every answerable question among the first n earns all that
      they can earn. */
  lemma {:induction false} AllRight(questions: seq<Question>, n: nat) returns (answers: seq<Answer>)
    requires Unambiguous(questions) && n <= |questions|
    ensures RightBelow(questions, answers, n)
    ensures Awarded(QuestionParts(questions), TickAnswers(questions, answers)) ==
            Total(EarnableParts(questions)[..n])
    decreases n
  {
    hide Answerable, Award, TickAnswer, QuestionParts, Awarded, Total, GradeAnswer;
    answers := [];
    if n == 0 {
      NothingRight(questions);
    } else {
      var q, parts := questions[n - 1], EarnableParts(questions);
      answers := AllRight(questions, n - 1);
      assert parts[..n] == parts[..n - 1] + [parts[n - 1]];
      TotalSnoc(parts[..n - 1], parts[n - 1]);
      NewAsked(questions, answers, n);
      if Answerable(q) {
        var a := RightAnswer(q);
        RightEarns(questions, n - 1, a);
        OneMore(questions, answers, a);
        answers := answers + [a];
      }
    }
  }

  lemma NothingRight(questions: seq<Question>)
    ensures RightBelow(questions, [], 0)
    ensures Awarded(QuestionParts(questions), TickAnswers(questions, [])) == Total(EarnableParts(questions)[..0])
  {
  }

  lemma NewAsked(questions: seq<Question>, answers: seq<Answer>, n: nat)
    requires Unambiguous(questions) && 0 < n <= |questions| && RightBelow(questions, answers, n - 1)
    ensures RightBelow(questions, answers, n)
    ensures forall a: Answer :: a.question == questions[n - 1].id ==> RightBelow(questions, answers + [a], n)
  {
    forall k | 0 <= k < |answers|
      ensures Asks(questions[..n], answers[k].question) && answers[k].question != questions[n - 1].id
    {
      var i :| 0 <= i < n - 1 && questions[..n - 1][i].id == answers[k].question;
      assert questions[..n][i].id == answers[k].question;
    }
    assert questions[..n][n - 1] == questions[n - 1];
  }

  lemma RightEarns(questions: seq<Question>, i: nat, a: Answer)
    requires Unambiguous(questions) && i < |questions| && a.question == questions[i].id && GradeAnswer(questions[i], a)
    requires Answerable(questions[i])
    ensures Award(QuestionParts(questions), TickAnswer(questions, a)) == EarnableParts(questions)[i].points
  {
    hide GradeAnswer, Answerable, PartOf, QuestionOf;
    QuestionAt(questions, i);
    SamePart(questions, a.question);
  }

  lemma OneMore(questions: seq<Question>, answers: seq<Answer>, a: Answer)
    ensures Awarded(QuestionParts(questions), TickAnswers(questions, answers + [a])) ==
            Awarded(QuestionParts(questions), TickAnswers(questions, answers)) +
            Award(QuestionParts(questions), TickAnswer(questions, a))
  {
    hide Award, TickAnswer;
    var ticks := TickAnswers(questions, answers + [a]);
    assert ticks == TickAnswers(questions, answers) + [TickAnswer(questions, a)];
    assert ticks[..|ticks| - 1] == TickAnswers(questions, answers);
  }

  lemma RightIsFaultless(questions: seq<Question>, answers: seq<Answer>)
    requires Unambiguous(questions) && RightBelow(questions, answers, |questions|)
    ensures Fault(QuestionParts(questions), TickAnswers(questions, answers)).None?
  {
    hide Fault, GradeAnswer, PartOf;
    var ticks := TickAnswers(questions, answers);
    FaultlessIff(QuestionParts(questions), ticks);
    assert questions[..|questions|] == questions;
    forall k | 0 <= k < |ticks| ensures PartOf(QuestionParts(questions), ticks[k].id).Some? {
      var i :| 0 <= i < |questions| && questions[i].id == answers[k].question;
      SamePart(questions, questions[i].id);
      QuestionAt(questions, i);
    }
  }

  ghost predicate Passes(a: Assessment, prior: nat, answers: seq<Answer>) {
    Submit(a, prior, answers).Ok? && Submit(a, prior, answers).value.passed
  }

  lemma PassesOnlyIfPassable(a: Assessment, prior: nat, answers: seq<Answer>)
    requires Unambiguous(a.questions) && Passes(a, prior, answers)
    ensures Passable(a) && MayTry(a, prior)
  {
    hide Awarded, Total, Fault, Earnable;
    VerdictIsExact(a, prior, answers);
    AwardedAtMostEarnable(a.questions, answers);
  }

  lemma PassingAnswers(a: Assessment, prior: nat) returns (answers: seq<Answer>)
    requires Unambiguous(a.questions) && Passable(a) && MayTry(a, prior)
    ensures Passes(a, prior, answers)
  {
    hide Awarded, Total, Fault, EarnableParts, RightBelow;
    answers := AllRight(a.questions, |a.questions|);
    EarnableCount(a.questions);
    assert EarnableParts(a.questions)[..|a.questions|] == EarnableParts(a.questions);
    RightIsFaultless(a.questions, answers);
    VerdictIsExact(a, prior, answers);
  }

  lemma EarnableCount(questions: seq<Question>)
    ensures |EarnableParts(questions)| == |questions|
  {
  }

  /** Exactly when some submission passes: attempts are left, and the earnable points reach
      the pass mark; with nothing to earn, only a pass mark of zero is reached. */
  lemma PassableIff(a: Assessment, prior: nat)
    requires Unambiguous(a.questions)
    ensures (exists answers :: Passes(a, prior, answers)) <==> Passable(a) && MayTry(a, prior)
  {
    hide Passes, Passable;
    if answers :| Passes(a, prior, answers) {
      PassesOnlyIfPassable(a, prior, answers);
    }
    if Passable(a) && MayTry(a, prior) {
      var answers := PassingAnswers(a, prior);
    }
  }
}

/** Which answers are right, which submissions are accepted, and what they score: stated
    over questions, items and answers alone. */
module GradingRules {
  import opened Prelude
  import opened Grading
  import HlsText

  // ---------- Right answers ----------

  /** Some option is flagged, every selected id is a flagged option's, and every flagged
      option is selected. */
  ghost predicate PicksRight(options: seq<Choice>, selected: seq<string>) {
    && (exists o :: o in options && o.correct)
    && (forall x :: x in selected ==> Choice(x, true) in options)
    && (forall o :: o in options && o.correct ==> o.id in selected)
  }

  /** core is the text without the white space around it. */
  ghost predicate Trims(text: string, core: string) {
    && (core != [] ==> !HlsText.IsSpace(core[0]) && !HlsText.IsSpace(core[|core| - 1]))
    && exists before, after :: text == before + core + after && Blank(before) && Blank(after)
  }

  ghost predicate Blank(s: string) { forall i :: 0 <= i < |s| ==> HlsText.IsSpace(s[i]) }

  /** Equal up to the case of ASCII letters. */
  ghost predicate SameLetters(s: string, t: string) {
    |s| == |t| && forall i :: 0 <= i < |s| ==> SameLetter(s[i], t[i])
  }

  predicate SameLetter(a: char, b: char) {
    || a == b
    || ('A' <= a <= 'Z' && b as int == a as int + 32)
    || ('A' <= b <= 'Z' && a as int == b as int + 32)
  }

  /** An option question is answered right exactly with its flagged options. */
  lemma OptionAnswerIff(q: Question, a: Answer)
    requires q.kind.OptionSet?
    ensures GradeAnswer(q, a) <==> PicksRight(q.kind.options, a.selected)
  {
    var options, ids := q.kind.options, CorrectIds(q.kind.options);
    forall x ensures x in ids <==> Choice(x, true) in options {
      if x in ids {
        var o :| o in options && o.correct && o.id == x;
        assert o == Choice(x, true);
      }
    }
    assert forall o :: o in options && o.correct ==> o.id in ids;
    if PicksRight(options, a.selected) {
      var o :| o in options && o.correct;
      assert Elements(a.selected) == ids;
    }
  }

  lemma LetterByLetter(a: char, b: char)
    ensures LowerChar(a) == LowerChar(b) <==> SameLetter(a, b)
  {
  }

  lemma LowerIff(s: string, t: string)
    ensures Lower(s) == Lower(t) <==> SameLetters(s, t)
  {
    hide LowerChar, SameLetter;
    assert |Lower(s)| == |s| && |Lower(t)| == |t|;
    forall i | 0 <= i < |s| && i < |t| ensures Lower(s)[i] == Lower(t)[i] <==> SameLetter(s[i], t[i]) {
      LetterByLetter(s[i], t[i]);
    }
    if SameLetters(s, t) {
      assert Lower(s) == Lower(t);
    }
  }

  lemma {:induction false} LeftTrims(s: string) returns (before: string)
    ensures s == before + HlsText.LStrip(s) && Blank(before)
  {
    before := [];
    if s != [] && HlsText.IsSpace(s[0]) {
      var rest := LeftTrims(s[1..]);
      before := [s[0]] + rest;
    }
  }

  lemma {:induction false} RightTrims(s: string) returns (after: string)
    ensures s == HlsText.RStrip(s) + after && Blank(after)
  {
    after := [];
    if s != [] && HlsText.IsSpace(s[|s| - 1]) {
      var rest := RightTrims(s[..|s| - 1]);
      after := rest + [s[|s| - 1]];
      assert s == s[..|s| - 1] + [s[|s| - 1]];
    }
  }

  lemma StripTrims(text: string)
    ensures Trims(text, HlsText.Strip(text))
  {
    hide HlsText.LStrip, HlsText.RStrip;
    var before := LeftTrims(text);
    var after := RightTrims(HlsText.LStrip(text));
    HlsText.StripEnds(text);
    assert text == before + HlsText.Strip(text) + after;
  }

  lemma {:induction false} LeftIsSkipped(before: string, s: string)
    requires Blank(before) && (s != [] ==> !HlsText.IsSpace(s[0]))
    ensures HlsText.LStrip(before + s) == s
  {
    if before == [] {
      assert before + s == s;
    } else {
      assert (before + s)[1..] == before[1..] + s;
      LeftIsSkipped(before[1..], s);
    }
  }

  lemma {:induction false} RightIsSkipped(s: string, after: string)
    requires Blank(after) && (s != [] ==> !HlsText.IsSpace(s[|s| - 1]))
    ensures HlsText.RStrip(s + after) == s
    decreases |after|
  {
    if after == [] {
      assert s + after == s;
    } else {
      assert (s + after)[..|s + after| - 1] == s + after[..|after| - 1];
      RightIsSkipped(s, after[..|after| - 1]);
    }
  }

  lemma {:induction false} BlankVanishes(s: string)
    requires Blank(s)
    ensures HlsText.LStrip(s) == []
  {
    if s != [] {
      BlankVanishes(s[1..]);
    }
  }

  /** There is only one such core. */
  lemma TrimsIsStrip(text: string, core: string)
    requires Trims(text, core)
    ensures core == HlsText.Strip(text)
  {
    hide HlsText.LStrip, HlsText.RStrip;
    var before, after :| text == before + core + after && Blank(before) && Blank(after);
    if core == [] {
      assert Blank(text);
      BlankVanishes(text);
      Empty();
    } else {
      assert text == before + (core + after);
      LeftIsSkipped(before, core + after);
      RightIsSkipped(core, after);
    }
  }

  lemma Empty()
    ensures HlsText.RStrip([]) == []
  {
  }

  /** A short answer is right exactly if its text without the white space around it is not
      empty and an expected answer up to letter case. */
  lemma ShortAnswerIff(q: Question, a: Answer)
    requires q.kind.ShortAnswer?
    ensures GradeAnswer(q, a) <==>
              exists core, e :: Trims(a.text, core) && core != "" && e in q.kind.expected && SameLetters(e, core)
  {
    hide HlsText.Strip, Lower, SameLetters, Trims;
    var text := HlsText.Strip(a.text);
    StripTrims(a.text);
    LowerOfNothing(text);
    forall e ensures Lower(e) == Lower(text) <==> SameLetters(e, text) {
      LowerIff(e, text);
    }
    forall core | Trims(a.text, core) ensures core == text {
      TrimsIsStrip(a.text, core);
    }
  }

  lemma LowerOfNothing(s: string)
    ensures Lower(s) == "" <==> s == ""
  {
    assert |Lower(s)| == |s|;
  }

  ghost predicate Right(q: Question, a: Answer) {
    match q.kind
    case OptionSet(options) => PicksRight(options, a.selected)
    case ShortAnswer(expected) =>
      exists core, e :: Trims(a.text, core) && core != "" && e in expected && SameLetters(e, core)
  }

  lemma RightIff(q: Question, a: Answer)
    ensures GradeAnswer(q, a) <==> Right(q, a)
  {
    match q.kind
    case OptionSet(_) => OptionAnswerIff(q, a);
    case ShortAnswer(_) => ShortAnswerIff(q, a);
  }

  /** The pairs of the item, each once, joined to themselves. */
  ghost predicate JoinsRight(ids: set<string>, pairs: seq<Pair>) {
    && (forall i :: 0 <= i < |pairs| ==> pairs[i].left == pairs[i].right && pairs[i].left in ids)
    && (forall i, j :: 0 <= i < j < |pairs| ==> pairs[i].left != pairs[j].left)
    && (forall id :: id in ids ==> Pair(id, id) in pairs)
  }

  /** A choice is right if it is the first flagged option, an answer without one if no option
      is flagged; a matching if it joins each pair to itself. */
  ghost predicate RightItem(item: Item, a: PracticeAnswer) {
    match item.kind
    case Mcq(options) =>
      if a.Picks? then exists k :: FirstFlagged(options, k) && options[k].id == a.option
      else forall o :: o in options ==> !o.correct
    case Matching(ids) => JoinsRight(ids, if a.Joins? then a.pairs else [])
  }

  ghost predicate FirstFlagged(options: seq<Choice>, k: int) {
    0 <= k < |options| && options[k].correct && forall j :: 0 <= j < k ==> !options[j].correct
  }

  lemma MatchesIff(ids: set<string>, pairs: seq<Pair>)
    ensures Matches(ids, pairs) <==> JoinsRight(ids, pairs)
  {
    if Matches(ids, pairs) {
      forall p | p in pairs ensures p.left == p.right && p.left in ids {
        assert p in multiset(pairs);
      }
      forall i, j | 0 <= i < j < |pairs| ensures pairs[i].left != pairs[j].left {
        if pairs[i].left == pairs[j].left {
          assert pairs[i] in pairs && pairs[j] in pairs;
          CountedTwice(pairs, i, j);
        }
      }
      forall id | id in ids ensures Pair(id, id) in pairs {
        assert Pair(id, id) in Diagonal(ids);
        assert Pair(id, id) in multiset(pairs);
      }
    }
    if JoinsRight(ids, pairs) {
      assert forall i, j :: 0 <= i < j < |pairs| ==> pairs[i].left != pairs[j].left ==> pairs[i] != pairs[j];
      DistinctIsSet(pairs);
      assert Grading.Elements(pairs) == Diagonal(ids);
    }
  }

  lemma RightItemIff(item: Item, a: PracticeAnswer)
    ensures GradePractice(item, a) <==> RightItem(item, a)
  {
    match item.kind {
      case Mcq(options) =>
        var f := First(options, (o: Choice) => o.correct);
        assert f.Some? ==> FirstFlagged(options, f.value) && options[f.value] in options;
      case Matching(ids) =>
        MatchesIff(ids, if a.Joins? then a.pairs else []);
    }
  }

  // ---------- Accepted submissions ----------

  function Sum(ns: seq<nat>): nat {
    if ns == [] then 0 else Sum(ns[..|ns| - 1]) + ns[|ns| - 1]
  }

  function Points(questions: seq<Question>): seq<nat> {
    seq(|questions|, i requires 0 <= i < |questions| => questions[i].points)
  }

  function ItemPoints(items: seq<Item>): seq<nat> {
    seq(|items|, i requires 0 <= i < |items| => items[i].points)
  }

  function Earned(marks: seq<Mark>): seq<nat> {
    seq(|marks|, i requires 0 <= i < |marks| => marks[i].awarded)
  }

  lemma {:induction false} TotalIsSum(parts: seq<Part>)
    ensures Total(parts) == Sum(seq(|parts|, i requires 0 <= i < |parts| => parts[i].points))
  {
    var points := seq(|parts|, i requires 0 <= i < |parts| => parts[i].points);
    if parts != [] {
      var n := |parts| - 1;
      TotalIsSum(parts[..n]);
      assert points[..n] == seq(n, i requires 0 <= i < n => parts[..n][i].points);
      assert parts == parts[..n] + [parts[n]];
      TotalSnoc(parts[..n], parts[n]);
    }
  }

  lemma {:induction false} AwardedIsSum(parts: seq<Part>, ticks: seq<Tick>)
    ensures Awarded(parts, ticks) == Sum(Earned(Marks(parts, ticks)))
  {
    hide Award;
    if ticks != [] {
      var n := |ticks| - 1;
      AwardedIsSum(parts, ticks[..n]);
      assert Earned(Marks(parts, ticks))[..n] == Earned(Marks(parts, ticks[..n]));
    }
  }

  predicate Known(parts: seq<Part>, id: Id) { exists p :: p in parts && p.id == id }

  lemma KnownIff(parts: seq<Part>, id: Id)
    ensures PartOf(parts, id).Some? <==> Known(parts, id)
  {
    var f := First(parts, (p: Part) => p.id == id);
    assert f.Some? ==> parts[f.value] in parts;
  }

  /** No answer is to something else, and none repeats another. */
  ghost predicate Proper(asked: set<Id>, ids: seq<Id>) {
    && (forall i :: 0 <= i < |ids| ==> ids[i] in asked)
    && (forall i, j :: 0 <= i < j < |ids| ==> ids[i] != ids[j])
  }

  /** The i-th answer is the first that spoils it. */
  ghost predicate Spoils(asked: set<Id>, ids: seq<Id>, i: nat) {
    i < |ids| && Proper(asked, ids[..i]) && !Proper(asked, ids[..i + 1])
  }

  function Ids(parts: seq<Part>): set<Id> { set p | p in parts :: p.id }

  function TickIds(ticks: seq<Tick>): seq<Id> { seq(|ticks|, i requires 0 <= i < |ticks| => ticks[i].id) }

  function Spoilt(asked: set<Id>, id: Id): GradeError { if id in asked then DuplicateAnswer else UnknownQuestion }

  /** The error is that of the first answer that spoils the submission. */
  lemma {:induction false} FaultIs(parts: seq<Part>, ticks: seq<Tick>)
    ensures Fault(parts, ticks).None? <==> Proper(Ids(parts), TickIds(ticks))
    ensures Fault(parts, ticks).Some? ==>
              exists i: nat :: Spoils(Ids(parts), TickIds(ticks), i)
                               && Fault(parts, ticks).value == Spoilt(Ids(parts), TickIds(ticks)[i])
  {
    hide PartOf, Ids;
    if ticks != [] {
      var n, asked, ids := |ticks| - 1, Ids(parts), TickIds(ticks);
      assert TickIds(ticks[..n]) == ids[..n];
      FaultIs(parts, ticks[..n]);
      AskedIff(parts, ids[n]);
      if Fault(parts, ticks[..n]).Some? {
        var i: nat :| Spoils(asked, ids[..n], i) && Fault(parts, ticks[..n]).value == Spoilt(asked, ids[..n][i]);
        SpoiltBefore(asked, ids, n, i);
      } else {
        ProperNext(asked, ids, n);
        RepeatedIff(ticks, n);
        assert Fault(parts, ticks).Some? ==>
            Spoils(asked, ids, n) && Fault(parts, ticks).value == Spoilt(asked, ids[n]);
      }
    }
  }

  lemma RepeatedIff(ticks: seq<Tick>, n: nat)
    requires n < |ticks|
    ensures TickIds(ticks)[n] in TickIds(ticks)[..n] <==> exists i :: 0 <= i < n && ticks[i].id == ticks[n].id
  {
    var ids := TickIds(ticks);
    assert forall i :: 0 <= i < n ==> ids[..n][i] == ticks[i].id;
  }

  lemma AskedIff(parts: seq<Part>, id: Id)
    ensures PartOf(parts, id).Some? <==> id in Ids(parts)
  {
    KnownIff(parts, id);
  }

  lemma SpoiltBefore(asked: set<Id>, ids: seq<Id>, n: nat, i: nat)
    requires n <= |ids| && Spoils(asked, ids[..n], i)
    ensures Spoils(asked, ids, i) && !Proper(asked, ids)
  {
    assert ids[..n][..i] == ids[..i] && ids[..n][..i + 1] == ids[..i + 1];
    assert forall k :: 0 <= k <= i ==> ids[..i + 1][k] == ids[k];
  }

  lemma ProperNext(asked: set<Id>, ids: seq<Id>, n: nat)
    requires |ids| == n + 1 && Proper(asked, ids[..n])
    ensures Proper(asked, ids) <==> ids[n] in asked && ids[n] !in ids[..n]
    ensures !Proper(asked, ids) ==> Spoils(asked, ids, n)
  {
    assert ids[..n + 1] == ids;
    assert forall k :: 0 <= k < n ==> ids[..n][k] == ids[k];
  }

  // ---------- Assessments ----------

  function Asked(answers: seq<Answer>): seq<Id> {
    seq(|answers|, i requires 0 <= i < |answers| => answers[i].question)
  }

  /** Every answer is marked right or wrong, at its question's points; the points earned decide
      the verdict exactly, and the score is their percentage of the total, rounded. */
  ghost predicate Scores(a: Assessment, prior: nat, answers: seq<Answer>, s: Submission) {
    && s.attempt == prior + 1 && |s.marks| == |answers|
    && (forall i, q :: 0 <= i < |answers| && q in a.questions && q.id == answers[i].question ==>
          var right := Right(q, answers[i]);
          s.marks[i] == Mark(q.id, right, if right then q.points else 0))
    && var earned, total := Sum(Earned(s.marks)), Sum(Points(a.questions));
       && (s.passed <==> if total > 0 then earned * 100 >= a.passPercent * total else a.passPercent == 0)
       && (if total > 0 then Nearest(s.scorePercent, 100 * earned, total) else s.scorePercent == 0)
  }

  lemma MarkIs(questions: seq<Question>, a: Answer, q: Question)
    requires Unambiguous(questions) && q in questions && q.id == a.question
    ensures TickAnswer(questions, a) == Tick(q.id, Right(q, a))
    ensures Award(QuestionParts(questions), TickAnswer(questions, a)) == if Right(q, a) then q.points else 0
  {
    hide GradeAnswer, Right, QuestionOf, PartOf;
    var i :| 0 <= i < |questions| && questions[i] == q;
    QuestionAt(questions, i);
    SamePart(questions, q.id);
    RightIff(q, a);
  }

  lemma ScoresOf(a: Assessment, prior: nat, answers: seq<Answer>)
    requires Unambiguous(a.questions) && Submit(a, prior, answers).Ok?
    ensures Scores(a, prior, answers, Submit(a, prior, answers).value)
  {
    hide Fault, Award, TickAnswer, Right, RawPercent, Awarded, Total, Sum;
    var parts, ticks := QuestionParts(a.questions), TickAnswers(a.questions, answers);
    var s := Submit(a, prior, answers).value;
    var earned, total := Awarded(parts, ticks), Total(parts);
    TotalIsSum(parts);
    assert Points(a.questions) == seq(|parts|, i requires 0 <= i < |parts| => parts[i].points);
    AwardedIsSum(parts, ticks);
    forall i, q | 0 <= i < |answers| && q in a.questions && q.id == answers[i].question
      ensures s.marks[i] == Mark(q.id, Right(q, answers[i]), if Right(q, answers[i]) then q.points else 0)
    {
      MarkIs(a.questions, answers[i], q);
    }
    RawPercentIs(earned, total, a.passPercent);
  }

  lemma RawPercentIs(earned: nat, total: nat, percent: nat)
    ensures RawPercent(earned, total) >= percent as real <==>
              if total > 0 then earned * 100 >= percent * total else percent == 0
    ensures var shown := RoundHalfEven(RawPercent(earned, total));
            if total > 0 then Nearest(shown, 100 * earned, total) else shown == 0
  {
    hide Nearest;
    if total > 0 {
      RatioExact(earned, total, percent);
      PercentIsNearest(earned, total);
    }
  }

  /** The whole of submitting: refused when the attempts are used up, then for the first answer
      that is to no question or repeats another, and otherwise scored. */
  lemma SubmissionIff(a: Assessment, prior: nat, answers: seq<Answer>)
    requires Unambiguous(a.questions)
    ensures var r, asked, ids := Submit(a, prior, answers), (set q | q in a.questions :: q.id), Asked(answers);
            if a.maxAttempts.Some? && prior >= a.maxAttempts.value then r == Err(MaxAttemptsReached)
            else if Proper(asked, ids) then r.Ok? && Scores(a, prior, answers, r.value)
            else r.Err? && exists i: nat :: Spoils(asked, ids, i) && r.error == Spoilt(asked, ids[i])
  {
    hide Fault, Scores, Proper, Spoils, TickAnswer;
    var parts, ticks := QuestionParts(a.questions), TickAnswers(a.questions, answers);
    FaultIs(parts, ticks);
    QuestionIds(a.questions, answers);
    if Submit(a, prior, answers).Ok? {
      ScoresOf(a, prior, answers);
    }
  }

  lemma QuestionIds(questions: seq<Question>, answers: seq<Answer>)
    ensures Ids(QuestionParts(questions)) == set q | q in questions :: q.id
    ensures TickIds(TickAnswers(questions, answers)) == Asked(answers)
  {
    hide GradeAnswer;
    var parts := QuestionParts(questions);
    forall id ensures id in Ids(parts) <==> id in set q | q in questions :: q.id {
      if id in Ids(parts) {
        var i :| 0 <= i < |parts| && parts[i].id == id;
        assert questions[i] in questions;
      }
      if q :| q in questions && q.id == id {
        var i :| 0 <= i < |questions| && questions[i] == q;
        assert parts[i] in parts;
      }
    }
  }

  // ---------- Practice ----------

  function Tried(answers: seq<PracticeAnswer>): seq<Id> {
    seq(|answers|, i requires 0 <= i < |answers| => answers[i].item)
  }

  function Ones(marks: seq<Mark>): seq<nat> {
    seq(|marks|, i requires 0 <= i < |marks| => if marks[i].correct then 1 else 0)
  }

  ghost predicate Rates(items: seq<Item>, answers: seq<PracticeAnswer>, t: Attempt) {
    && |t.marks| == |answers| && t.totalCount == |items| && t.correctCount == Sum(Ones(t.marks))
    && (forall i, q :: 0 <= i < |answers| && q in items && q.id == answers[i].item ==>
          var right := RightItem(q, answers[i]);
          t.marks[i] == Mark(q.id, right, if right then q.points else 0))
    && Nearest(t.scorePercent, 100 * Sum(Earned(t.marks)), Max(1, Sum(ItemPoints(items))))
  }

  lemma {:induction false} CorrectCountIsSum(parts: seq<Part>, ticks: seq<Tick>)
    ensures CorrectCount(ticks) == Sum(Ones(Marks(parts, ticks)))
  {
    hide Award;
    if ticks != [] {
      var n := |ticks| - 1;
      CorrectCountIsSum(parts, ticks[..n]);
      assert Ones(Marks(parts, ticks))[..n] == Ones(Marks(parts, ticks[..n]));
    }
  }

  lemma ItemAt(items: seq<Item>, i: nat)
    requires DistinctIds(ItemParts(items)) && i < |items|
    ensures ItemOf(items, items[i].id) == Some(items[i])
  {
    var parts := ItemParts(items);
    assert forall j :: 0 <= j < |items| ==> parts[j].id == items[j].id;
  }

  lemma ItemMarkIs(items: seq<Item>, a: PracticeAnswer, q: Item)
    requires DistinctIds(ItemParts(items)) && q in items && q.id == a.item
    ensures TickPractice(items, a) == Tick(q.id, RightItem(q, a))
    ensures Award(ItemParts(items), TickPractice(items, a)) == if RightItem(q, a) then q.points else 0
  {
    hide GradePractice, RightItem, ItemOf, PartOf;
    var i :| 0 <= i < |items| && items[i] == q;
    ItemAt(items, i);
    SameItem(items, q.id);
    RightItemIff(q, a);
  }

  lemma RatesOf(items: seq<Item>, answers: seq<PracticeAnswer>)
    requires DistinctIds(ItemParts(items)) && Take(items, answers).Ok?
    ensures Rates(items, answers, Take(items, answers).value)
  {
    hide Fault, Award, TickPractice, RightItem, Awarded, Total, Sum, CorrectCount, Nearest, DistinctIds;
    var parts, ticks := ItemParts(items), TickAttempt(items, answers);
    var t := Take(items, answers).value;
    TotalIsSum(parts);
    assert ItemPoints(items) == seq(|parts|, i requires 0 <= i < |parts| => parts[i].points);
    AwardedIsSum(parts, ticks);
    CorrectCountIsSum(parts, ticks);
    forall i, q | 0 <= i < |answers| && q in items && q.id == answers[i].item
      ensures t.marks[i] == Mark(q.id, RightItem(q, answers[i]), if RightItem(q, answers[i]) then q.points else 0)
    {
      ItemMarkIs(items, answers[i], q);
    }
    PercentIsNearest(Awarded(parts, ticks), if Total(parts) == 0 then 1 else Total(parts));
  }

  /** The whole of a practice attempt: refused for an empty quiz, then for the first answer that
      is to no item or repeats another, and otherwise rated. */
  lemma AttemptIff(items: seq<Item>, answers: seq<PracticeAnswer>)
    requires DistinctIds(ItemParts(items))
    ensures var r, asked, ids := Take(items, answers), (set q | q in items :: q.id), Tried(answers);
            if items == [] then r == Err(EmptyQuiz)
            else if Proper(asked, ids) then r.Ok? && Rates(items, answers, r.value)
            else r.Err? && exists i: nat :: Spoils(asked, ids, i) && r.error == Spoilt(asked, ids[i])
  {
    hide Fault, Rates, Proper, Spoils, TickPractice, DistinctIds;
    FaultIs(ItemParts(items), TickAttempt(items, answers));
    ItemIds(items, answers);
    if Take(items, answers).Ok? {
      RatesOf(items, answers);
    }
  }

  lemma ItemIds(items: seq<Item>, answers: seq<PracticeAnswer>)
    ensures Ids(ItemParts(items)) == set q | q in items :: q.id
    ensures TickIds(TickAttempt(items, answers)) == Tried(answers)
  {
    hide GradePractice;
    var parts := ItemParts(items);
    forall id ensures id in Ids(parts) <==> id in set q | q in items :: q.id {
      if id in Ids(parts) {
        var i :| 0 <= i < |parts| && parts[i].id == id;
        assert items[i] in items;
      }
      if q :| q in items && q.id == id {
        var i :| 0 <= i < |items| && items[i] == q;
        assert parts[i] in parts;
      }
    }
  }
}

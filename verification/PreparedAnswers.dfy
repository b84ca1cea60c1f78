/** user/user_shared.go: aligning the submitted answers with the session's flips
    and capping the reports, and what the whole answer pipeline yields. */
module PreparedAnswers {
  import opened Wrappers
  import opened Answers

  /** A parsed flip identifier. */
  type Cid = seq<byte>

  /** What types.Answers records at one flip position. */
  datatype Mark = Mark(choice: Choice, grade: nat)

  const BLANK := Mark(NoAnswer, GRADE_NONE)

  predicate Names(parse: Hash -> Option<Cid>, a: FlipAnswer, f: Cid) {
    parse(a.hash) == Some(f)
  }

  /** The first answer whose hash names the flip. */
  function FindAnswer(parse: Hash -> Option<Cid>, answers: seq<FlipAnswer>, f: Cid): (r: Option<FlipAnswer>)
    ensures r.Some? ==> r.value in answers && Names(parse, r.value, f)
    ensures r.None? ==> forall a :: a in answers ==> !Names(parse, a, f)
  {
    if answers == [] then None
    else if Names(parse, answers[0], f) then Some(answers[0])
    else FindAnswer(parse, answers[1..], f)
  }

  /** The answer at position i, when there is one that is not blank. */
  function Found(parse: Hash -> Option<Cid>, answers: seq<FlipAnswer>, flips: seq<Cid>, i: nat): (r: Option<FlipAnswer>)
    requires i < |flips|
    ensures r.Some? ==> r.value.answer != NoAnswer
  {
    var a := FindAnswer(parse, answers, flips[i]);
    if a.Some? && a.value.answer == NoAnswer then None else a
  }

  function Reported(parse: Hash -> Option<Cid>, answers: seq<FlipAnswer>, flips: seq<Cid>, i: nat): bool
    requires i < |flips|
  {
    var a := Found(parse, answers, flips, i);
    a.Some? && a.value.grade == GRADE_REPORTED
  }

  /** How many of the first n positions were graded as a report. */
  function Reports(parse: Hash -> Option<Cid>, answers: seq<FlipAnswer>, flips: seq<Cid>, n: nat): (r: nat)
    requires n <= |flips|
    ensures r <= n
  {
    if n == 0 then 0
    else Reports(parse, answers, flips, n - 1) + (if Reported(parse, answers, flips, n - 1) then 1 else 0)
  }

  /** Report number count is dropped: count / flips >= 0.34, as an exact ratio. */
  predicate Dropped(count: nat, flips: nat) {
    100 * count >= 34 * flips
  }

  /** The mark for position i. */
  function MarkAt(parse: Hash -> Option<Cid>, answers: seq<FlipAnswer>, flips: seq<Cid>, isShort: bool, i: nat): Mark
    requires i < |flips|
  {
    var a := Found(parse, answers, flips, i);
    if a.None? then BLANK
    else
      var choice := if a.value.answer == Inappropriate then NoAnswer else a.value.answer;
      if isShort then Mark(choice, GRADE_NONE)
      else if a.value.grade == GRADE_REPORTED && Dropped(Reports(parse, answers, flips, i + 1), |flips|) then
        Mark(choice, GRADE_NONE)
      else Mark(choice, a.value.grade)
  }

  lemma {:induction false} FirstNamed(parse: Hash -> Option<Cid>, answers: seq<FlipAnswer>, f: Cid, k: nat)
    requires k < |answers| && Names(parse, answers[k], f) && forall j :: 0 <= j < k ==> !Names(parse, answers[j], f)
    ensures FindAnswer(parse, answers, f) == Some(answers[k])
  {
    if k > 0 {
      assert !Names(parse, answers[0], f);
      FirstNamed(parse, answers[1..], f, k - 1);
    }
  }

  /** What a position holds, by the first answer that names its flip: its direction, and
      in a long session its grade, unless that is a report too many. */
  ghost predicate Marked(parse: Hash -> Option<Cid>, answers: seq<FlipAnswer>, f: Cid, isShort: bool, mark: Mark) {
    && ((forall j :: 0 <= j < |answers| ==> !Names(parse, answers[j], f)) ==> mark == Mark(NoAnswer, 0))
    && forall k :: 0 <= k < |answers| && Names(parse, answers[k], f)
                   && (forall j :: 0 <= j < k ==> !Names(parse, answers[j], f)) ==>
         var a := answers[k];
         && (a.answer == Left || a.answer == Right ==> mark.choice == a.answer)
         && (a.answer == NoAnswer || a.answer == Inappropriate ==> mark.choice == NoAnswer)
         && (a.answer == NoAnswer || isShort ==> mark.grade == 0)
         && (a.answer != NoAnswer && !isShort ==> mark.grade == a.grade || (a.grade == 1 && mark.grade == 0))
  }

  lemma MarkAtIsMarked(parse: Hash -> Option<Cid>, answers: seq<FlipAnswer>, flips: seq<Cid>, isShort: bool, i: nat)
    requires i < |flips|
    ensures Marked(parse, answers, flips[i], isShort, MarkAt(parse, answers, flips, isShort, i))
  {
    var f := flips[i];
    forall k | 0 <= k < |answers| && Names(parse, answers[k], f)
               && (forall j :: 0 <= j < k ==> !Names(parse, answers[j], f))
      ensures FindAnswer(parse, answers, f) == Some(answers[k])
    {
      FirstNamed(parse, answers, f, k);
    }
    hide FindAnswer, Reports;
  }

  method PrepareAnswers(parse: Hash -> Option<Cid>, answers: seq<FlipAnswer>, flips: seq<Cid>, isShort: bool)
    returns (result: seq<Mark>)
    ensures |result| == |flips|
    ensures forall i :: 0 <= i < |flips| ==> result[i] == MarkAt(parse, answers, flips, isShort, i)
    ensures forall i :: 0 <= i < |flips| ==> Marked(parse, answers, flips[i], isShort, result[i])
  {
    result := seq(|flips|, i => BLANK);
    var reportsCount := 0;
    for i := 0 to |flips|
      invariant |result| == |flips|
      invariant forall j :: 0 <= j < i ==> result[j] == MarkAt(parse, answers, flips, isShort, j)
      invariant forall j :: i <= j < |flips| ==> result[j] == BLANK
      invariant !isShort ==> reportsCount == Reports(parse, answers, flips, i)
    {
      var answer := FindAnswer(parse, answers, flips[i]);
      if answer.None? || answer.value.answer == NoAnswer {
        continue;
      }
      if answer.value.answer == Left || answer.value.answer == Right {
        result := result[i := Mark(answer.value.answer, GRADE_NONE)];
      }
      if isShort {
        continue;
      }
      var grade := answer.value.grade;
      if grade == GRADE_REPORTED {
        reportsCount := reportsCount + 1;
        if Dropped(reportsCount, |flips|) {
          grade := GRADE_NONE;
        }
      }
      result := result[i := Mark(result[i].choice, grade)];
    }
    hide MarkAt, Marked;
    forall i | 0 <= i < |flips|
      ensures Marked(parse, answers, flips[i], isShort, result[i])
    {
      MarkAtIsMarked(parse, answers, flips, isShort, i);
    }
  }

  // ---------- the report cap ----------

  /** The largest count of reports that is not dropped. */
  function ReportCap(flips: nat): nat {
    if flips == 0 then 0 else (34 * flips - 1) / 100
  }

  lemma DroppedBeyondCap(count: nat, flips: nat)
    requires count >= 1
    ensures Dropped(count, flips) <==> count > ReportCap(flips)
  {
  }

  function MarkedReported(parse: Hash -> Option<Cid>, answers: seq<FlipAnswer>, flips: seq<Cid>, n: nat): nat
    requires n <= |flips|
  {
    if n == 0 then 0
    else
      MarkedReported(parse, answers, flips, n - 1)
      + (if MarkAt(parse, answers, flips, false, n - 1).grade == GRADE_REPORTED then 1 else 0)
  }

  lemma {:induction false} MarkedUpToCap(parse: Hash -> Option<Cid>, answers: seq<FlipAnswer>, flips: seq<Cid>, n: nat)
    requires n <= |flips|
    ensures var reports := Reports(parse, answers, flips, n);
            MarkedReported(parse, answers, flips, n)
            == if reports <= ReportCap(|flips|) then reports else ReportCap(|flips|)
  {
    if n > 0 {
      MarkedUpToCap(parse, answers, flips, n - 1);
      if Reported(parse, answers, flips, n - 1) {
        DroppedBeyondCap(Reports(parse, answers, flips, n), |flips|);
      }
    }
  }

  /** In the long session the positions marked as reported are the first k ones that
      were graded so, for the largest k below 34 percent of the flips. */
  lemma ReportsAreCapped(parse: Hash -> Option<Cid>, answers: seq<FlipAnswer>, flips: seq<Cid>)
    ensures forall i :: 0 <= i < |flips| ==>
              (MarkAt(parse, answers, flips, false, i).grade == GRADE_REPORTED
               <==> Reported(parse, answers, flips, i)
                    && Reports(parse, answers, flips, i + 1) <= ReportCap(|flips|))
    ensures var marked := MarkedReported(parse, answers, flips, |flips|);
            && marked <= Reports(parse, answers, flips, |flips|)
            && (flips != [] ==> 100 * marked < 34 * |flips|)
            && (marked < Reports(parse, answers, flips, |flips|) ==> 100 * (marked + 1) >= 34 * |flips|)
  {
    forall i | 0 <= i < |flips| && Reported(parse, answers, flips, i)
      ensures Dropped(Reports(parse, answers, flips, i + 1), |flips|)
              <==> Reports(parse, answers, flips, i + 1) > ReportCap(|flips|)
    {
      DroppedBeyondCap(Reports(parse, answers, flips, i + 1), |flips|);
    }
    MarkedUpToCap(parse, answers, flips, |flips|);
  }

  // ---------- the whole pipeline ----------

  /** The session's flips have identifiers that tell them apart. */
  ghost predicate DistinctFlips(parse: Hash -> Option<Cid>, flips: seq<Flip>, cids: seq<Cid>) {
    && |cids| == |flips|
    && (forall i :: 0 <= i < |flips| ==> parse(flips[i].hash) == Some(cids[i]))
    && (forall i, j :: 0 <= i < j < |cids| ==> cids[i] != cids[j])
  }

  /** The answers getAnswers gives, one per flip in order. */
  ghost predicate AnswersTo(flips: seq<Flip>, answers: seq<FlipAnswer>) {
    && |answers| == |flips|
    && forall i :: 0 <= i < |flips| ==> answers[i].hash == flips[i].hash
  }

  lemma FindAnswerFrom(parse: Hash -> Option<Cid>, answers: seq<FlipAnswer>, f: Cid, a: FlipAnswer)
    requires a in answers && Names(parse, a, f)
    requires forall b :: b in answers && Names(parse, b, f) ==> b == a
    ensures FindAnswer(parse, answers, f) == Some(a)
  {
  }

  lemma {:induction false} SelectedMembers(items: seq<FlipAnswer>, kept: seq<bool>, a: FlipAnswer)
    requires |items| == |kept|
    ensures a in Selected(items, kept) <==> exists i :: 0 <= i < |items| && kept[i] && items[i] == a
  {
    if items != [] {
      var n := |items| - 1;
      SelectedMembers(items[..n], kept[..n], a);
      if i :| 0 <= i < n && kept[..n][i] && items[..n][i] == a {
        assert kept[i] && items[i] == a;
      }
      if i :| 0 <= i < |items| && kept[i] && items[i] == a {
        assert i == n || (kept[..n][i] && items[..n][i] == a);
      }
    }
  }

  /** Aligning by identifier finds exactly the answer given to that flip, if the
      filter kept it. */
  lemma AlignmentFindsTheKeptAnswer(parse: Hash -> Option<Cid>, flips: seq<Flip>, cids: seq<Cid>,
                                    answers: seq<FlipAnswer>, kept: seq<bool>, i: nat)
    requires DistinctFlips(parse, flips, cids) && AnswersTo(flips, answers) && |kept| == |flips|
    requires i < |flips|
    ensures FindAnswer(parse, Selected(answers, kept), cids[i]) == if kept[i] then Some(answers[i]) else None
  {
    var chosen := Selected(answers, kept);
    forall a | a in chosen && Names(parse, a, cids[i])
      ensures kept[i] && a == answers[i]
    {
      SelectedMembers(answers, kept, a);
      var j :| 0 <= j < |answers| && kept[j] && answers[j] == a;
      assert parse(flips[j].hash) == Some(cids[j]);
      assert i == j;
    }
    if kept[i] {
      SelectedMembers(answers, kept, answers[i]);
      assert parse(flips[i].hash) == Some(cids[i]);
      FindAnswerFrom(parse, chosen, cids[i], answers[i]);
    }
  }

  function Answered(parse: Hash -> Option<Cid>, answers: seq<FlipAnswer>, cids: seq<Cid>, n: nat): nat
    requires n <= |cids|
  {
    if n == 0 then 0
    else
      Answered(parse, answers, cids, n - 1)
      + (if MarkAt(parse, answers, cids, true, n - 1).choice != NoAnswer then 1 else 0)
  }

  /** What getAnswers puts at position i. */
  ghost predicate GivenBy(flips: seq<Flip>, reversed: bool, answers: seq<FlipAnswer>)
    requires Decidable(flips)
  {
    && AnswersTo(flips, answers)
    && forall i :: 0 <= i < |flips| ==> answers[i].answer == Chosen(flips[i], reversed)
  }

  /** What one session asks for at position i: the byte before the last of a ready flip's
      hash decides its direction, a failed short session reverses it, and a flip the
      filter drops stays blank. */
  predicate Submitted(flips: seq<Flip>, kept: seq<bool>, reversed: bool, isShort: bool, grade: nat, i: nat, mark: Mark)
    requires Decidable(flips) && i < |flips| == |kept|
  {
    if kept[i] && flips[i].ready then
      var even := flips[i].hash[|flips[i].hash| - 2] % 2 == 0;
      && mark.choice == (if even == reversed then Right else Left)
      && (isShort ==> mark.grade == 0)
      && (!isShort ==> mark.grade == grade || (grade == 1 && mark.grade == 0))
    else mark == Mark(NoAnswer, 0)
  }

  /** Position i of the prepared answers holds the answer to flip i when the filter kept
      the flip, and is blank otherwise. */
  lemma {:induction false} PreparedAnswerAtEachPosition(parse: Hash -> Option<Cid>, flips: seq<Flip>, cids: seq<Cid>,
                                                        answers: seq<FlipAnswer>, reversed: bool, isShort: bool, i: nat)
    requires Decidable(flips) && DistinctFlips(parse, flips, cids) && GivenBy(flips, reversed, answers)
    requires i < |flips|
    ensures var mark := MarkAt(parse, Selected(answers, Greedy(flips)), cids, isShort, i);
            Submitted(flips, Greedy(flips), reversed, isShort, answers[i].grade, i, mark)
  {
    AlignmentFindsTheKeptAnswer(parse, flips, cids, answers, Greedy(flips), i);
  }

  /** getAnswers, the filter and prepareAnswers one after the other. */
  method SubmitAnswers(parse: Hash -> Option<Cid>, flips: seq<Flip>, cids: seq<Cid>, isShort: bool,
                       failShortSession: bool, randomValue: nat, draws: seq<nat>)
    returns (marks: seq<Mark>, ghost grades: seq<nat>)
    requires Decidable(flips) && DistinctFlips(parse, flips, cids) && |draws| == |flips|
    ensures |marks| == |grades| == |flips|
    ensures forall i :: 0 <= i < |flips| ==> GradedBy(randomValue, draws, i, grades[i])
    ensures forall i :: 0 <= i < |flips| ==>
              Submitted(flips, Greedy(flips), failShortSession && isShort, isShort, grades[i], i, marks[i])
  {
    var allAnswers := GetAnswers(flips, isShort, failShortSession, randomValue, draws);
    var answers := FilterAnswers(allAnswers, flips);
    marks := PrepareAnswers(parse, answers, cids, isShort);
    grades := seq(|flips|, i requires 0 <= i < |allAnswers| => allAnswers[i].grade);
    assert GivenBy(flips, failShortSession && isShort, allAnswers);
    hide MarkAt, Marked, GivenBy, Submitted, DistinctFlips, GradedBy, Greedy, GradeAt, Chosen;
    forall i | 0 <= i < |flips|
      ensures Submitted(flips, Greedy(flips), failShortSession && isShort, isShort, grades[i], i, marks[i])
    {
      PreparedAnswerAtEachPosition(parse, flips, cids, allAnswers, failShortSession && isShort, isShort, i);
    }
  }

  lemma ReadyKeptStep(flips: seq<Flip>, kept: seq<bool>, k: nat)
    requires k < |flips| == |kept|
    ensures ReadyKept(flips[..k + 1], kept[..k + 1])
         == ReadyKept(flips[..k], kept[..k]) + (if kept[k] && flips[k].ready then 1 else 0)
  {
    assert flips[..k + 1][..k] == flips[..k] && kept[..k + 1][..k] == kept[..k];
  }

  lemma {:induction false} AnsweredIsReadyKept(parse: Hash -> Option<Cid>, flips: seq<Flip>, cids: seq<Cid>,
                                               answers: seq<FlipAnswer>, reversed: bool, n: nat)
    requires Decidable(flips) && DistinctFlips(parse, flips, cids) && GivenBy(flips, reversed, answers)
    requires n <= |flips|
    ensures Answered(parse, Selected(answers, Greedy(flips)), cids, n)
         == ReadyKept(flips[..n], Greedy(flips)[..n])
  {
    if n > 0 {
      hide Greedy, Selected, MarkAt, DistinctFlips, GivenBy, Chosen;
      AnsweredIsReadyKept(parse, flips, cids, answers, reversed, n - 1);
      PreparedAnswerAtEachPosition(parse, flips, cids, answers, reversed, true, n - 1);
      ReadyKeptStep(flips, Greedy(flips), n - 1);
      hide ReadyKept;
    }
  }

  /** End to end: the answers a user submits plus the extra flips it could still
      have admitted are its regular flips, and no filter that keeps the regular
      flips within the budget would have let it answer more. */
  lemma SubmittedAnswersAreOptimal(parse: Hash -> Option<Cid>, flips: seq<Flip>, cids: seq<Cid>,
                                   answers: seq<FlipAnswer>, reversed: bool, kept: seq<bool>)
    requires Decidable(flips) && DistinctFlips(parse, flips, cids) && GivenBy(flips, reversed, answers)
    requires |kept| == |flips| && Respects(flips, kept)
    ensures Answered(parse, Selected(answers, Greedy(flips)), cids, |flips|)
            + Budget(flips, Greedy(flips)) == Regular(flips)
    ensures ReadyKept(flips, kept) <= Answered(parse, Selected(answers, Greedy(flips)), cids, |flips|)
         <= Regular(flips)
  {
    AnsweredIsReadyKept(parse, flips, cids, answers, reversed, |flips|);
    GreedyRespectsTheBudget(flips);
    ReadyPlusBudgetIsRegular(flips, Greedy(flips));
    GreedyKeepsMostReadyAnswers(flips, kept, |flips|);
    assert flips[..|flips|] == flips && kept[..|flips|] == kept;
    assert Greedy(flips)[..|flips|] == Greedy(flips);
  }
}

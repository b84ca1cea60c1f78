/** process/verification.go and user/user_shared.go: from the flips of a session
    to the answers that are submitted. Grades and draws are inputs. */
module Answers {
  newtype byte = b: int | 0 <= b < 256

  type Hash = seq<byte>

  /** Flip answers; Inappropriate is never produced by the bot itself. */
  datatype Choice = NoAnswer | Left | Right | Inappropriate

  const GRADE_NONE: nat := 0
  const GRADE_REPORTED: nat := 1

  /** A flip as the node lists it. */
  datatype Flip = Flip(hash: Hash, ready: bool, extra: bool)

  datatype FlipAnswer = FlipAnswer(grade: nat, answer: Choice, hash: Hash)

  // ---------- getAnswers ----------

  /** The hash of a ready flip has the byte that decides its answer. */
  predicate Decidable(flips: seq<Flip>) {
    forall i :: 0 <= i < |flips| && flips[i].ready ==> |flips[i].hash| >= 2
  }

  function DetermineFlipAnswer(f: Flip): (c: Choice)
    requires f.ready ==> |f.hash| >= 2
    ensures c == NoAnswer <==> !f.ready
  {
    if !f.ready then NoAnswer
    else if f.hash[|f.hash| - 2] % 2 == 0 then Left else Right
  }

  function ReverseAnswer(c: Choice): (r: Choice)
    ensures r == NoAnswer <==> c == NoAnswer
  {
    match c
    case Left => Right
    case Right => Left
    case _ => c
  }

  lemma ReverseIsAnInvolution(c: Choice)
    ensures ReverseAnswer(ReverseAnswer(c)) == c
    ensures ReverseAnswer(c) != c <==> c == Left || c == Right
  {
  }

  /** The answer a session gives to a flip. */
  function Chosen(f: Flip, reversed: bool): Choice
    requires f.ready ==> |f.hash| >= 2
  {
    if reversed then ReverseAnswer(DetermineFlipAnswer(f)) else DetermineFlipAnswer(f)
  }

  /** The grade of flip i when randomValue picked the mode: 1 reports everything, 2
      approves nothing, 3 keeps every draw; otherwise only the first increased
      grade survives and later ones become 2. */
  function GradeAt(randomValue: nat, draws: seq<nat>, i: nat): nat
    requires i < |draws|
  {
    if randomValue == 1 then GRADE_REPORTED
    else if randomValue == 2 then if draws[i] >= 2 then 0 else draws[i]
    else if randomValue == 3 then draws[i]
    else if draws[i] > 2 && exists j :: 0 <= j < i && draws[j] > 2 then 2
    else draws[i]
  }

  /** What each mode makes of the draws, apart from the way it is computed. */
  predicate GradedBy(randomValue: nat, draws: seq<nat>, i: nat, grade: nat)
    requires i < |draws|
  {
    match randomValue
    case 1 => grade == 1
    case 2 => grade < 2 && (draws[i] < 2 ==> grade == draws[i]) && (draws[i] >= 2 ==> grade == 0)
    case 3 => grade == draws[i]
    case _ =>
      && (draws[i] <= 2 ==> grade == draws[i])
      && (draws[i] > 2 && (forall j :: 0 <= j < i ==> draws[j] <= 2) ==> grade == draws[i])
      && (forall j :: 0 <= j < i && draws[j] > 2 && draws[i] > 2 ==> grade == 2)
  }

  method GetAnswers(flips: seq<Flip>, isShort: bool, failShortSession: bool,
                    randomValue: nat, draws: seq<nat>) returns (answers: seq<FlipAnswer>)
    requires Decidable(flips) && |draws| == |flips|
    ensures |answers| == |flips| && forall i :: 0 <= i < |flips| ==> answers[i].hash == flips[i].hash
    ensures forall i :: 0 <= i < |flips| ==> answers[i].grade == GradeAt(randomValue, draws, i)
    ensures forall i :: 0 <= i < |flips| ==> answers[i].answer == Chosen(flips[i], failShortSession && isShort)
    ensures forall i :: 0 <= i < |flips| && !flips[i].ready ==> answers[i].answer == NoAnswer
    ensures forall i :: 0 <= i < |flips| && flips[i].ready ==>
              var even := flips[i].hash[|flips[i].hash| - 2] % 2 == 0;
              answers[i].answer == if even == (failShortSession && isShort) then Right else Left
    ensures forall i :: 0 <= i < |flips| ==> GradedBy(randomValue, draws, i, answers[i].grade)
  {
    var reportAll := randomValue == 1;
    var noApproves := randomValue == 2;
    var severalIncreasedGrades := randomValue == 3;
    var increasedGradeCnt := 0;
    answers := [];
    for k := 0 to |flips|
      invariant |answers| == k && forall i :: 0 <= i < k ==> answers[i].hash == flips[i].hash
      invariant forall i :: 0 <= i < k ==> answers[i].grade == GradeAt(randomValue, draws, i)
      invariant forall i :: 0 <= i < k ==> answers[i].answer == Chosen(flips[i], failShortSession && isShort)
      invariant !reportAll && !noApproves && !severalIncreasedGrades ==>
                  increasedGradeCnt == if exists j :: 0 <= j < k && draws[j] > 2 then 1 else 0
    {
      var grade;
      if reportAll {
        grade := GRADE_REPORTED;
      } else {
        grade := draws[k];
        if noApproves && grade >= 2 {
          grade := 0;
        }
        if !severalIncreasedGrades && grade > 2 && increasedGradeCnt == 1 {
          grade := 2;
        }
        if grade > 2 {
          increasedGradeCnt := increasedGradeCnt + 1;
        }
      }
      var answer := DetermineFlipAnswer(flips[k]);
      if failShortSession && isShort {
        answer := ReverseAnswer(answer);
      }
      answers := answers + [FlipAnswer(grade, answer, flips[k].hash)];
    }
  }

  /** Unless the draw allows several, at most one flip gets an increased grade. */
  lemma AtMostOneIncreasedGrade(randomValue: nat, draws: seq<nat>, i: nat, j: nat)
    requires i < j < |draws| && randomValue != 3
    ensures !(GradeAt(randomValue, draws, i) > 2 && GradeAt(randomValue, draws, j) > 2)
  {
  }

  // ---------- the filter of submitAnswers ----------

  /** The extra flips a selection may still admit after these flips: one is earned
      by every kept flip that is not ready, one is spent by every kept extra flip. */
  function Budget(flips: seq<Flip>, kept: seq<bool>): int
    requires |flips| == |kept|
  {
    if flips == [] then 0
    else
      var n := |flips| - 1;
      Budget(flips[..n], kept[..n])
      - (if kept[n] && flips[n].extra then 1 else 0)
      + (if kept[n] && !flips[n].ready then 1 else 0)
  }

  /** A selection that keeps every regular flip and pays for every extra one. */
  predicate Respects(flips: seq<Flip>, kept: seq<bool>)
    requires |flips| == |kept|
  {
    flips == [] ||
    var n := |flips| - 1;
    && Respects(flips[..n], kept[..n])
    && (if flips[n].extra then kept[n] ==> Budget(flips[..n], kept[..n]) > 0 else kept[n])
  }

  /** The selection submitAnswers makes. */
  function Greedy(flips: seq<Flip>): (kept: seq<bool>)
    ensures |kept| == |flips|
  {
    if flips == [] then []
    else
      var n := |flips| - 1;
      var before := Greedy(flips[..n]);
      before + [!flips[n].extra || Budget(flips[..n], before) > 0]
  }

  function Selected<T>(items: seq<T>, kept: seq<bool>): seq<T>
    requires |items| == |kept|
  {
    if items == [] then []
    else
      var n := |items| - 1;
      Selected(items[..n], kept[..n]) + (if kept[n] then [items[n]] else [])
  }

  function ReadyKept(flips: seq<Flip>, kept: seq<bool>): nat
    requires |flips| == |kept|
  {
    if flips == [] then 0
    else
      var n := |flips| - 1;
      ReadyKept(flips[..n], kept[..n]) + (if kept[n] && flips[n].ready then 1 else 0)
  }

  function Regular(flips: seq<Flip>): nat {
    if flips == [] then 0
    else Regular(flips[..|flips| - 1]) + (if flips[|flips| - 1].extra then 0 else 1)
  }

  /** One round of the filter loop. */
  lemma FilterStep<T>(items: seq<T>, flips: seq<Flip>, n: nat)
    requires n < |items| && n < |flips|
    ensures var before, after := Greedy(flips[..n]), Greedy(flips[..n + 1]);
            var budget := Budget(flips[..n], before);
            var keeps := !flips[n].extra || budget > 0;
            && Budget(flips[..n + 1], after)
               == budget - (if keeps && flips[n].extra then 1 else 0)
                         + (if keeps && !flips[n].ready then 1 else 0)
            && Selected(items[..n + 1], after)
               == Selected(items[..n], before) + (if keeps then [items[n]] else [])
  {
    assert flips[..n + 1][..n] == flips[..n] && items[..n + 1][..n] == items[..n];
    assert Greedy(flips[..n + 1])[..n] == Greedy(flips[..n]);
  }

  lemma {:induction false} GreedyOfPrefix(flips: seq<Flip>, n: nat)
    requires n <= |flips|
    ensures Greedy(flips)[..n] == Greedy(flips[..n])
  {
    if n < |flips| {
      var k := |flips| - 1;
      GreedyOfPrefix(flips[..k], n);
      assert flips[..k][..n] == flips[..n];
      assert Greedy(flips)[..n] == Greedy(flips[..k])[..n];
    } else {
      assert flips[..n] == flips;
    }
  }

  lemma EmptyFilter<T>(items: seq<T>, flips: seq<Flip>)
    ensures Greedy(flips[..0]) == [] && Budget(flips[..0], []) == 0
    ensures Selected(items[..0], []) == []
  {
  }

  /** The filter loop; it stops at the end of the shorter list. */
  method FilterAnswers(allAnswers: seq<FlipAnswer>, flips: seq<Flip>) returns (answers: seq<FlipAnswer>)
    ensures |allAnswers| == |flips| ==> answers == Selected(allAnswers, Greedy(flips))
    ensures var n := if |allAnswers| < |flips| then |allAnswers| else |flips|;
            answers == Selected(allAnswers[..n], Greedy(flips[..n]))
  {
    var allowableExtraFlips: int := 0;
    answers := [];
    var i := 0;
    EmptyFilter(allAnswers, flips);
    hide *;
    while i < |allAnswers|
      invariant 0 <= i <= |allAnswers| && i <= |flips|
      invariant allowableExtraFlips == Budget(flips[..i], Greedy(flips[..i])) >= 0
      invariant answers == Selected(allAnswers[..i], Greedy(flips[..i]))
    {
      if i >= |flips| {
        break;
      }
      FilterStep(allAnswers, flips, i);
      if flips[i].extra {
        if allowableExtraFlips == 0 {
          i := i + 1;
          continue;
        }
        allowableExtraFlips := allowableExtraFlips - 1;
      }
      answers := answers + [allAnswers[i]];
      if !flips[i].ready {
        allowableExtraFlips := allowableExtraFlips + 1;
      }
      i := i + 1;
    }
    assert |allAnswers| == |flips| ==> allAnswers[..i] == allAnswers && flips[..i] == flips;
  }

  lemma {:induction false} GreedyRespectsTheBudget(flips: seq<Flip>)
    ensures Respects(flips, Greedy(flips))
  {
    if flips != [] {
      var n := |flips| - 1;
      GreedyRespectsTheBudget(flips[..n]);
      assert Greedy(flips)[..n] == Greedy(flips[..n]);
    }
  }

  /** Conservation, for any selection within the budget and hence at every prefix:
      ready answers kept plus the remaining budget are the regular flips seen. */
  lemma {:induction false} ReadyPlusBudgetIsRegular(flips: seq<Flip>, kept: seq<bool>)
    requires |flips| == |kept| && Respects(flips, kept)
    ensures ReadyKept(flips, kept) + Budget(flips, kept) == Regular(flips)
    ensures Budget(flips, kept) >= 0
  {
    if flips != [] {
      ReadyPlusBudgetIsRegular(flips[..|flips| - 1], kept[..|flips| - 1]);
    }
  }

  lemma {:induction false} GreedyBudgetIsLeast(flips: seq<Flip>, kept: seq<bool>)
    requires |flips| == |kept| && Respects(flips, kept)
    ensures Budget(flips, Greedy(flips)) <= Budget(flips, kept)
  {
    if flips != [] {
      var n := |flips| - 1;
      GreedyBudgetIsLeast(flips[..n], kept[..n]);
      ReadyPlusBudgetIsRegular(flips[..n], kept[..n]);
      assert Greedy(flips)[..n] == Greedy(flips[..n]);
    }
  }

  lemma {:induction false} RespectsPrefix(flips: seq<Flip>, kept: seq<bool>, n: nat)
    requires |flips| == |kept| && Respects(flips, kept) && n <= |flips|
    ensures Respects(flips[..n], kept[..n])
  {
    if n < |flips| {
      var k := |flips| - 1;
      RespectsPrefix(flips[..k], kept[..k], n);
      assert flips[..k][..n] == flips[..n] && kept[..k][..n] == kept[..n];
    } else {
      assert flips[..n] == flips && kept[..n] == kept;
    }
  }

  /** No selection that keeps every regular flip within the budget keeps more ready
      answers than the greedy one, at any point of the list. */
  lemma GreedyKeepsMostReadyAnswers(flips: seq<Flip>, kept: seq<bool>, n: nat)
    requires |flips| == |kept| && Respects(flips, kept) && n <= |flips|
    ensures ReadyKept(flips[..n], kept[..n]) <= ReadyKept(flips[..n], Greedy(flips)[..n])
  {
    RespectsPrefix(flips, kept, n);
    GreedyOfPrefix(flips, n);
    GreedyRespectsTheBudget(flips[..n]);
    ReadyPlusBudgetIsRegular(flips[..n], kept[..n]);
    ReadyPlusBudgetIsRegular(flips[..n], Greedy(flips[..n]));
    GreedyBudgetIsLeast(flips[..n], kept[..n]);
  }
}

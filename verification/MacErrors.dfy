/**
 * How the errors of several policies combine into one.
 */
module MacErrors {
  const EPERM := 1
  const ENOENT := 2
  const ESRCH := 3
  const EDEADLK := 11
  const ENOMEM := 12
  const EACCES := 13
  const EBUSY := 16
  const EEXIST := 17
  const EINVAL := 22

  function ErrorSelect(error1: int, error2: int): int {
    if error1 == EDEADLK || error2 == EDEADLK then EDEADLK
    else if error1 == EINVAL || error2 == EINVAL then EINVAL
    else if error1 == ESRCH || error2 == ESRCH then ESRCH
    else if error1 == ENOENT || error2 == ENOENT then ENOENT
    else if error1 == EACCES || error2 == EACCES then EACCES
    else if error1 == EPERM || error2 == EPERM then EPERM
    else if error1 != 0 then error1
    else error2
  }

  /** Precedence: success lowest, then the unnamed errors, then the six named ones. */
  function Rank(e: int): (r: nat)
    ensures r == 0 <==> e == 0
    ensures r >= 2 <==> e in {EDEADLK, EINVAL, ESRCH, ENOENT, EACCES, EPERM}
  {
    if e == 0 then 0
    else if e == EPERM then 2
    else if e == EACCES then 3
    else if e == ENOENT then 4
    else if e == ESRCH then 5
    else if e == EINVAL then 6
    else if e == EDEADLK then 7
    else 1
  }

  /** The selection is one of its arguments, of the higher rank, and the first on a tie. */
  lemma SelectsHigherRank(a: int, b: int)
    ensures ErrorSelect(a, b) == if Rank(a) >= Rank(b) then a else b
  {
  }

  /** In either order of the arguments 11 is selected before 22, that before 3, then 2, 13 and 1,
      then any other error, and every error before 0. */
  lemma SelectionOrder(e: int)
    ensures ErrorSelect(11, e) == ErrorSelect(e, 11) == 11
    ensures e != 11 ==> ErrorSelect(22, e) == ErrorSelect(e, 22) == 22
    ensures e !in {11, 22} ==> ErrorSelect(3, e) == ErrorSelect(e, 3) == 3
    ensures e !in {11, 22, 3} ==> ErrorSelect(2, e) == ErrorSelect(e, 2) == 2
    ensures e !in {11, 22, 3, 2} ==> ErrorSelect(13, e) == ErrorSelect(e, 13) == 13
    ensures e !in {11, 22, 3, 2, 13} ==> ErrorSelect(1, e) == ErrorSelect(e, 1) == 1
    ensures e !in {11, 22, 3, 2, 13, 1} ==> forall d :: d !in {0, 11, 22, 3, 2, 13, 1} ==> ErrorSelect(d, e) == d
    ensures ErrorSelect(0, e) == ErrorSelect(e, 0) == e
  {
  }

  lemma SelectIsMonoid(a: int, b: int, c: int)
    ensures ErrorSelect(a, ErrorSelect(b, c)) == ErrorSelect(ErrorSelect(a, b), c)
    ensures ErrorSelect(a, 0) == a && ErrorSelect(0, a) == a
  {
    SelectsHigherRank(a, b);
    SelectsHigherRank(b, c);
    SelectsHigherRank(a, ErrorSelect(b, c));
    SelectsHigherRank(ErrorSelect(a, b), c);
  }

  /** The order of the arguments matters exactly for two different unnamed errors. */
  lemma SelectCommutes(a: int, b: int)
    ensures ErrorSelect(a, b) == ErrorSelect(b, a) <==> a == b || Rank(a) != 1 || Rank(b) != 1
  {
    SelectsHigherRank(a, b);
    SelectsHigherRank(b, a);
  }

  /** The result of asking policies in turn, each new answer selected against the old one. */
  function Combined(answers: seq<int>): int {
    if answers == [] then 0
    else ErrorSelect(answers[|answers| - 1], Combined(answers[..|answers| - 1]))
  }

  /** The combined error is an answer of maximal rank, and among those the last. */
  lemma {:induction false} CombinedIsMaximal(answers: seq<int>)
    ensures forall i :: 0 <= i < |answers| ==> Rank(answers[i]) <= Rank(Combined(answers))
    ensures Combined(answers) == 0 <==> forall i :: 0 <= i < |answers| ==> answers[i] == 0
    ensures Combined(answers) != 0 ==> exists i :: 0 <= i < |answers| && LastOfRank(answers, i) && answers[i] == Combined(answers)
  {
    if answers == [] {
    } else {
      var n := |answers| - 1;
      var init, last := answers[..n], answers[n];
      CombinedIsMaximal(init);
      SelectsHigherRank(last, Combined(init));
      if Combined(answers) != 0 {
        if Rank(last) >= Rank(Combined(init)) {
          assert LastOfRank(answers, n);
        } else {
          var i :| 0 <= i < |init| && LastOfRank(init, i) && init[i] == Combined(init);
          assert LastOfRank(answers, i) && answers[i] == Combined(answers);
        }
      }
    }
  }

  predicate LastOfRank(answers: seq<int>, i: int) {
    0 <= i < |answers| && forall j :: i < j < |answers| ==> Rank(answers[j]) < Rank(answers[i])
  }

  /** When the combined error is a named one, the order of the policies does not matter. */
  lemma {:induction false} NamedErrorsIgnoreOrder(a: seq<int>, b: seq<int>)
    requires multiset(a) == multiset(b) && Rank(Combined(a)) != 1
    ensures Combined(b) == Combined(a)
  {
    CombinedIsMaximal(a);
    CombinedIsMaximal(b);
    assert forall i :: 0 <= i < |a| ==> a[i] in multiset(a);
    assert forall i :: 0 <= i < |b| ==> b[i] in multiset(b);
    assert Rank(Combined(a)) == Rank(Combined(b));
  }

  /** The combined error in numerals: the first of 11, 22, 3, 2, 13 and 1 that is among the answers;
      else the last answer that is not 0, if there is one. */
  lemma {:induction false} CombinedInNumerals(answers: seq<int>)
    ensures 11 in answers ==> Combined(answers) == 11
    ensures 11 !in answers && 22 in answers ==> Combined(answers) == 22
    ensures 11 !in answers && 22 !in answers && 3 in answers ==> Combined(answers) == 3
    ensures 11 !in answers && 22 !in answers && 3 !in answers && 2 in answers ==> Combined(answers) == 2
    ensures 11 !in answers && 22 !in answers && 3 !in answers && 2 !in answers && 13 in answers ==> Combined(answers) == 13
    ensures 11 !in answers && 22 !in answers && 3 !in answers && 2 !in answers && 13 !in answers && 1 in answers ==>
              Combined(answers) == 1
    ensures Combined(answers) != 0 ==> Combined(answers) in answers
    ensures (forall i :: 0 <= i < |answers| ==> answers[i] == 0) ==> Combined(answers) == 0
    ensures Combined(answers) !in {0, 11, 22, 3, 2, 13, 1} ==>
              exists i :: 0 <= i < |answers| && answers[i] == Combined(answers) && forall j :: i < j < |answers| ==> answers[j] == 0
  {
    CombinedIsMaximal(answers);
    var c := Combined(answers);
    if c != 0 {
      var i :| 0 <= i < |answers| && LastOfRank(answers, i) && answers[i] == c;
      assert c in answers;
    }
  }
}

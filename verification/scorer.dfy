/**
 * The scorer (`compareAnswers`): a left fold over the answer key's indices into a
 * (correct, wrong, empty) tally.
 */
module Scorer {
  import opened ResultStore

  /** The `Triple(correct, wrong, empty)` accumulated by the fold. */
  datatype Tally = Tally(correct: nat, wrong: nat, empty: nat)

  /** How one question of the key is scored. */
  datatype Verdict = Correct | Wrong | Empty

  /**
   * The `when` of the fold for index `i` of the key: no user answer at `i`, or an empty
   * string, is empty; otherwise equal strings are correct and different ones wrong.
   */
  function VerdictAt(key: seq<string>, user: seq<string>, i: nat): (v: Verdict)
    requires i < |key|
    ensures v == Empty <==> i >= |user| || user[i] == ""
    ensures v == Correct <==> i < |user| && user[i] != "" && key[i] == user[i]
    ensures v == Wrong <==> i < |user| && user[i] != "" && key[i] != user[i]
  {
    if i >= |user| || user[i] == "" then Empty
    else if key[i] == user[i] then Correct
    else Wrong
  }

  /** The `acc.copy(…)` that adds one to the count the verdict names. */
  function Count(acc: Tally, v: Verdict): (t: Tally)
    ensures forall w :: Counted(t, w) == Counted(acc, w) + (if w == v then 1 else 0)
  {
    match v
    case Correct => acc.(correct := acc.correct + 1)
    case Wrong => acc.(wrong := acc.wrong + 1)
    case Empty => acc.(empty := acc.empty + 1)
  }

  /** The fold after the first `n` indices of the key, starting from `Triple(0, 0, 0)`. */
  function TallyUpTo(key: seq<string>, user: seq<string>, n: nat): (t: Tally)
    requires n <= |key|
    ensures t.correct + t.wrong + t.empty == n
  {
    if n == 0 then Tally(0, 0, 0)
    else Count(TallyUpTo(key, user, n - 1), VerdictAt(key, user, n - 1))
  }

  /** The tally of `user` against the whole `key`: every question of the key is counted once. */
  function CompareLists(key: seq<string>, user: seq<string>): (t: Tally)
    ensures t.correct + t.wrong + t.empty == |key|
  {
    TallyUpTo(key, user, |key|)
  }

  /** The indices below `n` that receive verdict `v`. */
  function IndicesWith(key: seq<string>, user: seq<string>, v: Verdict, n: nat): set<nat>
    requires n <= |key|
  {
    set i: nat | i < n && VerdictAt(key, user, i) == v
  }

  /** The count of the tally that `v` names. */
  function Counted(t: Tally, v: Verdict): nat {
    match v
    case Correct => t.correct
    case Wrong => t.wrong
    case Empty => t.empty
  }

  /** Each count of the fold is the number of key indices with that verdict. */
  lemma {:induction false} TallyUpToCounts(key: seq<string>, user: seq<string>, n: nat, v: Verdict)
    requires n <= |key|
    ensures Counted(TallyUpTo(key, user, n), v) == |IndicesWith(key, user, v, n)|
  {
    if n > 0 {
      TallyUpToCounts(key, user, n - 1, v);
      IndicesStep(key, user, v, n);
    }
  }

  lemma IndicesStep(key: seq<string>, user: seq<string>, v: Verdict, n: nat)
    requires 0 < n <= |key|
    ensures |IndicesWith(key, user, v, n)| ==
      |IndicesWith(key, user, v, n - 1)| + (if VerdictAt(key, user, n - 1) == v then 1 else 0)
  {
    var before, now := IndicesWith(key, user, v, n - 1), IndicesWith(key, user, v, n);
    if VerdictAt(key, user, n - 1) == v {
      assert now == before + {n - 1};
      assert n - 1 !in before;
    } else {
      assert now == before;
    }
  }

  /**
   * The scoring rule stated on indices: `correct` counts the indices of the key where the
   * user gave a non-empty answer equal to the key, `wrong` those with a different
   * non-empty answer, and `empty` those the user left empty or did not reach.
   */
  lemma CompareListsCounts(key: seq<string>, user: seq<string>)
    ensures CompareLists(key, user).correct ==
      |set i: nat | i < |key| && i < |user| && user[i] != "" && key[i] == user[i]|
    ensures CompareLists(key, user).wrong ==
      |set i: nat | i < |key| && i < |user| && user[i] != "" && key[i] != user[i]|
    ensures CompareLists(key, user).empty ==
      |set i: nat | i < |key| && (i >= |user| || user[i] == "")|
  {
    TallyUpToCounts(key, user, |key|, Correct);
    TallyUpToCounts(key, user, |key|, Wrong);
    TallyUpToCounts(key, user, |key|, Empty);
    assert IndicesWith(key, user, Correct, |key|) ==
      set i: nat | i < |key| && i < |user| && user[i] != "" && key[i] == user[i];
    assert IndicesWith(key, user, Wrong, |key|) ==
      set i: nat | i < |key| && i < |user| && user[i] != "" && key[i] != user[i];
    assert IndicesWith(key, user, Empty, |key|) ==
      set i: nat | i < |key| && (i >= |user| || user[i] == "");
  }

  /** User answers past the end of the key are ignored. */
  lemma {:induction false} UserTailIgnored(key: seq<string>, user: seq<string>, extra: seq<string>)
    requires |key| <= |user|
    ensures CompareLists(key, user + extra) == CompareLists(key, user)
  {
    TallyUpToPrefix(key, user, extra, |key|);
  }

  lemma {:induction false} TallyUpToPrefix(key: seq<string>, user: seq<string>, extra: seq<string>, n: nat)
    requires n <= |key| <= |user|
    ensures TallyUpTo(key, user + extra, n) == TallyUpTo(key, user, n)
  {
    if n > 0 {
      TallyUpToPrefix(key, user, extra, n - 1);
      assert (user + extra)[n - 1] == user[n - 1];
    }
  }

  /** A user list shorter than the key scores every missing question as empty. */
  lemma {:induction false} MissingAnswersAreEmpty(key: seq<string>, user: seq<string>)
    requires |user| <= |key|
    ensures CompareLists(key, user) ==
      var head := CompareLists(key[..|user|], user);
      Tally(head.correct, head.wrong, head.empty + (|key| - |user|))
  {
    TallyUpToOfPrefix(key, user, |user|);
    TallyUpToMissing(key, user, |key|);
  }

  lemma {:induction false} TallyUpToOfPrefix(key: seq<string>, user: seq<string>, n: nat)
    requires n <= |user| <= |key|
    ensures TallyUpTo(key, user, n) == TallyUpTo(key[..|user|], user, n)
  {
    if n > 0 {
      TallyUpToOfPrefix(key, user, n - 1);
    }
  }

  lemma {:induction false} TallyUpToMissing(key: seq<string>, user: seq<string>, n: nat)
    requires |user| <= n <= |key|
    ensures TallyUpTo(key, user, n) ==
      var head := TallyUpTo(key, user, |user|);
      Tally(head.correct, head.wrong, head.empty + (n - |user|))
  {
    if n > |user| {
      TallyUpToMissing(key, user, n - 1);
    }
  }

  /** A list compared with itself has no wrong answers; only its empty strings are not correct. */
  lemma {:induction false} SelfComparison(answers: seq<string>)
    ensures CompareLists(answers, answers).wrong == 0
    ensures CompareLists(answers, answers).empty == |set i: nat | i < |answers| && answers[i] == ""|
  {
    CompareListsCounts(answers, answers);
    assert (set i: nat | i < |answers| && i < |answers| && answers[i] != "" && answers[i] != answers[i]) == {};
    assert (set i: nat | i < |answers| && (i >= |answers| || answers[i] == "")) ==
           (set i: nat | i < |answers| && answers[i] == "");
  }

  /** The example of a key `[A,B,C,D,E]` against `[A,C,C,D,""]`; the blank label "Boş" is an ordinary answer. */
  lemma ScoringExamples()
    ensures CompareLists(["A", "B", "C", "D", "E"], ["A", "C", "C", "D", ""]) == Tally(3, 1, 1)
    ensures CompareLists(["Boş", "A"], ["Boş", "Boş"]) == Tally(1, 1, 0)
  {
    var key, user := ["A", "B", "C", "D", "E"], ["A", "C", "C", "D", ""];
    assert TallyUpTo(key, user, 1) == Tally(1, 0, 0);
    assert TallyUpTo(key, user, 2) == Tally(1, 1, 0);
    assert TallyUpTo(key, user, 3) == Tally(2, 1, 0);
    assert TallyUpTo(key, user, 4) == Tally(3, 1, 0);
    assert TallyUpTo(key, user, 5) == Tally(3, 1, 1);
    var key2, user2 := ["Boş", "A"], ["Boş", "Boş"];
    assert TallyUpTo(key2, user2, 1) == Tally(1, 0, 0);
    assert TallyUpTo(key2, user2, 2) == Tally(1, 1, 0);
  }

  /** Against an empty user list every question of the key is empty. */
  lemma {:induction false} EmptyUserAllEmpty(key: seq<string>)
    ensures CompareLists(key, []) == Tally(0, 0, |key|)
  {
    TallyUpToMissing(key, [], |key|);
  }

  /**
   * `compareAnswers()`: loads the answer key and the user's answers (a missing file loads
   * as the empty list) and tallies them.
   */
  function CompareAnswers(dir: FilesDir): (t: Tally)
    reads dir
    ensures t.correct + t.wrong + t.empty == |dir.LoadAnswersFromXml(AnswerKeyFile)|
    ensures t == CompareLists(dir.LoadAnswersFromXml(AnswerKeyFile), dir.LoadAnswersFromXml(UserAnswersFile))
    ensures AnswerKeyFile !in dir.files ==> t == Tally(0, 0, 0)
    ensures AnswerKeyFile in dir.files && UserAnswersFile !in dir.files ==>
      t == Tally(0, 0, |dir.files[AnswerKeyFile]|)
  {
    var key := dir.LoadAnswersFromXml(AnswerKeyFile);
    EmptyUserAllEmpty(key);
    CompareLists(key, dir.LoadAnswersFromXml(UserAnswersFile))
  }
}

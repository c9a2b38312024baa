/** A worked run of the quiz, from a first visit through a right answer, a
    wrong one, the full lockout and the next right answer. The answers are
    passed in as parameters fixed by the preconditions. */
module Scenarios {
  import opened Text
  import opened QuizData
  import opened Storage
  import opened QuizPage

  /** "cento" answers the first question. */
  lemma CentoIsRight(cento: string)
    requires cento == "cento"
    ensures IsCorrect(0, cento)
  {
    AnswersAreNormal(0, 1);
  }

  /** "due" answers the second question. */
  lemma DueIsRight(due: string)
    requires due == "due"
    ensures IsCorrect(1, due)
  {
    AnswersAreNormal(1, 1);
  }

  /** "xyz" does not answer the second question. */
  lemma XyzIsWrong(index: nat, xyz: string)
    requires index == 1 && xyz == "xyz"
    ensures !IsCorrect(index, xyz)
  {
    XyzIsNormal(xyz);
    XyzNotListed(xyz);
    NotAnAnswer(index, xyz);
  }

  lemma XyzNotListed(xyz: string)
    requires xyz == "xyz"
    ensures forall k :: 0 <= k < |Answers[1]| ==> Answers[1][k] != xyz
  {
    var due := Answers[1];
    assert |due| == 2 && |due[0]| == 1 && due[1][0] == 'd';
    assert |xyz| == 3 && xyz[0] == 'x';
  }

  lemma NotAnAnswer(index: nat, a: string)
    requires index < |Answers| && Normalize(a) == a
    requires forall k :: 0 <= k < |Answers[index]| ==> Answers[index][k] != a
    ensures !IsCorrect(index, a)
  {
    forall k | 0 <= k < |Answers[index]|
      ensures Normalize(Answers[index][k]) != Normalize(a)
    {
      AnswersAreNormal(index, k);
    }
  }

  lemma XyzIsNormal(xyz: string)
    requires xyz == "xyz"
    ensures Normalize(xyz) == xyz
  {
    assert Lower(xyz) == xyz;
    NormalizeOfNormal(xyz);
  }

  /** A page showing question `index`, ready for an answer once typed out. */
  predicate OnQuestion(p: Page, index: nat) {
    Persisted(p) && p.index == index && !p.intro && !p.completed && !p.blocked
  }

  /** First visit: start, read the first question, answer "cento". */
  lemma FirstAnswer(store: Store, cento: string)
    requires Untouched(store) && cento == "cento"
    ensures OnQuestion(Submit(Edit(QuestionTyped(Start(Load(store))), cento)), 1)
  {
    FirstVisit(store);
    LoadPersists(store);
    var loaded := Load(store);
    var started := Start(loaded);
    StartPersists(loaded);
    var typed := QuestionTyped(started);
    var edited := Edit(typed, cento);
    assert FormEnabled(edited) && edited.index == 0 && edited.input == cento;
    CentoIsRight(cento);
    SubmitPersists(edited);
  }

  /** On the second question, answer "xyz": the form locks for 3599 seconds
      on the same question, further answers are ignored, and a reload during
      the lockout comes back locked with the same time left. */
  lemma WrongAnswer(q: Page, xyz: string, due: string)
    requires OnQuestion(q, 1) && xyz == "xyz"
    ensures var w := Submit(Edit(QuestionTyped(q), xyz));
            && Persisted(w) && w.index == 1 && w.blocked && w.timer == Lockout
            && w.typed && !w.intro && !w.completed
            && Submit(Edit(w, due)) == w && WellFormed(w.store)
            && Load(w.store).blocked && Load(w.store).timer == Lockout
  {
    XyzIsWrong(q.index, xyz);
    var typed := QuestionTyped(q);
    SubmitPersists(Edit(typed, xyz));
    ReloadResumes(Submit(Edit(typed, xyz)));
  }

  /** Throughout the lockout the form stays blocked; once it has run out,
      "due" answers the second question. */
  lemma AfterLockout(w: Page, due: string, n: nat)
    requires Persisted(w) && w.index == 1 && w.blocked && w.timer == Lockout
    requires w.typed && !w.intro && !w.completed && due == "due"
    ensures Ticks(w, n).blocked <==> n < Lockout
    ensures Ticks(w, n).index == 1
    ensures n >= Lockout ==> Submit(Edit(Ticks(w, n), due)).index == 2
  {
    DueIsRight(due);
    BlockedWhileTimeRemains(w, n);
  }

  /** The run up to the lockout, from a first visit with untouched storage: a
      right answer moves to the second question, a wrong one blocks it for
      3599 seconds and "due" is ignored meanwhile. The page reached is one
      `AfterLockout` applies to. */
  lemma FirstRun(store: Store, cento: string, xyz: string, due: string)
    requires Untouched(store) && cento == "cento" && xyz == "xyz" && due == "due"
    ensures var right := Submit(Edit(QuestionTyped(Start(Load(store))), cento));
            var wrong := Submit(Edit(QuestionTyped(right), xyz));
            && right.index == 1
            && wrong.index == 1 && wrong.blocked && wrong.timer == Lockout
            && Submit(Edit(wrong, due)) == wrong
            && Persisted(wrong) && wrong.typed && !wrong.intro && !wrong.completed
  {
    FirstAnswer(store, cento);
    var right := Submit(Edit(QuestionTyped(Start(Load(store))), cento));
    WrongAnswer(right, xyz, due);
  }
}

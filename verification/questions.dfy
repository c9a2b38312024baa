/** The four quiz questions and the check that decides whether an answer to
    one of them is right. */
module QuizData {
  import opened Text

  /** The prompt of each question, the text typed out on screen. (The
      illustration shown beside it is decoration and not kept.) */
  const Prompts: seq<string> := [
    "Un melo costa 40, un limone 60 e una felce 10. Quanto costa una sequoia?",
    "Hai 9 palline di cui una leggermente piu' pesante delle altre. "
      + "Hai una bilancia a due braccia. "
      + "Quale e' il numero minimo di pesate con cui puoi trovare la pallina piu' pesante?",
    "161 061 681 881 *** 981 281",
    "Dove andiamo in vacanza quando torni?"
  ]

  /** The answers accepted for each question, in the order of the prompts. */
  const Answers: seq<seq<string>> := [
    ["100", "cento"],
    ["2", "due"],
    ["187", "781"],
    ["parigi", "paris"]
  ]

  /** Every question has a prompt and a list of accepted answers. */
  lemma OnePromptPerQuestion()
    ensures |Prompts| == |Answers| == 4
  {
  }

  /** The index of the last question. */
  const Last: nat := |Answers| - 1

  /** The accepted answers of a question, each in normal form, in order. */
  function NormalizedAnswers(answers: seq<string>): (r: seq<string>)
    ensures |r| == |answers|
    ensures forall k :: 0 <= k < |answers| ==> r[k] == Normalize(answers[k])
  {
    seq(|answers|, k requires 0 <= k < |answers| => Normalize(answers[k]))
  }

  /** Whether an answer matches one of a list of accepted answers once both
      sides are lower-cased and trimmed. */
  function Accepts(answers: seq<string>, answer: string): (ok: bool)
    ensures ok <==> exists k :: 0 <= k < |answers| && Normalize(answers[k]) == Normalize(answer)
  {
    var r := NormalizedAnswers(answers);
    assert forall k :: 0 <= k < |r| ==> r[k] == Normalize(answers[k]);
    Normalize(answer) in r
  }

  /** The answer check of the submit handler: the answer, lower-cased and
      trimmed, is one of the question's answers lower-cased and trimmed. */
  function IsCorrect(index: nat, answer: string): (ok: bool)
    requires index < |Answers|
    ensures ok <==> exists k :: 0 <= k < |Answers[index]|
                                && Normalize(Answers[index][k]) == Normalize(answer)
  {
    Accepts(Answers[index], answer)
  }

  /** Two answers that agree after lower-casing and trimming are judged alike. */
  lemma JudgedOnNormalForm(index: nat, a: string, b: string)
    requires index < |Answers|
    requires Normalize(a) == Normalize(b)
    ensures IsCorrect(index, a) == IsCorrect(index, b)
  {
  }

  /** Padding an answer with white space never changes the verdict. */
  lemma PaddingDoesNotMatter(index: nat, pre: string, answer: string, post: string)
    requires index < |Answers|
    requires AllSpace(pre) && AllSpace(post)
    ensures IsCorrect(index, pre + answer + post) == IsCorrect(index, answer)
  {
    LowerConcat(pre + answer, post);
    LowerConcat(pre, answer);
    TrimDropsPadding(Lower(pre), Lower(answer), Lower(post));
  }

  /** Every accepted answer is written lower-case, trimmed and non-empty, so
      it is its own normal form. */
  lemma AnswersAreNormal(index: nat, k: nat)
    requires index < |Answers| && k < |Answers[index]|
    ensures Normalize(Answers[index][k]) == Answers[index][k] != []
  {
    var a := Answers[index][k];
    assert Lower(a) == a;
    NormalizeOfNormal(a);
  }

  /** A blank answer (empty or only white space) is always wrong. */
  lemma BlankIsWrong(index: nat, answer: string)
    requires index < |Answers|
    requires AllSpace(answer)
    ensures !IsCorrect(index, answer)
  {
    NormalForm(answer);
    forall k | 0 <= k < |Answers[index]|
      ensures Normalize(Answers[index][k]) != []
    {
      AnswersAreNormal(index, k);
    }
  }

  /** The first question takes " Cento " and "100" but not the empty answer. */
  lemma FirstQuestionExamples()
    ensures IsCorrect(0, " Cento ")
    ensures IsCorrect(0, "100")
    ensures !IsCorrect(0, "")
  {
    PaddedCento(" Cento ", "Cento");
    Hundred();
    BlankIsWrong(0, "");
  }

  lemma Hundred()
    ensures IsCorrect(0, "100")
  {
    AnswersAreNormal(0, 0);
    assert Answers[0][0] == "100";
  }

  lemma PaddedCento(answer: string, word: string)
    requires answer == " Cento " && word == "Cento"
    ensures IsCorrect(0, answer)
  {
    var sp: string := " ";
    assert AllSpace(sp);
    assert sp + word + sp == answer;
    PaddingDoesNotMatter(0, sp, word, sp);
    CentoIsCorrect(word);
  }

  lemma CentoIsCorrect(word: string)
    requires word == "Cento"
    ensures IsCorrect(0, word)
  {
    var a := Answers[0][1];
    AnswersAreNormal(0, 1);
    var l := Lower(word);
    assert l[0] == 'c';
    assert l == a;
    assert Normalize(word) == Normalize(a);
  }
}

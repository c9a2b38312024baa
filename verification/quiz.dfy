/** The birthday quiz page: which question is on screen, whether the quiz is
    over, the lockout of 3599 seconds (59:59) after a wrong answer, and how
    all of it is written to and read back from local storage.

    React state changes and the effects they trigger are folded into single
    transitions: each function below returns the page as it stands once the
    handler has run and the effects watching the changed state have run too. */
module QuizPage {
  import opened Wrappers
  import opened Storage
  import opened Decimal
  import opened QuizData

  const QuestionKey: string := "birthdayQuizCurrentQuestion"
  const CompletedKey: string := "birthdayQuizCompleted"
  const StartedKey: string := "birthdayQuizStarted"
  const TimerKey: string := "blockTimer"
  const True: string := "true"

  /** The four storage keys are different strings, so writing one leaves the
      others alone. */
  lemma KeysDistinct()
    ensures QuestionKey != CompletedKey && QuestionKey != StartedKey && QuestionKey != TimerKey
    ensures CompletedKey != StartedKey && CompletedKey != TimerKey
    ensures StartedKey != TimerKey
  {
    assert |QuestionKey| == 27 && |CompletedKey| == 21;
    assert |StartedKey| == 19 && |TimerKey| == 10;
  }

  /** Seconds of lockout after a wrong answer, shown as 59:59. It is a
      relative count, decremented once a second, not a deadline. */
  const Lockout: nat := 3599

  /** The state of the page. `index` is `currentQuestion`, `completed` is
      `showFinal`, `timer` is `blockTimer`, `input` is `userAnswer`, `typed`
      is `questionTypingComplete`, `blockedImage` says whether a blocked
      image is set, `intro` is `showIntro`; `store` is local storage. */
  datatype Page = Page(
    index: nat,
    completed: bool,
    blocked: bool,
    timer: nat,
    input: string,
    typed: bool,
    blockedImage: bool,
    intro: bool,
    store: Store)

  // ---------------------------------------------------------------------
  // Persistence
  // ---------------------------------------------------------------------

  /** `saved ? parseInt(saved, 10) : 0`: no value and the empty string both
      read as zero. */
  function DecodeNumber(v: Option<string>): (n: nat)
    requires v.Some? ==> AllDigits(v.value)
    ensures v.None? ==> n == 0
    ensures v.Some? ==> n == ParseInt(v.value)
  {
    if v.None? || v.value == "" then 0 else ParseInt(v.value)
  }

  predicate NumberSlot(store: Store, key: string) {
    key in store ==> AllDigits(store[key])
  }

  /** What the page needs of local storage to load at all: the question
      number and the remaining lockout, when present, are digit strings, and
      the question number names one of the questions. */
  predicate WellFormed(store: Store) {
    && NumberSlot(store, QuestionKey)
    && NumberSlot(store, TimerKey)
    && DecodeNumber(Get(store, QuestionKey)) < |Answers|
  }

  /** The effect watching the question number: it resets the typing flag
      and writes the number to storage. */
  function QuestionChanged(p: Page): (r: Page)
    ensures !r.typed && r.(typed := p.typed, store := p.store) == p
    ensures r.store == p.store[QuestionKey := ToString(p.index)]
    ensures DecodeNumber(Get(r.store, QuestionKey)) == p.index
  {
    ParseToString(p.index);
    p.(typed := false, store := p.store[QuestionKey := ToString(p.index)])
  }

  /** The effect watching the completed flag: once set, it is stored. Only
      storage changes, and only under the completed key. */
  function FinalShown(p: Page): (r: Page)
    ensures r.(store := p.store) == p
    ensures p.completed ==> r.store == p.store[CompletedKey := True]
    ensures !p.completed ==> r.store == p.store
    ensures Get(r.store, CompletedKey) == Some(True)
            <==> p.completed || Get(p.store, CompletedKey) == Some(True)
  {
    if p.completed then p.(store := p.store[CompletedKey := True]) else p
  }

  /** The effect watching the lockout timer: a positive timer blocks the
      form (and starts the one-second interval); zero unblocks it, clears the
      blocked image and removes the stored timer. */
  function TimerChanged(p: Page): (r: Page)
    ensures r.blocked <==> r.timer > 0
    ensures r.index == p.index && r.completed == p.completed && r.timer == p.timer
    ensures r.input == p.input && r.intro == p.intro && r.typed == p.typed
    ensures p.timer > 0 ==> r.store == p.store && r.blockedImage == p.blockedImage
    ensures p.timer == 0 ==> !r.blockedImage && r.store == p.store - {TimerKey}
  {
    if p.timer > 0 then p.(blocked := true)
    else p.(blocked := false, blockedImage := false, store := p.store - {TimerKey})
  }

  /** The page as mounted from `store`: the lazy initialisers read storage,
      then the three effects run once, in the order they are declared. */
  function Load(store: Store): (r: Page)
    requires WellFormed(store)
    ensures r.index == DecodeNumber(Get(store, QuestionKey)) < |Answers|
    ensures r.completed <==> Get(store, CompletedKey) == Some(True)
    ensures r.timer == DecodeNumber(Get(store, TimerKey))
    ensures r.blocked <==> r.timer > 0
    ensures r.intro <==> Get(store, StartedKey) != Some(True) && Get(store, CompletedKey) != Some(True)
    ensures r.input == "" && !r.typed && !r.blockedImage
  {
    var completed := Get(store, CompletedKey) == Some(True);
    var mounted := Page(
      DecodeNumber(Get(store, QuestionKey)),
      completed,
      false,
      DecodeNumber(Get(store, TimerKey)),
      "",
      false,
      false,
      Get(store, StartedKey) != Some(True) && !completed,
      store);
    TimerChanged(FinalShown(QuestionChanged(mounted)))
  }

  /** The page's own invariant: the question exists, the form is blocked
      exactly while time remains, and the blocked image only shows while
      blocked. */
  predicate Inv(p: Page) {
    && p.index < |Answers|
    && (p.blocked <==> p.timer > 0)
    && (p.blockedImage ==> p.blocked)
  }

  /** Storage agrees with the page: the question number is stored as its
      decimal text, the completed flag is stored as "true" exactly when set,
      the timer is stored while it runs and absent once it is zero, and the
      intro shows exactly when neither "started" nor "completed" is stored. */
  predicate Consistent(p: Page) {
    && Get(p.store, QuestionKey) == Some(ToString(p.index))
    && (Get(p.store, CompletedKey) == Some(True) <==> p.completed)
    && NumberSlot(p.store, TimerKey)
    && (p.timer > 0 ==> TimerKey in p.store && DecodeNumber(Get(p.store, TimerKey)) == p.timer)
    && (p.timer == 0 ==> TimerKey !in p.store)
    && (p.intro <==> Get(p.store, StartedKey) != Some(True) && !p.completed)
  }

  predicate Persisted(p: Page) {
    Inv(p) && Consistent(p)
  }

  /** A page whose storage agrees with it can always be reloaded. */
  lemma PersistedIsWellFormed(p: Page)
    requires Persisted(p)
    ensures WellFormed(p.store)
  {
    ParseToString(p.index);
  }

  /** Loading any well-formed storage gives a page that keeps its invariant
      and agrees with what it leaves in storage. */
  lemma LoadPersists(store: Store)
    requires WellFormed(store)
    ensures Persisted(Load(store))
  {
    var r := Load(store);
    ParseToString(r.index);
    assert Get(r.store, QuestionKey) == Some(ToString(r.index));
  }

  /** Reloading the page at any moment resumes it: the same question, the
      same completed flag, the same remaining lockout and the same intro
      state. Only what React keeps in memory is lost: the typed-in answer,
      the question's typing flag and the blocked image. Storage itself is
      left exactly as it was. */
  lemma ReloadResumes(p: Page)
    requires Persisted(p)
    ensures WellFormed(p.store)
    ensures Load(p.store) == p.(input := "", typed := false, blockedImage := false)
  {
    PersistedIsWellFormed(p);
    ParseToString(p.index);
    var s := p.store;
    var s1 := s[QuestionKey := ToString(p.index)];
    assert s1 == s;
    if p.completed {
      assert s[CompletedKey := True] == s;
    }
    if p.timer == 0 {
      assert s - {TimerKey} == s;
    }
  }

  // ---------------------------------------------------------------------
  // Transitions
  // ---------------------------------------------------------------------

  /** The answer form is on screen and accepts input: the intro is gone, the
      quiz is not over, the question has finished typing out and no lockout
      is running. */
  predicate FormEnabled(p: Page) {
    !p.intro && !p.completed && p.typed && !p.blocked
  }

  /** The deferred part of a correct answer (taken as one step): the next
      question with an empty answer box, or the final screen after the last
      question. The lockout state is untouched. */
  function Advance(p: Page): (r: Page)
    requires p.index < |Answers|
    ensures r.index < |Answers| && r.intro == p.intro
    ensures r.blocked == p.blocked && r.timer == p.timer && r.blockedImage == p.blockedImage
    ensures p.index < Last ==>
              && r.index == p.index + 1 && r.input == "" && r.completed == p.completed
              && !r.typed
              && r.store == p.store[QuestionKey := ToString(p.index + 1)]
    ensures p.index == Last ==>
              && r.completed && r.index == p.index
              && r.input == p.input && r.typed == p.typed
              && r.store == p.store[CompletedKey := True]
  {
    if p.index < Last then QuestionChanged(p.(index := p.index + 1, input := ""))
    else FinalShown(p.(completed := true))
  }

  /** A wrong answer: block, show a blocked image, start the countdown at
      3599 and store it as "3599"; the question and the typed answer stay. */
  function Lock(p: Page): (r: Page)
    ensures r.index == p.index && r.completed == p.completed && r.intro == p.intro
    ensures r.input == p.input && r.typed == p.typed
    ensures r.blocked && r.blockedImage && r.timer == Lockout
    ensures r.store == p.store[TimerKey := "3599"]
  {
    LockoutText();
    TimerChanged(p.(blocked := true, blockedImage := true, timer := Lockout,
                    store := p.store[TimerKey := ToString(Lockout)]))
  }

  /** What the submit handler promises, given its verdict `correct`: nothing
      happens while blocked, nor when the form is absent or disabled;
      otherwise a right answer moves on (to the next question, whose form
      stays disabled until it has typed out, or to the final screen) and a
      wrong one locks the form for 3599 seconds on the same question. The
      question stays one of the table's and the started flag is never
      touched. */
  predicate SubmitOutcome(p: Page, correct: bool, r: Page) {
    && (p.blocked ==> r == p)
    && (!FormEnabled(p) ==> r == p)
    && r.index < |Answers| && r.intro == p.intro
    && Get(r.store, StartedKey) == Get(p.store, StartedKey)
    && (FormEnabled(p) && correct && p.index < Last ==>
          && r.index == p.index + 1 && r.input == "" && !r.completed && !r.blocked
          && !r.typed && r.timer == p.timer && r.blockedImage == p.blockedImage
          && r.store == p.store[QuestionKey := ToString(p.index + 1)])
    && (FormEnabled(p) && correct && p.index == Last ==>
          && r.completed && r.index == p.index && !r.blocked
          && r.input == p.input && r.typed
          && r.timer == p.timer && r.blockedImage == p.blockedImage
          && r.store == p.store[CompletedKey := True])
    && (FormEnabled(p) && !correct ==>
          && r.index == p.index && r.completed == p.completed
          && r.input == p.input && r.typed == p.typed
          && r.blocked && r.timer == Lockout
          && r.store == p.store[TimerKey := "3599"])
  }

  /** The submit handler's response to a verdict. */
  function Respond(p: Page, correct: bool): (r: Page)
    requires p.index < |Answers|
    ensures SubmitOutcome(p, correct, r)
  {
    KeysDistinct();
    if !FormEnabled(p) then p
    else if correct then Advance(p)
    else Lock(p)
  }

  /** Submitting the answer form: the response to the answer check's verdict
      on the typed answer. */
  function Submit(p: Page): (r: Page)
    requires p.index < |Answers|
    ensures SubmitOutcome(p, IsCorrect(p.index, p.input), r)
  {
    Respond(p, IsCorrect(p.index, p.input))
  }

  /** The lockout is stored as the text "3599". */
  lemma LockoutText()
    ensures ToString(Lockout) == "3599"
  {
    var s := ToString(Lockout);
    assert s == ToString(359) + [DigitChar(9)];
    assert ToString(359) == ToString(35) + [DigitChar(9)];
    assert ToString(35) == ToString(3) + [DigitChar(5)];
  }

  /** One firing of the one-second interval. It only runs while the timer is
      positive: the timer drops by one and is written back, and on reaching
      zero the page unblocks and the stored timer is removed. */
  function Tick(p: Page): (r: Page)
    ensures r.index == p.index && r.completed == p.completed
    ensures r.input == p.input && r.typed == p.typed && r.intro == p.intro
    ensures p.timer == 0 ==> r == p
    ensures p.timer > 0 ==> r.timer == p.timer - 1 && (r.blocked <==> r.timer > 0)
    ensures p.timer > 1 ==> r.blockedImage == p.blockedImage
                            && r.store == p.store[TimerKey := ToString(r.timer)]
    ensures p.timer == 1 ==> !r.blockedImage && r.store == p.store - {TimerKey}
  {
    if p.timer == 0 then p
    else
      var q := p.(timer := p.timer - 1, store := p.store[TimerKey := ToString(p.timer - 1)]);
      assert q.timer == 0 ==> q.store - {TimerKey} == p.store - {TimerKey};
      TimerChanged(q)
  }

  /** Typing in the answer box, which is disabled while blocked and until
      the question has typed out. */
  function Edit(p: Page, text: string): (r: Page)
    ensures r.(input := p.input) == p
    ensures FormEnabled(r) == FormEnabled(p)
    ensures FormEnabled(p) ==> r.input == text
    ensures !FormEnabled(p) ==> r == p
    ensures Persisted(p) ==> Persisted(r)
  {
    if FormEnabled(p) then p.(input := text) else p
  }

  /** The question's typing animation reports that it has finished. */
  function QuestionTyped(p: Page): (r: Page)
    ensures r.(typed := p.typed) == p
    ensures !p.intro && !p.completed ==> r.typed && (FormEnabled(r) <==> !p.blocked)
    ensures p.intro || p.completed ==> r == p
    ensures Persisted(p) ==> Persisted(r)
  {
    if p.intro || p.completed then p else p.(typed := true)
  }

  /** `handleStart`: leave the intro and remember that the quiz has started. */
  function Start(p: Page): (r: Page)
    ensures !r.intro && r.(intro := p.intro, store := p.store) == p
    ensures p.intro ==> r.store == p.store[StartedKey := True]
    ensures !p.intro ==> r == p
  {
    if p.intro then p.(intro := false, store := p.store[StartedKey := True]) else p
  }

  // ---------------------------------------------------------------------
  // Properties
  // ---------------------------------------------------------------------

  /** Every transition keeps the page consistent with storage, so a reload
      after any of them resumes the page (see `ReloadResumes`). */
  lemma SubmitPersists(p: Page)
    requires Persisted(p)
    ensures Persisted(Submit(p))
  {
    if FormEnabled(p) {
      if IsCorrect(p.index, p.input) {
        AdvancePersists(p);
      } else {
        LockPersists(p);
      }
    }
  }

  lemma AdvancePersists(p: Page)
    requires Persisted(p) && !p.intro && !p.completed
    ensures Persisted(Advance(p))
  {
    var r := Advance(p);
    if p.index < Last {
      assert Get(r.store, QuestionKey) == Some(ToString(r.index));
    }
  }

  lemma LockPersists(p: Page)
    requires Persisted(p)
    ensures Persisted(Lock(p))
  {
    var r := Lock(p);
    LockoutText();
    ParseToString(Lockout);
    assert Get(r.store, TimerKey) == Some(ToString(Lockout));
  }

  lemma TickPersists(p: Page)
    requires Persisted(p)
    ensures Persisted(Tick(p))
  {
    if p.timer > 1 {
      ParseToString(p.timer - 1);
      assert Get(Tick(p).store, TimerKey) == Some(ToString(p.timer - 1));
    }
  }

  lemma StartPersists(p: Page)
    requires Persisted(p)
    ensures Persisted(Start(p))
  {
  }

  /** `n` firings of the interval. */
  function Ticks(p: Page, n: nat): (r: Page)
    decreases n
  {
    if n == 0 then p else Ticks(Tick(p), n - 1)
  }

  /** The countdown drops by exactly one per second, keeps the form blocked
      exactly while time remains, and never moves the quiz. */
  lemma {:induction false} TicksCountDown(p: Page, n: nat)
    requires p.blocked <==> p.timer > 0
    requires n <= p.timer
    ensures Ticks(p, n).timer == p.timer - n
    ensures Ticks(p, n).blocked <==> p.timer - n > 0
    ensures Ticks(p, n).index == p.index && Ticks(p, n).completed == p.completed
    ensures Ticks(p, n).intro == p.intro && Ticks(p, n).input == p.input
    decreases n
  {
    if n > 0 {
      TicksCountDown(Tick(p), n - 1);
    }
  }

  /** Once the timer is at zero further firings change nothing. */
  lemma {:induction false} TicksAtZero(p: Page, n: nat)
    requires p.timer == 0
    ensures Ticks(p, n) == p
    decreases n
  {
    if n > 0 {
      TicksAtZero(Tick(p), n - 1);
    }
  }

  /** A running lockout blocks the form for exactly as many firings of the
      interval as its timer says; after that storage holds no timer and the
      quiz is where it was. */
  lemma BlockedWhileTimeRemains(q: Page, n: nat)
    requires Persisted(q)
    ensures var r := Ticks(q, n);
            && (r.blocked <==> n < q.timer)
            && r.index == q.index && r.completed == q.completed
            && r.intro == q.intro && r.typed == q.typed
            && (n >= q.timer ==> r.timer == 0 && TimerKey !in r.store)
  {
    if n <= q.timer {
      CountingDown(q, n);
    } else {
      CountingDown(q, q.timer);
      var z := Ticks(q, q.timer);
      TicksAtZero(z, n - q.timer);
      TicksSplit(q, q.timer, n - q.timer);
    }
  }

  /** While the countdown runs, each firing takes one second off and the
      page stays consistent with storage; at zero the timer is gone. */
  lemma CountingDown(q: Page, n: nat)
    requires Persisted(q) && n <= q.timer
    ensures var r := Ticks(q, n);
            && Persisted(r) && r.timer == q.timer - n
            && (r.blocked <==> n < q.timer)
            && r.index == q.index && r.completed == q.completed
            && r.intro == q.intro && r.typed == q.typed
            && (n == q.timer ==> TimerKey !in r.store)
  {
    TicksPersist(q, n);
    TicksCountDown(q, n);
    var r := Ticks(q, n);
    assert r.timer == 0 ==> TimerKey !in r.store;
  }

  /** A wrong answer blocks the form for exactly 3599 firings of the
      interval, on the same question, after which storage no longer holds a
      timer and the answer form is usable again. */
  lemma LockoutLastsExactly(p: Page, n: nat)
    requires Persisted(p) && FormEnabled(p) && !IsCorrect(p.index, p.input)
    ensures var q := Ticks(Submit(p), n);
            && (q.blocked <==> n < Lockout)
            && q.index == p.index && q.completed == p.completed
            && (n >= Lockout ==> FormEnabled(q) && TimerKey !in q.store)
  {
    SubmitPersists(p);
    BlockedWhileTimeRemains(Submit(p), n);
  }

  lemma {:induction false} TicksPersist(p: Page, n: nat)
    requires Persisted(p)
    ensures Persisted(Ticks(p, n))
    ensures Ticks(p, n).typed == p.typed
    decreases n
  {
    if n > 0 {
      TickPersists(p);
      TicksPersist(Tick(p), n - 1);
    }
  }

  lemma {:induction false} TicksSplit(p: Page, m: nat, n: nat)
    ensures Ticks(p, m + n) == Ticks(Ticks(p, m), n)
    decreases m
  {
    if m > 0 {
      TicksSplit(Tick(p), m - 1, n);
    }
  }

  /** Once the final screen shows, the quiz is over for good: submitting
      does nothing, the interval leaves it finished, and a reload shows the
      final screen again. */
  lemma CompletedIsFinal(p: Page)
    requires Persisted(p) && p.completed
    ensures WellFormed(p.store)
    ensures Submit(p) == p
    ensures Tick(p).completed && Persisted(Tick(p))
    ensures Load(p.store).completed
  {
    TickPersists(p);
    ReloadResumes(p);
  }

  /** Once started, the intro never returns: no transition brings it back
      and a reload keeps it hidden. */
  lemma IntroNeverReturns(p: Page, text: string)
    requires Persisted(p) && !p.intro
    ensures WellFormed(p.store)
    ensures !Submit(p).intro && !Tick(p).intro && !Edit(p, text).intro
    ensures !QuestionTyped(p).intro && !Start(p).intro
    ensures !Load(p.store).intro
  {
    ReloadResumes(p);
  }

  /** A first visit: storage without any of the quiz's keys is loadable and
      shows the intro on the first question, with no lockout and the quiz
      not over. */
  lemma FirstVisit(store: Store)
    requires Untouched(store)
    ensures WellFormed(store)
    ensures var p := Load(store);
            p.index == 0 && !p.completed && !p.blocked && p.timer == 0 && p.intro
  {
    assert Get(store, QuestionKey).None? && Get(store, TimerKey).None?;
    assert Get(store, StartedKey).None? && Get(store, CompletedKey).None?;
  }

  /** Storage that holds none of the quiz's keys, as on a first visit. */
  predicate Untouched(store: Store) {
    && QuestionKey !in store && CompletedKey !in store
    && StartedKey !in store && TimerKey !in store
  }
}

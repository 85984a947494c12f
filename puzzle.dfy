/** The `App` component of src/pages/ugy1/index.jsx: the step counter, the five
    "done" flags with the progress bar they drive, and the answer checks that
    the first four task cards hand to `ChallengeInput`. The React state is a
    value here; a state update is a function from the old value to the new. */
module Puzzle {
  import opened Wrappers
  import opened JsText
  import opened ChallengeInput
  import opened Ciphers

  /** The last task index; `next` never moves beyond it. */
  const LAST_STEP: nat := 4
  /** Number of tasks, the length of `done` and the progress bar's denominator. */
  const TASKS: nat := 5

  datatype App = App(step: nat, done: seq<bool>)

  /** `useState(0)` and `useState([false,false,false,false,false])`. */
  const INITIAL: App := App(0, [false, false, false, false, false])

  predicate Valid(a: App) {
    a.step <= LAST_STEP && |a.done| == TASKS
  }

  /** `next`: `setStep(s => Math.min(s+1, 4))`. */
  function Next(a: App): (b: App)
    ensures b.done == a.done
    ensures b.step <= LAST_STEP
    ensures a.step < LAST_STEP ==> b.step == a.step + 1
  {
    App(if a.step + 1 < LAST_STEP then a.step + 1 else LAST_STEP, a.done)
  }

  function NextN(a: App, k: nat): App {
    if k == 0 then a else Next(NextN(a, k - 1))
  }

  /** `k` calls of `next` advance the step by `k`, but never past the last task. */
  lemma {:induction false} NextIterate(a: App, k: nat)
    requires Valid(a)
    ensures Valid(NextN(a, k))
    ensures NextN(a, k).step == if a.step + k < LAST_STEP then a.step + k else LAST_STEP
    ensures NextN(a, k).done == a.done
  {
    if k > 0 {
      NextIterate(a, k - 1);
    }
  }

  /** Once on the last task, `next` is a no-op. */
  lemma NextAtLast(a: App)
    requires a.step == LAST_STEP
    ensures Next(a) == a
  {
  }

  /** `markDone(i)`: a copy of `done` with slot `i` set. */
  function MarkDone(a: App, i: nat): (b: App)
    requires i < |a.done|
    ensures b.step == a.step && |b.done| == |a.done|
    ensures b.done[i]
    ensures forall j :: 0 <= j < |a.done| && j != i ==> b.done[j] == a.done[j]
  {
    App(a.step, a.done[i := true])
  }

  /** `done.filter(Boolean).length`. */
  function CountTrue(d: seq<bool>): (n: nat)
    ensures n <= |d|
    ensures n == |d| <==> forall j :: 0 <= j < |d| ==> d[j]
  {
    if d == [] then 0 else (if d[0] then 1 else 0) + CountTrue(d[1..])
  }

  /** Setting one flag raises the count by one exactly when that flag was clear. */
  lemma {:induction false} CountTrueUpdate(d: seq<bool>, i: nat)
    requires i < |d|
    ensures CountTrue(d[i := true]) == CountTrue(d) + (if d[i] then 0 else 1)
  {
    if i > 0 {
      assert d[i := true][1..] == d[1..][i - 1 := true];
      CountTrueUpdate(d[1..], i - 1);
    } else {
      assert d[i := true][1..] == d[1..];
    }
  }

  /** `markDone` is idempotent. */
  lemma MarkDoneIdempotent(a: App, i: nat)
    requires i < |a.done|
    ensures MarkDone(MarkDone(a, i), i) == MarkDone(a, i)
  {
  }

  /** The width of the progress bar in percent, `count / 5 * 100`. For counts
      0..5 the double-precision quotient times 100 is exactly 20 times the count. */
  function Progress(a: App): (p: nat)
    requires Valid(a)
    ensures p <= 100 && p % 20 == 0
    ensures p == 100 <==> forall j :: 0 <= j < TASKS ==> a.done[j]
    ensures p == 0 <==> forall j :: 0 <= j < TASKS ==> !a.done[j]
  {
    ZeroCount(a.done);
    20 * CountTrue(a.done)
  }

  lemma {:induction false} ZeroCount(d: seq<bool>)
    ensures CountTrue(d) == 0 <==> forall j :: 0 <= j < |d| ==> !d[j]
  {
    if d != [] {
      ZeroCount(d[1..]);
      assert forall j :: 1 <= j < |d| ==> d[j] == d[1..][j - 1];
    }
  }

  /** Progress starts at 0, and each task solved for the first time adds 20 points. */
  lemma ProgressMarkDone(a: App, i: nat)
    requires Valid(a) && i < TASKS
    ensures Valid(MarkDone(a, i))
    ensures Progress(MarkDone(a, i)) == Progress(a) + (if a.done[i] then 0 else 20)
    ensures Progress(INITIAL) == 0
  {
    CountTrueUpdate(a.done, i);
  }

  // ---------------------------------------------------------- task answers

  /** The cipher text shown on task 1 and its expected plain text. */
  const TASK1_CIPHER: string := "Yljbdcc, Crol ohkhw wlwnrvxjbqrn"
  /** The expected sentence of task 1. A function rather than a constant, so
      that the verifier does not evaluate its normal form wherever the check
      is mentioned. */
  function Task1Expected(): string { "Vigyázz, Zoli lehet titkosügynök." }
  /** The single normal form every accepted task-1 answer reaches. */
  const TASK1_NORMAL: string := "VIGYAZZ ZOLI LEHET TITKOSUGYNOK"

  /** Task 1: the normalised answer equals the normalised expected sentence. */
  predicate Task1Check(val: string) {
    NormalizeText(Some(val)) == NormalizeText(Some(Task1Expected()))
  }

  /** The separators task 2 removes after normalising: `[\s\-_.]`. */
  predicate NotSeparator(c: char) {
    !(IsSpace(c) || c == '-' || c == '_' || c == '.')
  }

  /** Task 2: the normalised answer with separators removed is "NYOMOK". */
  predicate Task2Check(val: string) {
    Filter(NotSeparator, NormalizeText(Some(val))) == "NYOMOK"
  }

  /** Task 3 and task 4: the answer's decimal digits, `replace(/\D/g,'')`. */
  function Digits(val: string): (d: string)
    ensures forall i :: 0 <= i < |d| ==> IsDigit(d[i])
    ensures |d| <= |val|
  {
    Filter(IsDigit, val)
  }

  predicate Task3Check(val: string) {
    Digits(val) == "3871"
  }

  predicate Task4Check(val: string) {
    Digits(val) == "3542"
  }

  /** The check of task card `task` (0..3). */
  predicate TaskCheck(task: nat, val: string)
    requires task < LAST_STEP
  {
    match task
    case 0 => Task1Check(val)
    case 1 => Task2Check(val)
    case 2 => Task3Check(val)
    case 3 => Task4Check(val)
  }

  /** One press of "Ellenőrzés" on task card `task`: the status `ChallengeInput`
      shows and the App state after the answer is checked. On success the card
      marks its task done and moves on. The 400 ms `setTimeout` before `next` is
      collapsed into the same step. */
  function Answer(a: App, task: nat, val: string): (r: (Status, App))
    requires Valid(a) && task < LAST_STEP
    ensures Valid(r.1)
    ensures r.0 == StatusOk <==> TaskCheck(task, val)
    ensures r.0 == StatusOk ==> r.1.done[task] && r.1.step == (if a.step < LAST_STEP then a.step + 1 else LAST_STEP)
    ensures r.0 == StatusOk ==> forall j :: 0 <= j < TASKS && j != task ==> r.1.done[j] == a.done[j]
    ensures r.0 == StatusErr ==> r.1 == a
  {
    if TaskCheck(task, val) then (StatusOk, Next(MarkDone(a, task))) else (StatusErr, a)
  }

  /** Task 5's table calls `onDone`, which marks the last task without moving. */
  function TableDone(a: App): (b: App)
    requires Valid(a)
    ensures Valid(b) && b.step == a.step && b.done[LAST_STEP]
    ensures forall j :: 0 <= j < LAST_STEP ==> b.done[j] == a.done[j]
  {
    MarkDone(a, LAST_STEP)
  }

  /** A wrong answer never changes the progress; a right one never lowers it. */
  lemma AnswerProgress(a: App, task: nat, val: string)
    requires Valid(a) && task < LAST_STEP
    ensures Progress(Answer(a, task, val).1) >= Progress(a)
    ensures !TaskCheck(task, val) ==> Progress(Answer(a, task, val).1) == Progress(a)
  {
    ProgressMarkDone(a, task);
  }

  /** An accepted answer sets the card's flag and moves to the next card. */
  lemma AnswerAccepted(a: App, task: nat, val: string)
    requires Valid(a) && task < LAST_STEP && TaskCheck(task, val)
    ensures Answer(a, task, val).1 == App(if a.step < LAST_STEP then a.step + 1 else LAST_STEP, a.done[task := true])
  {
  }

  /** With the four cards solved, completing the table fills the bar. */
  lemma TableCompletes(a: App)
    requires Valid(a) && forall j :: 0 <= j < LAST_STEP ==> a.done[j]
    ensures Progress(TableDone(a)) == 100
  {
  }

  // -------------------------------------------------------------- task 1

  /** Task 1 accepts exactly the answers that normalise to "VIGYAZZ ZOLI LEHET
      TITKOSUGYNOK". */
  lemma Task1Normal(val: string)
    ensures Task1Check(val) <==> NormalizeText(Some(val)) == TASK1_NORMAL
  {
    ExpectedNormal();
  }

  /** Decoding the shown cipher with shift 3 (the hint's "rot-3") gives an
      answer task 1 accepts: `CaesarShiftDecode(TASK1_CIPHER, 3)` returns
      this text. */
  lemma Task1Solvable()
    ensures Task1Check(CaesarText(ToUpperCase(TASK1_CIPHER), 3))
  {
    CipherToUpperCase();
    var d := CaesarText(Upper(TASK1_CIPHER), 3);
    CipherDecodes();
    DecodedNormal();
    Task1Normal(d);
  }

  /** The cipher text is ASCII, so `toUpperCase` maps it letter by letter. */
  lemma CipherToUpperCase()
    ensures ToUpperCase(TASK1_CIPHER) == Upper(TASK1_CIPHER)
  {
    CipherAscii();
    AsciiNoSharpS(TASK1_CIPHER);
    ToUpperCaseSimple(TASK1_CIPHER);
  }

  lemma CipherAscii()
    ensures AllAscii(TASK1_CIPHER)
  {
  }

  lemma CipherDecodes()
    ensures CaesarText(Upper(TASK1_CIPHER), 3) == "VIGYAZZ, ZOLI LEHET TITKOSUGYNOK"
  {
    CipherUpper();
    CipherShifted();
  }

  lemma CipherUpper()
    ensures Upper("Yljbdcc, Crol ohkhw wlwnrvxjbqrn") == "YLJBDCC, CROL OHKHW WLWNRVXJBQRN"
  {
    CipherUpperSplit();
    UpperConcat("Yljbdcc, Crol ", "ohkhw wlwnrvxjbqrn");
    CipherUpperHead();
    CipherUpperTail();
  }

  lemma CipherUpperSplit()
    ensures "Yljbdcc, Crol ohkhw wlwnrvxjbqrn" == "Yljbdcc, Crol " + "ohkhw wlwnrvxjbqrn"
  {
  }

  lemma CipherUpperHead()
    ensures Upper("Yljbdcc, Crol ") == "YLJBDCC, CROL "
  {
  }

  lemma CipherUpperTail()
    ensures Upper("ohkhw wlwnrvxjbqrn") == "OHKHW WLWNRVXJBQRN"
  {
  }

  lemma CipherShifted()
    ensures CaesarText("YLJBDCC, CROL OHKHW WLWNRVXJBQRN", 3) == "VIGYAZZ, ZOLI LEHET TITKOSUGYNOK"
  {
  }

  lemma NormalFixed()
    ensures NormalizeText(Some(TASK1_NORMAL)) == TASK1_NORMAL
  {
    NormalFormFixed(TASK1_NORMAL);
  }

  lemma DecodedNormal()
    ensures NormalizeText(Some("VIGYAZZ, ZOLI LEHET TITKOSUGYNOK")) == TASK1_NORMAL
  {
    DecodedSplit();
    DecodedJoin();
    NormalizeDropsChar("VIGYAZZ, ZOLI LEHET TITKOSUGYNOK", "VIGYAZZ", ',', " ZOLI LEHET TITKOSUGYNOK", TASK1_NORMAL);
    NormalFixed();
  }

  lemma DecodedSplit()
    ensures "VIGYAZZ" + [','] + " ZOLI LEHET TITKOSUGYNOK" == "VIGYAZZ, ZOLI LEHET TITKOSUGYNOK"
  {
  }

  lemma DecodedJoin()
    ensures "VIGYAZZ" + " ZOLI LEHET TITKOSUGYNOK" == TASK1_NORMAL
  {
  }

  /** Normalising first strips accents, so a text and its ASCII accent-free form
      normalise alike. */
  lemma NormalizeFolded(s: string, t: string)
    requires Fold(s) == t && AllAscii(t)
    ensures NormalizeText(Some(s)) == NormalizeText(Some(t))
  {
    FoldAscii(t);
  }

  lemma ExpectedFolds()
    ensures Fold("Vigyázz, Zoli lehet titkosügynök.") == "Vigyazz, Zoli lehet titkosugynok."
  {
    AccentsOneToOne();
    FoldPointwise("Vigyázz, Zoli lehet titkosügynök.");
    AccentsStripped();
  }

  lemma AccentsOneToOne()
    ensures forall i :: 0 <= i < |"Vigyázz, Zoli lehet titkosügynök."| ==> |FoldChar("Vigyázz, Zoli lehet titkosügynök."[i])| == 1
  {
  }

  lemma AccentsStripped()
    ensures seq(33, i requires 0 <= i < 33 => FoldChar("Vigyázz, Zoli lehet titkosügynök."[i])[0]) == "Vigyazz, Zoli lehet titkosugynok."
  {
  }

  lemma ExpectedNormal()
    ensures NormalizeText(Some(Task1Expected())) == TASK1_NORMAL
  {
    StripAccents();
    DropPeriod();
    DropComma();
    IgnoreCase();
  }

  lemma StripAccents()
    ensures NormalizeText(Some("Vigyázz, Zoli lehet titkosügynök.")) == NormalizeText(Some("Vigyazz, Zoli lehet titkosugynok."))
  {
    ExpectedFolds();
    ExpectedAscii();
    NormalizeFolded("Vigyázz, Zoli lehet titkosügynök.", "Vigyazz, Zoli lehet titkosugynok.");
  }

  lemma ExpectedAscii()
    ensures AllAscii("Vigyazz, Zoli lehet titkosugynok.")
  {
  }

  lemma IgnoreCase()
    ensures NormalizeText(Some("Vigyazz Zoli lehet titkosugynok")) == TASK1_NORMAL
  {
    ExpectedUpper();
    UpperIdempotent("Vigyazz Zoli lehet titkosugynok");
    NormalizeCaseInsensitive("Vigyazz Zoli lehet titkosugynok", TASK1_NORMAL);
    NormalFixed();
  }

  lemma DropPeriod()
    ensures NormalizeText(Some("Vigyazz, Zoli lehet titkosugynok.")) == NormalizeText(Some("Vigyazz, Zoli lehet titkosugynok"))
  {
    PeriodSplit();
    NormalizeDropsChar("Vigyazz, Zoli lehet titkosugynok.", "Vigyazz, Zoli lehet titkosugynok", '.', "", "Vigyazz, Zoli lehet titkosugynok");
  }

  lemma PeriodSplit()
    ensures "Vigyazz, Zoli lehet titkosugynok" + ['.'] + "" == "Vigyazz, Zoli lehet titkosugynok."
  {
  }

  lemma DropComma()
    ensures NormalizeText(Some("Vigyazz, Zoli lehet titkosugynok")) == NormalizeText(Some("Vigyazz Zoli lehet titkosugynok"))
  {
    CommaSplit();
    CommaJoin();
    NormalizeDropsChar("Vigyazz, Zoli lehet titkosugynok", "Vigyazz", ',', " Zoli lehet titkosugynok", "Vigyazz Zoli lehet titkosugynok");
  }

  lemma CommaSplit()
    ensures "Vigyazz" + [','] + " Zoli lehet titkosugynok" == "Vigyazz, Zoli lehet titkosugynok"
  {
  }

  lemma CommaJoin()
    ensures "Vigyazz" + " Zoli lehet titkosugynok" == "Vigyazz Zoli lehet titkosugynok"
  {
  }

  lemma ExpectedUpper()
    ensures Upper("Vigyazz Zoli lehet titkosugynok") == "VIGYAZZ ZOLI LEHET TITKOSUGYNOK"
  {
    ExpectedUpperSplit();
    UpperConcat("Vigyazz Zoli ", "lehet titkosugynok");
    ExpectedUpperHead();
    ExpectedUpperTail();
  }

  lemma ExpectedUpperSplit()
    ensures "Vigyazz Zoli lehet titkosugynok" == "Vigyazz Zoli " + "lehet titkosugynok"
  {
  }

  lemma ExpectedUpperHead()
    ensures Upper("Vigyazz Zoli ") == "VIGYAZZ ZOLI "
  {
  }

  lemma ExpectedUpperTail()
    ensures Upper("lehet titkosugynok") == "LEHET TITKOSUGYNOK"
  {
  }

  // ---------------------------------------------------------- tasks 2 to 4

  /** Task 2 ignores case, punctuation and separators: "ny-omok." is accepted. */
  lemma Task2Example()
    ensures Task2Check("ny-omok.")
  {
    DropFinalStop();
    DropHyphen();
    NyomokCase();
    NyomokFixed();
    Task2Normal("ny-omok.");
  }

  /** Task 2 accepts every answer that normalises to "NYOMOK". */
  lemma Task2Normal(val: string)
    requires NormalizeText(Some(val)) == "NYOMOK"
    ensures Task2Check(val)
  {
    NyomokKept();
  }

  lemma NyomokKept()
    ensures Filter(NotSeparator, "NYOMOK") == "NYOMOK"
  {
    FilterKeepsAll(NotSeparator, "NYOMOK");
  }

  lemma DropFinalStop()
    ensures NormalizeText(Some("ny-omok.")) == NormalizeText(Some("ny-omok"))
  {
    NormalizeDropsChar("ny-omok.", "ny-omok", '.', "", "ny-omok");
  }

  lemma DropHyphen()
    ensures NormalizeText(Some("ny-omok")) == NormalizeText(Some("nyomok"))
  {
    NormalizeDropsChar("ny-omok", "ny", '-', "omok", "nyomok");
  }

  lemma NyomokCase()
    ensures NormalizeText(Some("nyomok")) == NormalizeText(Some("NYOMOK"))
  {
    assert Upper("nyomok") == Upper("NYOMOK");
    NormalizeCaseInsensitive("nyomok", "NYOMOK");
  }

  lemma NyomokFixed()
    ensures NormalizeText(Some("NYOMOK")) == "NYOMOK"
  {
    NormalFormFixed("NYOMOK");
  }

  /** Tasks 3 and 4 read only the digits: a non-digit anywhere is ignored. */
  lemma DigitsIgnoreOthers(a: string, c: char, b: string)
    requires !IsDigit(c)
    ensures Digits(a + [c] + b) == Digits(a + b)
    ensures Task3Check(a + [c] + b) == Task3Check(a + b)
    ensures Task4Check(a + [c] + b) == Task4Check(a + b)
  {
    FilterSkip(IsDigit, a, c, b);
  }

  /** The two codes are accepted as typed. */
  lemma CodesAccepted()
    ensures Task3Check("3871") && Task4Check("3542")
  {
    DigitsOnly("3871");
    DigitsOnly("3542");
  }

  /** A string of digits is its own digit string. */
  lemma DigitsOnly(val: string)
    requires forall i :: 0 <= i < |val| ==> IsDigit(val[i])
    ensures Digits(val) == val
  {
    FilterKeepsAll(IsDigit, val);
  }

  /** No answer passes both code checks. */
  lemma CodesDistinct(val: string)
    ensures !(Task3Check(val) && Task4Check(val))
  {
  }
}

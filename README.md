# Escape-room puzzle site: a Dafny model of its game rules

The site is a small narrative puzzle. A static assembler (`js/app.js`)
builds each page from a header, a footer and the HTML blocks a pages
document names. One routed page, "aurora", is hydrated:

- a password gate covers the page;
- a mission panel asks for an entry code;
- a grid of level cards comes into view once the code is accepted.

The first case (`src/pages/ugy1/index.jsx`) is a five-step page:

- task 1 is a Caesar cipher;
- task 2 is a clue formed from log lines;
- task 3 is a four-digit code;
- task 4 is a word search whose found words turn into digits;
- task 5 is a table that matches the clues to their sources.

Each answer box (`src/components/Ugy1/ChallengeInput.jsx`) normalises what
was typed and shows an ok or an error status.

The model has these modules, one file each:

- `Wrappers` (wrappers.dfy): `Option`.
- `JsText` (jstext.dfy): the JavaScript string operations the code relies on: `toUpperCase`, `trim`, the `\s` class, `replace` with a class, and `normalize('NFD')` followed by removal of combining marks.
- `ChallengeInput` (challenge_input.dfy): `normalizeText` and the `onSubmit` status rule.
- `Ciphers` (ciphers.dfy): `CaesarShiftDecode` and `vigenereDecode` as loop methods proved against specification functions.
- `Puzzle` (puzzle.dfy): the `App` state (`next`, `markDone`, progress) and the answer checks of tasks 1–4.
- `MatchTable` (matchtable.dfy): task 5's `norm`, `updateRow` and the greedy `check` loop.
- `WordSearch` (wordsearch.dfy): see below.
- `Solution` (solution.dfy): the archive's digits are the code that task 4 accepts.
- `Assembler` (assembler.dfy): `routeKey`, page-key and page resolution, and the block loop of `assemble`.
- `Aurora` (aurora.dfy): the gate check, the entry-code check, the card choice, and a `GatePage` class for `unlock`, the submit handler, `handleEntry` and `doneEntry`.

`WordSearch` covers the following:

- the 10×10 grid as an `array2`, filled in place by `PlaceWord` and `Fill`;
- the drag selection, modelled as a `Game` class whose fields hold the active word, the drag anchor, whether a button is held, the highlighted cells, found cells, found list items, digit labels and done indicator;
- the archive grid of `ArchiveModal`.

Every state-changing handler is a method. Its postcondition equals the new
state to a pure step function of the old state (`CommitStep`, `GateStep`,
`EntryStep`, …). The properties are proved as lemmas about those step
functions.

Three behaviours of the word search follow the code to the letter:

- `readSel` reads from the lower index to the higher one, whichever end
  the drag started from (src/pages/ugy1/index.jsx:474-485).
- `commit` does not check whether the word is already found: a second drag
  over it marks the same cells and writes the same digit again.
- The digit goes on a drag endpoint chosen by the read direction, which is
  not always the word's first letter. The comment at
  src/pages/ugy1/index.jsx:505 says the digit belongs on the starting cell,
  and the archive stamps it on `(p.r, p.c)` at lines 674-681 (see Findings).

## Model

| member | source | states |
|---|---|---|
| JsText.IsSpace | src/components/Ugy1/ChallengeInput.jsx:7-9 | definition: the ECMAScript WhiteSpace and LineTerminator code points, the set both `\s` and `trim` use |
| JsText.UpperChar | src/components/Ugy1/ChallengeInput.jsx:10 | the one-character upper case maps a–z to A–Z (code minus 32), leaves every other ASCII character alone, yields ß only from ß, and keeps ASCII, white space, digits and `[A-Za-z0-9]` membership |
| JsText.Upper | src/components/Ugy1/ChallengeInput.jsx:10 | definition: the one-character upper case of every character, so the length is kept; `ToUpperCaseSimple` proves it is `toUpperCase` on text without ß |
| JsText.UpperOf | src/pages/ugy1/index.jsx:48 | under the full case mapping of `toUpperCase` ß becomes "SS", every other character its one-character upper case, and no ß remains |
| JsText.ToUpperCase | src/pages/ugy1/index.jsx:48 | `toUpperCase` never shortens a string and leaves no ß in it |
| JsText.ToUpperCaseSimple | src/pages/ugy1/index.jsx:48 | on text without ß, `toUpperCase` is the character-for-character mapping |
| JsText.ToUpperCaseConcat | src/pages/ugy1/index.jsx:48 | `toUpperCase` distributes over concatenation |
| JsText.ToUpperCaseIdempotent | src/pages/ugy1/index.jsx:48 | applying `toUpperCase` twice is applying it once |
| JsText.ToUpperCaseFixed | src/pages/ugy1/index.jsx:48 | the character-for-character mapping leaves `toUpperCase`'s output unchanged |
| JsText.SharpSUpperCase | src/pages/ugy1/index.jsx:48 | `'ß'.toUpperCase()` is "SS", while the one-character mapping keeps "ß" |
| JsText.FoldChar | src/components/Ugy1/ChallengeInput.jsx:5-6 | NFD plus combining-mark removal leaves at most one character, and an ASCII character unchanged |
| JsText.Fold | src/components/Ugy1/ChallengeInput.jsx:5-6 | accent stripping never lengthens a string |
| JsText.Filter | src/components/Ugy1/ChallengeInput.jsx:7 | `replace(/[^…]/g,'')` keeps only characters of the class, each taken from the input, and never lengthens |
| JsText.TrimStart | src/components/Ugy1/ChallengeInput.jsx:9 | the result is a suffix that starts with a non-space, and everything dropped is white space |
| JsText.TrimEnd | src/components/Ugy1/ChallengeInput.jsx:9 | the result is a prefix that ends with a non-space, and everything dropped is white space |
| JsText.Trim | src/components/Ugy1/ChallengeInput.jsx:9 | definition: `trimEnd` after `trimStart`; what it drops and keeps is stated by `TrimDropSpaces`, `TrimUpper`, `Aurora.TrimTrimmed` and `Aurora.TrimPadded` |
| JsText.Collapse | src/components/Ugy1/ChallengeInput.jsx:8 | `replace(/\s+/g,' ')` is empty iff its input is, starts with a blank iff the input starts with white space, leaves only ' ' as white space, and has no two adjacent blanks |
| JsText.CollapseFrom | src/components/Ugy1/ChallengeInput.jsx:8 | every character of the collapsed text other than a blank is a character of the input |
| JsText.FilterConcat | src/components/Ugy1/ChallengeInput.jsx:7 | filtering distributes over concatenation |
| JsText.FilterSkip | src/components/Ugy1/ChallengeInput.jsx:7 | a character outside the class can be deleted before filtering |
| JsText.FilterKeepsAll | src/components/Ugy1/ChallengeInput.jsx:7 | filtering a string of class characters is the identity |
| JsText.FilterDropsAll | src/components/Ugy1/ChallengeInput.jsx:7 | filtering a string with no class character gives '' |
| JsText.FoldConcat | src/components/Ugy1/ChallengeInput.jsx:5-6 | accent stripping distributes over concatenation |
| JsText.FoldPointwise | src/components/Ugy1/ChallengeInput.jsx:5-6 | when every character folds to one character, the fold is that character-wise map |
| JsText.FoldAscii | src/components/Ugy1/ChallengeInput.jsx:5-6 | accent stripping leaves ASCII text unchanged |
| JsText.UpperConcat | src/components/Ugy1/ChallengeInput.jsx:10 | upper-casing distributes over concatenation |
| JsText.UpperDropSpaces | src/components/Ugy1/ChallengeInput.jsx:8-10 | removing white space commutes with upper-casing |
| JsText.TrimDropSpaces | src/components/Ugy1/ChallengeInput.jsx:9 | `trim` removes only white space |
| JsText.TrimStartDropSpaces | src/components/Ugy1/ChallengeInput.jsx:9 | `trimStart` removes only white space |
| JsText.TrimEndDropSpaces | src/components/Ugy1/ChallengeInput.jsx:9 | `trimEnd` removes only white space |
| JsText.CollapseDropSpaces | src/components/Ugy1/ChallengeInput.jsx:8 | collapsing white space keeps every non-space character in order |
| JsText.CollapseSingleBlanks | src/components/Ugy1/ChallengeInput.jsx:8 | collapsing is the identity on text whose only white space is single blanks |
| JsText.UpperCharIdempotent | src/components/Ugy1/ChallengeInput.jsx:10 | upper-casing a character twice is upper-casing it once |
| JsText.UpperIdempotent | src/components/Ugy1/ChallengeInput.jsx:10 | upper-casing a string twice is upper-casing it once |
| JsText.FoldUpperChar | src/components/Ugy1/ChallengeInput.jsx:5-10 | stripping the accent of one character commutes with upper-casing it |
| JsText.FoldUpper | src/components/Ugy1/ChallengeInput.jsx:5-10 | accent stripping commutes with upper-casing |
| JsText.FilterUpper | src/components/Ugy1/ChallengeInput.jsx:7-10 | filtering by a class closed under upper-casing commutes with upper-casing |
| JsText.TrimStartUpper | src/components/Ugy1/ChallengeInput.jsx:9-10 | `trimStart` commutes with upper-casing |
| JsText.TrimEndUpper | src/components/Ugy1/ChallengeInput.jsx:9-10 | `trimEnd` commutes with upper-casing |
| JsText.TrimUpper | src/components/Ugy1/ChallengeInput.jsx:9-10 | `trim` commutes with upper-casing |
| JsText.CollapseUpper | src/components/Ugy1/ChallengeInput.jsx:8-10 | collapsing white space commutes with upper-casing |
| ChallengeInput.NormalizeText | src/components/Ugy1/ChallengeInput.jsx:2-11 | a missing input (`null`/`undefined`) normalises to '' |
| ChallengeInput.CollapseKept | src/components/Ugy1/ChallengeInput.jsx:7-8 | after filtering to `[A-Za-z0-9\s]` and collapsing, only letters, digits and single blanks remain |
| ChallengeInput.TrimCollapsed | src/components/Ugy1/ChallengeInput.jsx:8-9 | trimming collapsed text keeps it collapsed and leaves no blank at either end |
| ChallengeInput.UpperTrimmed | src/components/Ugy1/ChallengeInput.jsx:9-10 | upper-casing trimmed, collapsed text yields the normal form |
| ChallengeInput.NormalizeTextNormalForm | src/components/Ugy1/ChallengeInput.jsx:2-11 | every output holds only A–Z, 0–9 and blanks, has no blank at either end and no two adjacent blanks |
| ChallengeInput.NormalFormFixed | src/components/Ugy1/ChallengeInput.jsx:2-11 | text already in normal form normalises to itself |
| ChallengeInput.NormalAscii | src/components/Ugy1/ChallengeInput.jsx:2-11 | normal-form text is ASCII |
| ChallengeInput.NormalKept | src/components/Ugy1/ChallengeInput.jsx:7 | normal-form text passes the punctuation filter unchanged |
| ChallengeInput.NormalBlanks | src/components/Ugy1/ChallengeInput.jsx:8 | the only white space in normal-form text is ' ' |
| ChallengeInput.NormalUpper | src/components/Ugy1/ChallengeInput.jsx:10 | normal-form text is its own upper case |
| ChallengeInput.TrimFixed | src/components/Ugy1/ChallengeInput.jsx:9 | normal-form text is its own trim |
| ChallengeInput.NormalizeIdempotent | src/components/Ugy1/ChallengeInput.jsx:2-11 | normalising twice is normalising once |
| ChallengeInput.NormalizeIgnoresPunctuation | src/components/Ugy1/ChallengeInput.jsx:7 | deleting an ASCII punctuation character anywhere does not change the normal form |
| ChallengeInput.NormalizeIgnoresFinalPunctuation | src/components/Ugy1/ChallengeInput.jsx:7 | deleting a final ASCII punctuation character does not change the normal form |
| ChallengeInput.NormalizeDropsChar | src/components/Ugy1/ChallengeInput.jsx:7 | the same, stated for given strings `x = a + [c] + b` and `y = a + b` |
| ChallengeInput.PunctuationFiltered | src/components/Ugy1/ChallengeInput.jsx:5-7 | after accent stripping, the filter removes an ASCII punctuation character |
| ChallengeInput.FoldSplit | src/components/Ugy1/ChallengeInput.jsx:5-6 | an ASCII character passes through accent stripping in place |
| ChallengeInput.NormalizeIgnoresCase | src/components/Ugy1/ChallengeInput.jsx:10 | upper-casing the input character for character first does not change the normal form |
| ChallengeInput.NormalizeCaseInsensitive | src/components/Ugy1/ChallengeInput.jsx:10 | inputs with the same character-for-character upper case have the same normal form |
| ChallengeInput.NormalizeToUpperCase | src/components/Ugy1/ChallengeInput.jsx:2-11 | the final `toUpperCase` only meets ASCII letters, digits and blanks, so the model's character-for-character upper case is `normalizeText`'s own |
| ChallengeInput.NormalizeIgnoresToUpperCase | src/components/Ugy1/ChallengeInput.jsx:2-11 | applying `toUpperCase` to an answer without ß first does not change its normal form |
| ChallengeInput.NormalizeSharpS | src/components/Ugy1/ChallengeInput.jsx:2-11 | "ß" normalises to '' but its `toUpperCase`, "SS", to "SS" |
| ChallengeInput.NormalizeExample | src/components/Ugy1/ChallengeInput.jsx:7-10 | "a, b" and "A B" normalise alike |
| ChallengeInput.ExampleDropComma | src/components/Ugy1/ChallengeInput.jsx:7 | "a, b" and "a b" normalise alike |
| ChallengeInput.ExampleCase | src/components/Ugy1/ChallengeInput.jsx:10 | "a b" and "A B" normalise alike |
| ChallengeInput.OnSubmit | src/components/Ugy1/ChallengeInput.jsx:16-19 | the status is ok iff a check callback exists and returns true, and err when there is none |
| Ciphers.Letter | src/pages/ugy1/index.jsx:47 | `A[i]` for i in 0..25 is a capital |
| Ciphers.IndexOf | src/pages/ugy1/index.jsx:51 | `A.indexOf(ch)` is the letter's position for a capital and -1 for anything else |
| Ciphers.AlphabetLetters | src/pages/ugy1/index.jsx:47 | the alphabet constant has 26 letters, position i holding `Letter(i)` |
| Ciphers.JsRem | src/pages/ugy1/index.jsx:53 | JavaScript `%` truncates: the remainder lies strictly between -b and b, takes the dividend's sign, and satisfies `a == b*q + r` |
| Ciphers.JsRemMod | src/pages/ugy1/index.jsx:53 | `(i - shift%26 + 26) % 26` equals `(i - shift)` modulo 26 for every shift, including negative ones |
| Ciphers.CaesarCharShifts | src/pages/ugy1/index.jsx:51-54 | a capital moves exactly `shift` places back, modulo 26 |
| Ciphers.CaesarShiftDecode | src/pages/ugy1/index.jsx:46-57 | the output is as long as the input after `toUpperCase` (ß doubled to "SS"), copies every non-letter, and replaces each letter `A[i]` by `A[(i - shift) mod 26]` |
| Ciphers.CaesarSharpS | src/pages/ugy1/index.jsx:48 | "ß" decoded with shift 0 is "SS" |
| Ciphers.KeySharpS | src/pages/ugy1/index.jsx:62 | a key "ß" is the two key letters "SS" |
| Ciphers.CaesarShiftMod26 | src/pages/ugy1/index.jsx:53 | shifts that agree modulo 26 decode alike |
| Ciphers.CaesarShiftZero | src/pages/ugy1/index.jsx:46-57 | shift 0 is the identity on upper-cased text |
| Ciphers.CaesarRoundTrip | src/pages/ugy1/index.jsx:46-57 | decoding with `-shift` undoes decoding with `shift` |
| Ciphers.FoldKeptIsUpper | src/pages/ugy1/index.jsx:61-65 | text of A–Z and the accented capitals ÁÉÍÓÖŐÚÜŰ folds to A–Z only |
| Ciphers.CipherLetters | src/pages/ugy1/index.jsx:61-65 | the text the decoder walks is all A–Z |
| Ciphers.KeyLetters | src/pages/ugy1/index.jsx:62 | the cleaned key is all A–Z |
| Ciphers.KeyShift | src/pages/ugy1/index.jsx:68 | the key index is -1 exactly when the key is empty, and a letter position otherwise |
| Ciphers.VigenereDecode | src/pages/ugy1/index.jsx:59-74 | the output has one letter per cipher letter, the j-th moved back by key letter `k[j mod |k|]` |
| Ciphers.DecodeLetters | src/pages/ugy1/index.jsx:66-72 | the letter loop with its running key index yields exactly the specified decoding of the cleaned text |
| Ciphers.VigenereEmptyKey | src/pages/ugy1/index.jsx:68-69 | an empty key moves every letter one place forward |
| Ciphers.VigenereOneLetterKey | src/pages/ugy1/index.jsx:59-74 | a one-letter key is a Caesar shift by that letter's position |
| Ciphers.VigenereKeyA | src/pages/ugy1/index.jsx:59-74 | key "A" is the identity on A–Z text |
| Ciphers.VigenereEncode | src/pages/ugy1/index.jsx:59-74 | the encoder keeps the length and yields A–Z text |
| Ciphers.VigenereRoundTrip | src/pages/ugy1/index.jsx:59-74 | decoding an encoded text with the same key gives it back |
| Puzzle.Next | src/pages/ugy1/index.jsx:92 | `next` keeps `done`, advances the step by one below 4, and never goes above 4 |
| Puzzle.NextIterate | src/pages/ugy1/index.jsx:92 | k calls of `next` advance the step by k, capped at 4 |
| Puzzle.NextAtLast | src/pages/ugy1/index.jsx:92 | `next` on the last step changes nothing |
| Puzzle.MarkDone | src/pages/ugy1/index.jsx:93-95 | `markDone(i)` sets `done[i]` and no other entry, and keeps the step |
| Puzzle.CountTrue | src/pages/ugy1/index.jsx:97 | the count of true flags is at most the length, and equal to it iff all are set |
| Puzzle.CountTrueUpdate | src/pages/ugy1/index.jsx:93-97 | setting a flag raises the count by one if it was unset, else not at all |
| Puzzle.MarkDoneIdempotent | src/pages/ugy1/index.jsx:93-95 | marking a task twice is marking it once |
| Puzzle.Progress | src/pages/ugy1/index.jsx:97 | progress is a multiple of 20 in 0..100; it is 100 iff all five tasks are done and 0 iff none is |
| Puzzle.ZeroCount | src/pages/ugy1/index.jsx:97 | the count is 0 iff no flag is set |
| Puzzle.ProgressMarkDone | src/pages/ugy1/index.jsx:93-97 | marking a task raises progress by 20 if it was not done, else not at all; the initial progress is 0 |
| Puzzle.Digits | src/pages/ugy1/index.jsx:254 | `replace(/\D/g,'')` leaves only digits and never lengthens |
| Puzzle.Answer | src/pages/ugy1/index.jsx:141-146 | the status is ok iff the card's check passes. On ok, the card's task is done, the step advances (capped at 4) and the other flags are kept; on err, nothing changes |
| Puzzle.TableDone | src/pages/ugy1/index.jsx:344 | the table's `onDone` marks task 5 only and keeps the step |
| Puzzle.AnswerProgress | src/pages/ugy1/index.jsx:97 | an answer never lowers progress, and a rejected one leaves it unchanged |
| Puzzle.AnswerAccepted | src/pages/ugy1/index.jsx:144 | an accepted answer sets exactly its own flag and moves the step one on |
| Puzzle.TableCompletes | src/pages/ugy1/index.jsx:344 | with tasks 1–4 done, completing the table brings progress to 100 |
| Puzzle.Task1Check | src/pages/ugy1/index.jsx:141-146 | definition: the normalised answer equals the normalised "Vigyázz, Zoli lehet titkosügynök."; `Task1Normal` characterises it |
| Puzzle.Task2Check | src/pages/ugy1/index.jsx:199-205 | definition: the normalised answer without `[\s\-_.]` is "NYOMOK"; `Task2Normal` and `Task2Example` are about it |
| Puzzle.Task3Check | src/pages/ugy1/index.jsx:253-257 | definition: the answer's digits are "3871"; `CodesAccepted` and `DigitsIgnoreOthers` are about it |
| Puzzle.Task4Check | src/pages/ugy1/index.jsx:308-312 | definition: the answer's digits are "3542"; `Solution.Task4Accepts` and `CodesDistinct` are about it |
| Puzzle.TaskCheck | src/pages/ugy1/index.jsx:141-312 | definition: the `onCheck` of task card 0..3, as `Answer` applies it |
| Puzzle.Task1Normal | src/pages/ugy1/index.jsx:141-143 | task 1 accepts exactly the answers that normalise to "VIGYAZZ ZOLI LEHET TITKOSUGYNOK" |
| Puzzle.Task1Solvable | src/pages/ugy1/index.jsx:128 | the task-1 ciphertext after `toUpperCase`, decoded with shift 3, passes task 1's check; this is the text `CaesarShiftDecode` returns for it |
| Puzzle.CipherToUpperCase | src/pages/ugy1/index.jsx:48 | the task-1 ciphertext is ASCII, so its `toUpperCase` is its letter-by-letter upper case |
| Puzzle.CipherAscii | src/pages/ugy1/index.jsx:128 | the task-1 ciphertext is ASCII |
| Puzzle.CipherDecodes | src/pages/ugy1/index.jsx:128 | the task-1 ciphertext decodes with shift 3 to "VIGYAZZ, ZOLI LEHET TITKOSUGYNOK" |
| Puzzle.CipherUpper | src/pages/ugy1/index.jsx:128 | the upper case of the ciphertext |
| Puzzle.CipherShifted | src/pages/ugy1/index.jsx:128 | the shift-3 decoding of the upper-cased ciphertext |
| Puzzle.NormalFixed | src/pages/ugy1/index.jsx:142 | the expected normal form normalises to itself |
| Puzzle.DecodedNormal | src/pages/ugy1/index.jsx:142 | the decoded ciphertext normalises to the expected normal form |
| Puzzle.NormalizeFolded | src/components/Ugy1/ChallengeInput.jsx:5-6 | text whose accent-stripped form is ASCII normalises like that form |
| Puzzle.ExpectedFolds | src/pages/ugy1/index.jsx:142 | the expected answer strips to "Vigyazz, Zoli lehet titkosugynok." |
| Puzzle.AccentsOneToOne | src/pages/ugy1/index.jsx:142 | each character of the expected answer strips to one character |
| Puzzle.AccentsStripped | src/pages/ugy1/index.jsx:142 | the expected answer's characters strip one by one to the ASCII text |
| Puzzle.ExpectedNormal | src/pages/ugy1/index.jsx:142 | the expected answer normalises to "VIGYAZZ ZOLI LEHET TITKOSUGYNOK" |
| Puzzle.StripAccents | src/pages/ugy1/index.jsx:142 | the expected answer normalises like its accent-free spelling |
| Puzzle.ExpectedAscii | src/pages/ugy1/index.jsx:142 | the accent-free spelling is ASCII |
| Puzzle.IgnoreCase | src/pages/ugy1/index.jsx:142 | the mixed-case spelling normalises to the expected normal form |
| Puzzle.DropPeriod | src/pages/ugy1/index.jsx:142 | the final period does not change the normal form |
| Puzzle.DropComma | src/pages/ugy1/index.jsx:142 | the comma does not change the normal form |
| Puzzle.ExpectedUpper | src/pages/ugy1/index.jsx:142 | the upper case of the accent-free words |
| Puzzle.Task2Example | src/pages/ugy1/index.jsx:199-205 | "ny-omok." passes task 2 |
| Puzzle.Task2Normal | src/pages/ugy1/index.jsx:199-205 | every answer that normalises to "NYOMOK" passes task 2 |
| Puzzle.NyomokKept | src/pages/ugy1/index.jsx:202 | removing separators leaves "NYOMOK" alone |
| Puzzle.DropFinalStop | src/pages/ugy1/index.jsx:202 | a final period does not change the normal form of "ny-omok" |
| Puzzle.DropHyphen | src/pages/ugy1/index.jsx:202 | the hyphen in "ny-omok" does not change the normal form |
| Puzzle.NyomokCase | src/pages/ugy1/index.jsx:202 | "nyomok" and "NYOMOK" normalise alike |
| Puzzle.NyomokFixed | src/pages/ugy1/index.jsx:202 | "NYOMOK" is its own normal form |
| Puzzle.DigitsIgnoreOthers | src/pages/ugy1/index.jsx:253-257 | inserting a non-digit anywhere changes neither the digit string nor the verdicts of tasks 3 and 4 |
| Puzzle.CodesAccepted | src/pages/ugy1/index.jsx:253-257 | "3871" passes task 3 and "3542" passes task 4 |
| Puzzle.DigitsOnly | src/pages/ugy1/index.jsx:254 | a string of digits is its own digit string |
| Puzzle.CodesDistinct | src/pages/ugy1/index.jsx:308-312 | no answer passes both task 3 and task 4 |
| MatchTable.MatchNorm | src/pages/ugy1/index.jsx:567-572 | the table's `norm` yields only A–Z and 0–9 |
| MatchTable.FindFree | src/pages/ugy1/index.jsx:599-604 | `findIndex` returns the first unused entry that accepts the text and source pair, or -1 when no unused entry does |
| MatchTable.Check | src/pages/ugy1/index.jsx:593-610 | the loop with its `used` set succeeds exactly when the greedy walk does, and shows the ok or the wrong message to match |
| MatchTable.AcceptTableUnambiguous | src/pages/ugy1/index.jsx:576-585 | no two entries of `ACCEPT` accept the same pair |
| MatchTable.SameEntry | src/pages/ugy1/index.jsx:576-585 | in an unambiguous table, two entries accepting one pair are the same entry |
| MatchTable.FindFreeSlot | src/pages/ugy1/index.jsx:599-604 | with a used set, `findIndex` finds the row's own entry unless it is used |
| MatchTable.SlotIs | src/pages/ugy1/index.jsx:599-604 | an entry that accepts the row is the row's entry |
| MatchTable.GreedyAssignable | src/pages/ugy1/index.jsx:593-607 | on an unambiguous table the greedy walk succeeds iff every row has an unused entry and the rows' entries are pairwise distinct |
| MatchTable.AssignableFirst | src/pages/ugy1/index.jsx:596-606 | the rows can be assigned iff the rest can once the first row's entry is used |
| MatchTable.CheckIff | src/pages/ugy1/index.jsx:593-610 | `check` succeeds iff every row matches an entry, no two rows sharing one |
| MatchTable.AssignablePasses | src/pages/ugy1/index.jsx:593-610 | rows with distinct matching entries pass |
| MatchTable.PassesAssignable | src/pages/ugy1/index.jsx:593-610 | passing rows have distinct matching entries |
| MatchTable.DuplicateRowFails | src/pages/ugy1/index.jsx:600 | two rows that normalise alike make the check fail |
| MatchTable.SwapPasses | src/pages/ugy1/index.jsx:593-610 | exchanging two rows of a passing table keeps it passing |
| MatchTable.SwapTwice | src/pages/ugy1/index.jsx:586-592 | exchanging two rows twice restores the table |
| MatchTable.SwapRows | src/pages/ugy1/index.jsx:593-610 | the verdict does not depend on the order of two rows |
| MatchTable.SwapAssignable | src/pages/ugy1/index.jsx:593-610 | an assignment survives exchanging two rows |
| MatchTable.DistinctAt | src/pages/ugy1/index.jsx:600 | assigned rows have different entries |
| MatchTable.AnyOrderPasses | src/pages/ugy1/index.jsx:576-610 | four rows that hold the four accepted pairs pass in any order |
| MatchTable.PermutationAssignable | src/pages/ugy1/index.jsx:576-610 | four rows holding the accepted pairs under a permutation can be assigned |
| MatchTable.SlotAccepts | src/pages/ugy1/index.jsx:599-604 | a row's entry, if any, is a real entry that accepts it |
| MatchTable.PassingRowsAccepted | src/pages/ugy1/index.jsx:593-610 | every row of a passing table matches some accepted entry on both text and source |
| MatchTable.UpdateRow | src/pages/ugy1/index.jsx:586-592 | `updateRow(i, field, val)` sets that field of row i and changes no other field or row |
| MatchTable.UpdateRowCommutes | src/pages/ugy1/index.jsx:586-592 | edits of different fields or rows commute |
| MatchTable.UpdateRowOverwrites | src/pages/ugy1/index.jsx:586-592 | a second edit of a field overwrites the first |
| MatchTable.InitialFails | src/pages/ugy1/index.jsx:560-565 | the empty table as first shown does not pass |
| WordSearch.InBounds | src/pages/ugy1/index.jsx:390 | definition: row and column both in 0..9 |
| WordSearch.CellText | src/pages/ugy1/index.jsx:389 | a cell contributes at most one character |
| WordSearch.StepsOf | src/pages/ugy1/index.jsx:393 | the number of unit steps from a to a + d·i is i |
| WordSearch.RunIndex | src/pages/ugy1/index.jsx:399-403 | a cell's index in a placement's run, when the cell lies on the run; -1 when no letter of the run lands on it |
| WordSearch.CellOfInjective | src/pages/ugy1/index.jsx:393 | distinct letters of a unit-step run land on distinct cells |
| WordSearch.RunIndexOf | src/pages/ugy1/index.jsx:393 | the run index of letter i's cell is i |
| WordSearch.CanPlace | src/pages/ugy1/index.jsx:391-398 | true iff every cell `(r+dr·i, c+dc·i)` is on the grid and empty or already holds `word[i]` |
| WordSearch.PlaceWord | src/pages/ugy1/index.jsx:399-403 | writes `word[i]` to `(r+dr·i, c+dc·i)` for each i and leaves every other cell unchanged |
| WordSearch.PlannedFit | src/pages/ugy1/index.jsx:405-410 | each planned placement is horizontal or vertical with a unit step, lies on the grid, and places the word list in order |
| WordSearch.PlannedDisjoint | src/pages/ugy1/index.jsx:405-410 | no two planned placements share a cell |
| WordSearch.PlacedKept | src/pages/ugy1/index.jsx:412 | a letter no later placement overwrites stays in place |
| WordSearch.PlacedNone | src/pages/ugy1/index.jsx:412 | a cell off every run stays empty |
| WordSearch.PlacedOnRun | src/pages/ugy1/index.jsx:412 | after placement each run holds its word |
| WordSearch.PlacedOffRuns | src/pages/ugy1/index.jsx:412 | after placement every other cell is empty |
| WordSearch.PlacedUpper | src/pages/ugy1/index.jsx:412 | after placing capital words every cell is empty or a capital |
| WordSearch.Fill | src/pages/ugy1/index.jsx:413-418 | every empty cell gets the drawn letter, and every filled cell is unchanged |
| WordSearch.PlannedGrid | src/pages/ugy1/index.jsx:389-412 | the fresh grid after placement is the placed board |
| WordSearch.NewBoard | src/pages/ugy1/index.jsx:389-418 | the fresh grid after placement and fill is the board |
| WordSearch.BoardLetters | src/pages/ugy1/index.jsx:413-418 | after fill no cell is empty, every cell is one letter A–Z, and placed cells are unchanged |
| WordSearch.RowTextAt | src/pages/ugy1/index.jsx:477 | a row read holds the cells' letters in column order |
| WordSearch.ColTextAt | src/pages/ugy1/index.jsx:481 | a column read holds the cells' letters in row order |
| WordSearch.RunCells | src/pages/ugy1/index.jsx:460-473 | definition: the cells between the two ends along their common row, else along their common column, else none; `CollectRun` proves the loops of `markSel` and `commit` produce this set |
| WordSearch.ReadSel | src/pages/ugy1/index.jsx:474-485 | definition: the letters of the row run, else of the column run, else ''; `ReadSelRun` states what it reads |
| WordSearch.ReadSelRun | src/pages/ugy1/index.jsx:474-485 | `readSel` is '' for unaligned ends and otherwise the run from the lower to the higher index, so it does not depend on which end is the anchor |
| WordSearch.Reverse | src/pages/ugy1/index.jsx:489 | `split('').reverse().join('')` keeps the length and mirrors the positions |
| WordSearch.ReverseReverse | src/pages/ugy1/index.jsx:489 | reversing twice is the identity |
| WordSearch.FindWord | src/pages/ugy1/index.jsx:490 | `WORDS.find` returns the first word equal to `s` or its reverse, or none |
| WordSearch.Resolve | src/pages/ugy1/index.jsx:489-490 | the match is a listed or active word equal to `s` or its reverse; none means neither the active word nor any listed word matches |
| WordSearch.WordLengths | src/pages/ugy1/index.jsx:383 | the four words have different lengths |
| WordSearch.ActiveIrrelevant | src/pages/ugy1/index.jsx:490 | with this word list the active word never changes which word is found |
| WordSearch.LetterToDigit | src/pages/ugy1/index.jsx:506-510 | the digit of a capital is `(code - 64) mod 10`, in 0..9 |
| WordSearch.DigitChar | src/pages/ugy1/index.jsx:516 | `String(d)` of a digit is a digit character |
| WordSearch.WordDigits | src/pages/ugy1/index.jsx:506-517 | the digits of CIPHER, ENCRYPT, DATA, LOGIC are 3, 5, 4, 2 |
| WordSearch.FirstLetter | src/pages/ugy1/index.jsx:511-512 | the letter converted is the found word's first letter, a capital |
| WordSearch.CommitStep | src/pages/ugy1/index.jsx:486-524 | definition: `commit`'s new state from the read string and the two ends; `CommitEmpty`, `CommitNoMatch`, `CommitMatch`, `CommitValid` and `CommitIdempotent` state what it does |
| WordSearch.ClickStep | src/pages/ugy1/index.jsx:442-445 | definition: a click on an unfound word makes it active; `ClickValid` is about it |
| WordSearch.DownStep | src/pages/ugy1/index.jsx:527-535 | definition: button 0 or 2 on a cell starts a drag there and clears the highlight; `DownStarts` is about it |
| WordSearch.OverStep | src/pages/ugy1/index.jsx:536-543 | definition: during a drag an aligned cell highlights the run; `OverHighlights` is about it |
| WordSearch.UpStep | src/pages/ugy1/index.jsx:544-553 | definition: release ends the drag and commits an aligned selection, else clears it; `UpEnds` is about it |
| WordSearch.CommitEmpty | src/pages/ugy1/index.jsx:487-488 | a selection that reads '' changes nothing, not even the highlight |
| WordSearch.CommitNoMatch | src/pages/ugy1/index.jsx:489-523 | a selection matching no word only clears the highlight |
| WordSearch.CommitMatch | src/pages/ugy1/index.jsx:491-523 | a match marks the run found, adds the word, resets the active word if it was found, labels the anchor (forward) or release cell with the digit, shows done iff all words are found, and clears the highlight |
| WordSearch.CommitMatchState | src/pages/ugy1/index.jsx:491-523 | the whole new state after a match |
| WordSearch.CommitGrows | src/pages/ugy1/index.jsx:491-523 | found cells, found words and labels only grow, and the done indicator stays once shown |
| WordSearch.CommitValid | src/pages/ugy1/index.jsx:486-524 | `commit` keeps the invariant that done is shown iff every word is found |
| WordSearch.CommitIdempotent | src/pages/ugy1/index.jsx:486-524 | committing the same selection twice is committing it once |
| WordSearch.RecommitMatch | src/pages/ugy1/index.jsx:491-523 | repeating a matching commit changes nothing |
| WordSearch.ClickValid | src/pages/ugy1/index.jsx:442-445 | clicking a list item activates it unless it is already found |
| WordSearch.DownStarts | src/pages/ugy1/index.jsx:527-535 | only buttons 0 and 2 on a cell start a drag; they set the anchor, raise `isDown` and clear the highlight |
| WordSearch.OverHighlights | src/pages/ugy1/index.jsx:536-543 | moving over a cell changes only the highlight, and only during a drag to an aligned cell, where it becomes exactly the run |
| WordSearch.UpEnds | src/pages/ugy1/index.jsx:544-553 | release ends any drag; found marks change only on release over a cell aligned with the anchor |
| WordSearch.BoardGlyphs | src/pages/ugy1/index.jsx:413-418 | a board grid has a letter in every cell |
| WordSearch.RunCellLetter | src/pages/ugy1/index.jsx:405-418 | each planned run holds its word on the board |
| WordSearch.RunReads | src/pages/ugy1/index.jsx:474-485 | reading a placed run between its ends gives the word for a right or down run and its reverse for a left or up run |
| WordSearch.ReadsRight | src/pages/ugy1/index.jsx:475-478 | a run going right reads as its word |
| WordSearch.ReadsDown | src/pages/ugy1/index.jsx:479-482 | a run going down reads as its word |
| WordSearch.ReadsLeft | src/pages/ugy1/index.jsx:475-478 | a run going left reads reversed |
| WordSearch.ReadsUp | src/pages/ugy1/index.jsx:479-482 | a run going up reads reversed |
| WordSearch.PlannedRunReads | src/pages/ugy1/index.jsx:405-418 | on the board, CIPHER and ENCRYPT read forward, and DATA and LOGIC reversed |
| WordSearch.ResolvesTo | src/pages/ugy1/index.jsx:490 | a string matching a listed word resolves to it |
| WordSearch.PlannedDragFinds | src/pages/ugy1/index.jsx:486-490 | dragging along a planned run, in either direction, finds its word |
| WordSearch.IntendedDigitCellHoldsFirstLetter | src/pages/ugy1/index.jsx:511-513 | with the corrected cell choice the digit always lands on the word's first letter |
| WordSearch.DigitCellMisplaced | src/pages/ugy1/index.jsx:511-513 | dragging CIPHER from (1,6) to (1,1) reads "CIPHER", so the written cell is the anchor (1,6), which holds 'R', while the corrected cell is (1,1) |
| WordSearch.StampStart | src/pages/ugy1/index.jsx:675-682 | one stamp replaces the capital at `(p.r, p.c)` by its digit and nothing else |
| WordSearch.NewArchive | src/pages/ugy1/index.jsx:655-688 | the archive grid is placement, stamping, then fill |
| WordSearch.StampAll | src/pages/ugy1/index.jsx:674-682 | the stamping loop over the placements leaves the grid stamped at every placement's start cell |
| WordSearch.StampNext | src/pages/ugy1/index.jsx:675-681 | one pass of that loop adds exactly the next placement's stamp |
| WordSearch.StartsOnGrid | src/pages/ugy1/index.jsx:667-672 | each placement's `(p.r, p.c)` is its run's first cell and on the grid |
| WordSearch.StampedElsewhere | src/pages/ugy1/index.jsx:675-682 | stamping leaves cells other than the start cells unchanged |
| WordSearch.ArchiveDigits | src/pages/ugy1/index.jsx:675-682 | the archive shows each word's digit on its own start cell: 3, 5, 4, 2 in list order |
| WordSearch.ArchiveElsewhere | src/pages/ugy1/index.jsx:655-688 | for the same drawn letters, the archive differs from the mount's board only at the four start cells |
| WordSearch.ArchiveSharesRuns | src/pages/ugy1/index.jsx:412-418 | with the mount and the archive drawing separately, both show every letter of a planned run after its start cell |
| WordSearch.IntendedMatchesArchive | src/pages/ugy1/index.jsx:511-513 | for each planned word dragged either way, the corrected cell is the start cell the archive stamps |
| WordSearch.CollectRun | src/pages/ugy1/index.jsx:492-502 | the loops over the run collect exactly the run's cells |
| WordSearch.CommitOutcome | src/pages/ugy1/index.jsx:489-521 | computes the state `commit` leaves after a non-empty read |
| WordSearch.Game.constructor | src/pages/ugy1/index.jsx:382-452 | mounting builds the filled board with nothing selected, active or found |
| WordSearch.Game.ClickWord | src/pages/ugy1/index.jsx:442-445 | the click handler activates the word unless it is found |
| WordSearch.Game.MarkSel | src/pages/ugy1/index.jsx:460-473 | `markSel` clears first, so the highlight is exactly the run |
| WordSearch.Game.Commit | src/pages/ugy1/index.jsx:486-524 | `commit` moves to the commit step of the read selection and never changes the grid array |
| WordSearch.Game.MouseDown | src/pages/ugy1/index.jsx:527-535 | the mousedown handler is the down step |
| WordSearch.Game.MouseOver | src/pages/ugy1/index.jsx:536-543 | the mouseover handler is the over step |
| WordSearch.Game.MouseUp | src/pages/ugy1/index.jsx:544-553 | the mouseup handler is the up step |
| Solution.ArchiveCodeIs | src/pages/ugy1/index.jsx:675-682 | whatever letters fill the board, the archive's start cells read "3542" |
| Solution.Task4Accepts | src/pages/ugy1/index.jsx:308-312 | task 4 accepts "3542" |
| Solution.ArchiveCodeSolvesTask4 | src/pages/ugy1/index.jsx:308-312 | typing the archive code into task 4 is accepted |
| Assembler.RouteKey | js/app.js:14-17 | the key is never empty; for '' and '/' it is "index.html"; otherwise exactly one leading '/' is removed |
| Assembler.RouteKeyOfPath | js/app.js:14-17 | routing "/" + k gives k back for every non-empty k |
| Assembler.RouteKeyStripsOnce | js/app.js:15 | only one '/' is removed: "//x" routes to "/x" |
| Assembler.RouteKeyIndex | js/app.js:14-17 | the key is "index.html" exactly for '', '/', "index.html" and "/index.html" |
| Assembler.PageKey | js/app.js:30 | the routed name when the table maps the key to a non-empty name, otherwise "landing" |
| Assembler.PageKeyFromTable | js/app.js:30 | every page key other than "landing" comes from the routing table |
| Assembler.ResolvePage | js/app.js:31 | the named page when present, otherwise a page with no blocks |
| Assembler.Fragment | js/app.js:35-39 | a fetched partial's text, or `<!-- missing: path -->` when the fetch fails |
| Assembler.BlocksHtml | js/app.js:32-41 | definition: the fragments of the partial blocks with a path, in block order; `BlocksHtmlAt`, `BlocksHtmlLength` and `CollectBlocks` are about it |
| Assembler.BlocksHtmlConcat | js/app.js:33-41 | collection distributes over concatenation of block lists |
| Assembler.BlocksHtmlLength | js/app.js:33-41 | one entry per block that is a partial with a path |
| Assembler.BlocksHtmlAt | js/app.js:33-41 | such a block's fragment sits at the position given by the number of such blocks before it, so block order is kept |
| Assembler.BlocksHtmlSkipsBlock | js/app.js:34 | any other block contributes nothing |
| Assembler.BlocksHtmlSkips | js/app.js:34 | removing a block that is not a partial with a path changes nothing |
| Assembler.CollectBlocks | js/app.js:32-41 | the push loop yields exactly the fragments of the blocks, in order |
| Assembler.Assemble | js/app.js:23-55 | renders iff there is an `#app` root and both data documents load; header and footer fall back to empty elements; the main area is the page's fragments; hydration is attempted iff the page key is "aurora" |
| Assembler.UnknownPageEmpty | js/app.js:31 | an unknown page key gives an empty main area |
| Aurora.TrimTrimmed | js/app.js:88 | `trim` is idempotent and leaves no white space at either end |
| Aurora.TrimPadded | js/app.js:88 | white space typed around a trimmed text is removed by `trim` |
| Aurora.CheckGate | js/app.js:88-90 | the verdict is "empty" iff the trimmed input is empty, and "open" iff it is non-empty and equals the password |
| Aurora.NoPassNoUnlock | js/app.js:90 | with the password absent the gate never opens |
| Aurora.GateOpensOnlyTrimmed | js/app.js:88-90 | the gate opens only for a non-empty password with no white space at its ends |
| Aurora.GateOpensForPass | js/app.js:88-90 | such a password opens the gate with any white space typed around it |
| Aurora.CheckEntry | js/app.js:148-154 | empty, then characters outside `[A-Za-z0-9-]`, then equality of the `toUpperCase` of the trimmed input and of the expected code, checked in that order, each verdict stated as an iff |
| Aurora.CodeUpper | js/app.js:149-153 | upper-casing character for character neither creates nor removes characters of the code class |
| Aurora.CodeToUpperCase | js/app.js:152-153 | a code's `toUpperCase` is its character-for-character upper case and is again a code |
| Aurora.EntryCaseInsensitive | js/app.js:153 | inputs whose trims have the same character-for-character upper case get the same verdict |
| Aurora.EntrySharpS | js/app.js:153 | for the expected code "ß" the input "ss" is accepted |
| Aurora.AcceptedExpectedIsCode | js/app.js:152-153 | an expected code whose `toUpperCase` falls outside the class can never be entered |
| Aurora.EntryAcceptsExpected | js/app.js:148-153 | the expected code itself, padded with white space, is accepted |
| Aurora.RenderCard | js/app.js:100-109 | a locked card becomes a div with `aria-disabled`, no link and the lock badge; an unlocked one a link whose target defaults to '#'; both get class `level-card`, the label "Ügy #n", the image with alt text "Ügy n" and the card's title |
| Aurora.RenderCards | js/app.js:97-112 | cards are rendered one by one in order, and only when `levels.cards` is an array |
| Aurora.RenderedLinks | js/app.js:100-103 | every rendered card is a disabled one with no link or a link with a non-empty target |
| Aurora.UnlockStep | js/app.js:71-79 | definition: the flag is stored, gate and blur lifted, intro shown, levels hidden, the mission's ready text written and the entry handlers attached; `UnlockValid` is about it |
| Aurora.GateStep | js/app.js:86-91 | definition: an empty key writes the empty-key error, the password unlocks, anything else writes the wrong-key error; `GateStepValid` is about it |
| Aurora.DoneEntryStep | js/app.js:141-147 | definition: the entry flag, the ok status, the access code, intro hidden and levels shown; `DoneEntryValid` is about it |
| Aurora.EntryStep | js/app.js:148-154 | definition: `handleEntry` by the verdict of `CheckEntry`; `EntryStepValid` and `LevelsNeedCode` are about it |
| Aurora.InitialValid | js/app.js:56-70 | the blurred page with the gate up satisfies the page invariant |
| Aurora.UnlockValid | js/app.js:71-79 | `unlock` keeps the invariant, sets the unlock flag, lifts the gate and blur, shows the intro and hides the levels, leaving the error, status highlight and code lines alone |
| Aurora.LoadedState | js/app.js:84 | at load the gate is down iff the stored flag is '1', and the levels panel never starts shown |
| Aurora.GateStepValid | js/app.js:86-91 | a submit keeps the invariant; it unlocks on a match and otherwise writes only the error line |
| Aurora.GateStaysWithoutPass | js/app.js:86-91 | with no password, no sequence of submits lifts the gate |
| Aurora.DoneEntryValid | js/app.js:141-147 | `doneEntry` sets the entry flag, shows the ok status and the access code, hides the intro and shows the levels |
| Aurora.EntryStepValid | js/app.js:148-154 | `handleEntry` keeps the invariant and each rejection writes exactly its own error status |
| Aurora.LevelsNeedCode | js/app.js:148-154 | the levels panel comes into view only through an accepted code |
| Aurora.GatePage.constructor | js/app.js:56-84 | once `/data/aurora.json` has loaded, hydration blurs the page and unlocks at once when the stored flag is '1' |
| Aurora.GatePage.Unlock | js/app.js:71-79 | the page moves to the unlock step |
| Aurora.GatePage.SubmitGate | js/app.js:86-91 | the submit handler moves to the gate step |
| Aurora.GatePage.SetEntryStatus | js/app.js:135-140 | writes the status highlight and text |
| Aurora.GatePage.DoneEntry | js/app.js:141-147 | the page moves to the done-entry step |
| Aurora.GatePage.HandleEntry | js/app.js:148-154 | the entry handler moves to the entry step |

## Left out

- Rendering is not modelled: JSX, DOM element creation, `innerHTML` templates, CSS styles and class lists. Highlighted and found cells, panels and status lines are sets, flags and optional texts instead.
- `PerfImg`, the image prefetch effect, `scripts/optimize-images.js`, `NarrativeBlock.jsx` and `TaskCard.jsx` are not part of this model: they have no game logic.
- Randomness: `Math.random` in a grid fill is a parameter `rand` that gives an index 0..25 for each cell. The mount and `ArchiveModal` draw separately, so `WordSearch.ArchiveSharesRuns` takes one parameter for each; what the two grids share is only the planned runs and, on the archive, the stamped start digits.
- Network and storage are abstract:
  - `fetch` is a function from a URL to optional text. Two reads of one URL give the same answer.
  - The routing and pages documents are inputs that are present, or absent when the request fails.
  - `sessionStorage` is a map whose writes always succeed.
  - The asynchronous order of the requests is not modelled.
- `setTimeout(next, 400)` after an accepted answer runs in the same step.
- Event-listener registration is not modelled. `unlock` running a second time would attach the entry handlers twice; the model treats that as running them once.
- Handlers are modelled with every element present: a missing `#gate`, `#err` or `#entryStatus` element is not a case the model covers.
- Unicode is covered only in part:
  - `toUpperCase` is modelled for ASCII, Latin-1 (ß becoming "SS", µ becoming Greek Μ, ÿ becoming Ÿ) and ő and ű; other characters are left as they are.
  - NFD and combining-mark removal are a table over the Latin-1 and Hungarian accented letters.
  - The white-space class is the full ECMAScript set.
- The web fonts, the walkthrough texts and `setupMission`'s copying of texts into the page are not modelled; only the status line it sets is.
- The `altSrc` lists of the match table are modelled, but the table in the source defines none.
- `canPlace` is modelled and proved, but the source never calls it.
- WordSearch.ArchiveElsewhere: takes the same `rand` for both fills. In the source the two fills draw independently, so the lemma speaks of equal draws only; `WordSearch.ArchiveSharesRuns` states what holds for independent draws.
- Ciphers.CaesarShiftDecode: `shift` is taken to be an integer; in the source a fractional or missing shift gives the text "undefined" for every letter. Neither `CaesarShiftDecode` nor `vigenereDecode` is called by the page.
- The template of `assemble` is modelled as the header, the list of fragments and the footer; its white space and the `join('\n')` separators are not modelled.
- WordSearch.PlaceWord: requires a unit step and a run that fits on the grid, as all four planned placements do; the source would write outside the array for other arguments.
- WordSearch.LetterToDigit: defined for capitals only, which is all `commit` and the archive pass it.
- WordSearch.ReadSel: requires both ends on the grid, which is what `getCell` yields.
- JsText.UpperChar: characters outside ASCII, Latin-1, ő and ű keep their own case, although JavaScript upper-cases Greek, Cyrillic and the rest of Latin Extended; `ToUpperCase` and every member built on it inherit this.
- ChallengeInput.NormalizeIgnoresCase: is stated for the character-for-character upper case; for `toUpperCase` it holds only on text without ß (`NormalizeIgnoresToUpperCase`), because normalizeText('ß') is '' and normalizeText('SS') is 'SS' (`NormalizeSharpS`).
- ChallengeInput.NormalizeCaseInsensitive: is stated for the character-for-character upper case; answers with the same `toUpperCase`, such as "ß" and "ss", can normalise differently.
- Aurora.GatePage.constructor: models hydration after `/data/aurora.json` has loaded (js/app.js:57). When that fetch fails, the error is caught at js/app.js:53 before the blur, the stored-flag check or the gate's submit handler; the page then stays unblurred, the gate stays as authored and does nothing. The model has no such page.
- Ciphers.CaesarShiftDecode: upper-cases with `ToUpperCase`, so it covers the characters `JsText.UpperChar` covers.
- Aurora.CheckEntry: compares with `ToUpperCase`, so it covers the characters `JsText.UpperChar` covers.
- Aurora.CodeUpper: is stated for the character-for-character upper case; under `toUpperCase` the non-code "ß" becomes the code "SS", so only the direction in `CodeToUpperCase` holds there.
- Aurora.EntryCaseInsensitive: its premise uses the character-for-character upper case; inputs with the same `toUpperCase` can get different verdicts ("ß" fails the character class, "ss" does not).
- Aurora.RenderCard: the card's texts are kept as plain strings; the source puts them into an `innerHTML` template unescaped, and an absent `n`, `img` or `title` shows as "undefined".
- Assembler.PageKey: the routing and pages documents are maps of their own keys. In the source `routes.routes[rk]` also finds inherited `Object.prototype` members: "/constructor", "/toString", "/__proto__" and "/hasOwnProperty" give a non-string page key, no page and an empty main area, where the model gives "landing". A page without a `blocks` array makes the loop at js/app.js:33 throw; the model's pages always have one.
- Ciphers.VigenereDecode: upper-cases with `ToUpperCase`, so it covers the characters `JsText.UpperChar` covers; the `ci < 0` branch is not modelled, because the cleaned text holds only A–Z there.
- MatchTable.MatchNorm: normalising the drop-down labels to the accepted sources is not proved (the literal computation is too costly for the solver); `AnyOrderPasses` states its premise on normalised rows instead.
- The match table's `onDone` is `Puzzle.TableDone`; the table's message text is in `MatchTable.Check`.

## Findings

| source | as written | input that shows it | evidently intended | confidence | as-written member | corrected member |
|---|---|---|---|---|---|---|
| src/pages/ugy1/index.jsx:511-513 | the digit goes on the anchor when the read string equals the word, else on the release cell; `readSel` reads from low to high index, not from the anchor | drag CIPHER from (1,6) to (1,1): `s` is "CIPHER", so '3' replaces the 'R' at (1,6) | the digit replaces the word's first letter, as the archive's stamp at `(p.r, p.c)` does | not executed | WordSearch.DigitCellMisplaced | WordSearch.IntendedDigitCellHoldsFirstLetter |

/** The gated "aurora" page: a password gate in front of the content, a
    mission panel that asks for an entry code, and the level cards that the
    code reveals. Session storage is a map from keys to stored strings;
    the DOM is reduced to the visibility and texts the handlers change. */
module Aurora {
  import opened Wrappers
  import opened JsText

  const MSG_GATE_EMPTY := "Írj be a belépési kulcsot."
  const MSG_GATE_WRONG := "Helytelen kulcs. Próbáld újra."
  const UNLOCK_KEY := "cm_lvl1_unlocked"
  const ENTRY_KEY := "cm_lvl1_entry_ok"
  /** The text `doneEntry` writes; the hyphen after ACCESS is U+2011. */
  const ACCESS_CODE := "ACCESS\U{2011}LEVEL: NOVICE-01"

  // ------------------------------------------------------------------ trim

  lemma {:induction false} TrimStartSkips(pad: string, s: string)
    requires forall i :: 0 <= i < |pad| ==> IsSpace(pad[i])
    ensures TrimStart(pad + s) == TrimStart(s)
    decreases |pad|
  {
    if pad == [] {
      assert pad + s == s;
    } else {
      var t := pad + s;
      assert IsSpace(t[0]) by {
        assert t[0] == pad[0];
      }
      assert t[1..] == pad[1..] + s;
      TrimStartSkips(pad[1..], s);
    }
  }

  lemma {:induction false} TrimEndSkips(s: string, pad: string)
    requires forall i :: 0 <= i < |pad| ==> IsSpace(pad[i])
    ensures TrimEnd(s + pad) == TrimEnd(s)
    decreases |pad|
  {
    if pad != [] {
      var pad' := pad[..|pad| - 1];
      var t := s + pad;
      assert t[|t| - 1] == pad[|pad| - 1];
      assert TrimEnd(t) == TrimEnd(t[..|t| - 1]);
      assert t[..|t| - 1] == s + pad';
      TrimEndSkips(s, pad');
    } else {
      assert s + pad == s;
    }
  }

  /** A string with no white space at either end is its own trim. */
  predicate Trimmed(s: string) {
    s == [] || (!IsSpace(s[0]) && !IsSpace(s[|s| - 1]))
  }

  lemma TrimOfTrimmed(s: string)
    requires Trimmed(s)
    ensures Trim(s) == s
  {
  }

  /** `trim` is idempotent, and what it returns is trimmed. */
  lemma TrimTrimmed(s: string)
    ensures Trimmed(Trim(s))
    ensures Trim(Trim(s)) == Trim(s)
  {
    var t := Trim(s);
    if t != [] {
      assert t == TrimStart(s)[..|t|];
      assert t[0] == TrimStart(s)[0];
    }
    TrimOfTrimmed(t);
  }

  /** White space around the input is ignored by `trim`. */
  lemma TrimPadded(pad1: string, s: string, pad2: string)
    requires forall i :: 0 <= i < |pad1| ==> IsSpace(pad1[i])
    requires forall i :: 0 <= i < |pad2| ==> IsSpace(pad2[i])
    requires Trimmed(s) && s != ""
    ensures Trim(pad1 + s + pad2) == s
  {
    TrimStartSkips(pad1, s + pad2);
    assert pad1 + s + pad2 == pad1 + (s + pad2);
    assert TrimStart(s + pad2) == s + pad2;
    TrimEndSkips(s, pad2);
  }

  // ------------------------------------------------------------------ gate

  datatype GateVerdict = GateEmpty | GateOpen | GateWrong

  /** The gate form's submit check: the trimmed input against `gate.pass`,
      an absent password being the empty string. */
  function CheckGate(input: string, pass: string): (v: GateVerdict)
    ensures v == GateEmpty <==> Trim(input) == ""
    ensures v == GateOpen <==> Trim(input) != "" && Trim(input) == pass
  {
    var t := Trim(input);
    if t == "" then GateEmpty else if t == pass then GateOpen else GateWrong
  }

  /** Without a password the gate never opens. */
  lemma NoPassNoUnlock(input: string)
    ensures CheckGate(input, "") != GateOpen
  {
  }

  /** The gate opens only for a password with no white space at its ends:
      one with such white space cannot be typed in so that it matches. */
  lemma GateOpensOnlyTrimmed(input: string, pass: string)
    requires CheckGate(input, pass) == GateOpen
    ensures pass != "" && Trimmed(pass)
  {
    TrimTrimmed(input);
  }

  /** A trimmed, non-empty password opens the gate, with any white space
      typed around it. */
  lemma GateOpensForPass(pad1: string, pass: string, pad2: string)
    requires forall i :: 0 <= i < |pad1| ==> IsSpace(pad1[i])
    requires forall i :: 0 <= i < |pad2| ==> IsSpace(pad2[i])
    requires Trimmed(pass) && pass != ""
    ensures CheckGate(pad1 + pass + pad2, pass) == GateOpen
  {
    TrimPadded(pad1, pass, pad2);
  }

  // ------------------------------------------------------------ entry code

  /** The class `[A-Za-z0-9-]`. */
  predicate CodeChar(c: char) { IsAlnum(c) || c == '-' }

  /** `/^[A-Za-z0-9-]+$/.test(v)`. */
  predicate IsCode(v: string) {
    v != "" && forall i :: 0 <= i < |v| ==> CodeChar(v[i])
  }

  datatype EntryVerdict = EntryEmpty | EntryBadChars | EntryAccepted | EntryWrong

  /** `handleEntry`'s checks, in their order: empty, then the character
      class, then a comparison of the upper-cased input with the upper-cased
      expected code (absent: the empty string). */
  function CheckEntry(input: string, expected: string): (v: EntryVerdict)
    ensures v == EntryEmpty <==> Trim(input) == ""
    ensures v == EntryBadChars <==> Trim(input) != "" && !IsCode(Trim(input))
    ensures v == EntryAccepted <==> IsCode(Trim(input)) && ToUpperCase(Trim(input)) == ToUpperCase(expected)
    ensures v == EntryWrong <==> IsCode(Trim(input)) && ToUpperCase(Trim(input)) != ToUpperCase(expected)
  {
    var t := Trim(input);
    if t == "" then EntryEmpty
    else if !IsCode(t) then EntryBadChars
    else if ToUpperCase(t) == ToUpperCase(expected) then EntryAccepted
    else EntryWrong
  }

  /** The simple upper-case mapping neither creates nor removes characters of
      the code class. */
  lemma CodeUpper(v: string)
    ensures IsCode(Upper(v)) <==> IsCode(v)
  {
    if IsCode(v) {
      forall i | 0 <= i < |v| ensures CodeChar(Upper(v)[i]) {
        assert Upper(v)[i] == UpperChar(v[i]);
      }
    }
    if IsCode(Upper(v)) {
      forall i | 0 <= i < |v| ensures CodeChar(v[i]) {
        assert Upper(v)[i] == UpperChar(v[i]);
      }
    }
  }

  /** A code is ASCII, so `toUpperCase` maps it by the simple mapping to a
      code again. */
  lemma CodeToUpperCase(v: string)
    requires IsCode(v)
    ensures ToUpperCase(v) == Upper(v) && IsCode(ToUpperCase(v))
  {
    forall i | 0 <= i < |v| ensures IsAscii(v[i]) {
      assert CodeChar(v[i]);
    }
    AsciiNoSharpS(v);
    ToUpperCaseSimple(v);
    CodeUpper(v);
  }

  /** The verdict depends on the input only through the simple upper case of
      its trim: the code is accepted in any letter case. */
  lemma EntryCaseInsensitive(a: string, b: string, expected: string)
    requires Upper(Trim(a)) == Upper(Trim(b))
    ensures CheckEntry(a, expected) == CheckEntry(b, expected)
  {
    CodeUpper(Trim(a));
    CodeUpper(Trim(b));
    if IsCode(Trim(a)) && IsCode(Trim(b)) {
      CodeToUpperCase(Trim(a));
      CodeToUpperCase(Trim(b));
    }
  }

  /** An expected code holding ß is entered with "SS" in its place. */
  lemma EntrySharpS()
    ensures CheckEntry("ss", "ß") == EntryAccepted
  {
    SharpSUpperCase();
    CodeToUpperCase("ss");
    assert Trim("ss") == "ss";
  }

  /** An expected code whose upper case is not a code (empty, or holding a
      character outside the class) can never be entered. */
  lemma AcceptedExpectedIsCode(input: string, expected: string)
    requires CheckEntry(input, expected) == EntryAccepted
    ensures IsCode(ToUpperCase(expected))
  {
    CodeToUpperCase(Trim(input));
  }

  /** The expected code itself, with any white space around it, is
      accepted when it is a code. */
  lemma EntryAcceptsExpected(pad1: string, expected: string, pad2: string)
    requires forall i :: 0 <= i < |pad1| ==> IsSpace(pad1[i])
    requires forall i :: 0 <= i < |pad2| ==> IsSpace(pad2[i])
    requires IsCode(expected)
    ensures CheckEntry(pad1 + expected + pad2, expected) == EntryAccepted
  {
    TrimPadded(pad1, expected, pad2);
  }

  // ----------------------------------------------------------- level cards

  /** A card of `levels.cards`; an absent `href` is the empty string, and `n`,
      `img` and `title` are the texts the card's template interpolates. */
  datatype Card = Card(locked: bool, href: string, n: string, img: string, title: string)

  /** The element a card becomes: its tag, its link target, its class, its
      `aria-disabled` attribute, the label, image source, image alt text and
      title of its content, and whether the lock badge is shown. */
  datatype CardView = CardView(tag: string, href: Option<string>, className: string,
                               ariaDisabled: Option<string>, levelLabel: string, imgSrc: string,
                               imgAlt: string, caseTitle: string, lockBadge: bool)

  function RenderCard(c: Card): (v: CardView)
    ensures v.className == "level-card"
    ensures v.tag == "div" <==> c.locked
    ensures c.locked ==> v.href.None? && v.ariaDisabled == Some("true") && v.lockBadge
    ensures !c.locked ==> v.tag == "a" && v.ariaDisabled.None? && !v.lockBadge
    ensures !c.locked ==> v.href == Some(if c.href == "" then "#" else c.href)
    ensures v.levelLabel == "Ügy #" + c.n && v.imgAlt == "Ügy " + c.n
    ensures v.imgSrc == c.img && v.caseTitle == c.title
  {
    var lbl, alt := "Ügy #" + c.n, "Ügy " + c.n;
    if c.locked then CardView("div", None, "level-card", Some("true"), lbl, c.img, alt, c.title, true)
    else CardView("a", Some(if c.href == "" then "#" else c.href), "level-card", None, lbl, c.img, alt, c.title, false)
  }

  /** The cards rendered into the levels grid, in order; `None` when
      `levels.cards` is not an array, in which case the grid is untouched. */
  function RenderCards(cards: Option<seq<Card>>): (views: Option<seq<CardView>>)
    ensures views.Some? <==> cards.Some?
    ensures views.Some? ==> |views.value| == |cards.value|
    ensures views.Some? ==> forall i :: 0 <= i < |cards.value| ==> views.value[i] == RenderCard(cards.value[i])
  {
    match cards
    case None => None
    case Some(cs) => Some(seq(|cs|, i requires 0 <= i < |cs| => RenderCard(cs[i])))
  }

  /** Every rendered card is either a locked one with no link, or a link
      with a non-empty target. */
  lemma RenderedLinks(cards: seq<Card>)
    ensures forall v :: v in RenderCards(Some(cards)).value ==>
      (v.href.None? && v.ariaDisabled.Some?) || (v.href.Some? && v.href.value != "" && v.ariaDisabled.None?)
  {
    var views := RenderCards(Some(cards)).value;
    forall v | v in views
      ensures (v.href.None? && v.ariaDisabled.Some?) || (v.href.Some? && v.href.value != "" && v.ariaDisabled.None?)
    {
      var i :| 0 <= i < |views| && views[i] == v;
      assert v == RenderCard(cards[i]);
    }
  }

  // ------------------------------------------------------------ page state

  /** A panel's `display`: as the HTML authored it, or set by `showEl`. */
  datatype Panel = AsAuthored | Shown | Hidden

  /** The mission texts of the page document; an absent one is the empty
      string. */
  datatype Mission = Mission(expected: string, statusReady: string, statusOk: string,
                             statusErrEmpty: string, statusErrChars: string, statusErrWrong: string)

  /** What the handlers change: session storage, the gate, the blur on the
      content, the two panels, the gate's error line, the entry status
      line (its highlight: `Some(true)` for `status-ok`, `Some(false)` for
      `status-err`; and its text), the access-code line, and whether the
      entry handlers are attached. `None` texts are as authored. */
  datatype View = View(storage: map<string, string>, gateShown: bool, blurred: bool,
                       intro: Panel, levels: Panel, err: Option<string>,
                       statusOk: Option<bool>, statusText: Option<string>,
                       code: Option<string>, entryWired: bool)

  predicate Stored(storage: map<string, string>, key: string) {
    key in storage && storage[key] == "1"
  }

  /** The invariant of the page: the gate is up exactly until the entry
      handlers are attached, which happens together with the unlock flag;
      once unlocked exactly one of the two panels is shown; and the levels
      panel is shown only after a correct entry code. */
  predicate ViewValid(v: View) {
    && (v.gateShown <==> !v.entryWired)
    && (v.gateShown <==> v.blurred)
    && (v.gateShown ==> v.intro == AsAuthored && v.levels == AsAuthored && v.statusOk.None? && v.code.None?)
    && (v.entryWired ==> Stored(v.storage, UNLOCK_KEY))
    && (v.entryWired ==> (v.intro == Shown && v.levels == Hidden) || (v.intro == Hidden && v.levels == Shown))
    && (v.levels == Shown ==> Stored(v.storage, ENTRY_KEY) && v.code == Some(ACCESS_CODE))
  }

  /** The page as `hydrateAurora` leaves it before the stored flag is read:
      the gate up and the content blurred. */
  function Initial(storage: map<string, string>): View {
    View(storage, true, true, AsAuthored, AsAuthored, None, None, None, None, false)
  }

  /** `unlock`, with `setupMission` writing the ready text. */
  function UnlockStep(v: View, m: Mission): View {
    v.(storage := v.storage[UNLOCK_KEY := "1"], gateShown := false, blurred := false,
       intro := Shown, levels := Hidden, statusText := Some(m.statusReady), entryWired := true)
  }

  /** The page after load: unlocked straight away when the stored flag is
      '1'. */
  function Loaded(storage: map<string, string>, m: Mission): View {
    if Stored(storage, UNLOCK_KEY) then UnlockStep(Initial(storage), m) else Initial(storage)
  }

  /** One submit of the gate form. */
  function GateStep(v: View, input: string, pass: string, m: Mission): View {
    match CheckGate(input, pass)
    case GateEmpty => v.(err := Some(MSG_GATE_EMPTY))
    case GateOpen => UnlockStep(v, m)
    case GateWrong => v.(err := Some(MSG_GATE_WRONG))
  }

  /** `setEntryStatus(ok, text)`. */
  function SetStatus(v: View, ok: bool, text: string): View {
    v.(statusOk := Some(ok), statusText := Some(text))
  }

  /** `doneEntry`. */
  function DoneEntryStep(v: View, m: Mission): View {
    SetStatus(v.(storage := v.storage[ENTRY_KEY := "1"]), true, m.statusOk)
      .(code := Some(ACCESS_CODE), intro := Hidden, levels := Shown)
  }

  /** One run of `handleEntry`. */
  function EntryStep(v: View, input: string, m: Mission): View {
    match CheckEntry(input, m.expected)
    case EntryEmpty => SetStatus(v, false, m.statusErrEmpty)
    case EntryBadChars => SetStatus(v, false, m.statusErrChars)
    case EntryAccepted => DoneEntryStep(v, m)
    case EntryWrong => SetStatus(v, false, m.statusErrWrong)
  }

  lemma InitialValid(storage: map<string, string>)
    ensures ViewValid(Initial(storage))
  {
  }

  /** `unlock` keeps the invariant, sets the flag, shows the intro and hides
      the levels, and leaves the error line, the status highlight and the
      access-code line as they were. */
  lemma UnlockValid(v: View, m: Mission)
    requires ViewValid(v)
    ensures var w := UnlockStep(v, m);
      && ViewValid(w) && Stored(w.storage, UNLOCK_KEY) && !w.gateShown && !w.blurred
      && w.intro == Shown && w.levels == Hidden
      && w.err == v.err && w.statusOk == v.statusOk && w.code == v.code
  {
  }

  /** At load the gate is down exactly when the stored flag is '1'; a stored
      entry flag is not read, so the levels panel always starts hidden. */
  lemma LoadedState(storage: map<string, string>, m: Mission)
    ensures ViewValid(Loaded(storage, m))
    ensures Loaded(storage, m).gateShown <==> !Stored(storage, UNLOCK_KEY)
    ensures Loaded(storage, m).levels != Shown
  {
    InitialValid(storage);
    if Stored(storage, UNLOCK_KEY) {
      UnlockValid(Initial(storage), m);
    }
  }

  /** A gate submit keeps the invariant; it unlocks exactly on a match and
      otherwise only writes the error line. */
  lemma GateStepValid(v: View, input: string, pass: string, m: Mission)
    requires ViewValid(v)
    ensures ViewValid(GateStep(v, input, pass, m))
    ensures CheckGate(input, pass) == GateOpen ==> GateStep(v, input, pass, m) == UnlockStep(v, m)
    ensures CheckGate(input, pass) == GateEmpty ==> GateStep(v, input, pass, m) == v.(err := Some(MSG_GATE_EMPTY))
    ensures CheckGate(input, pass) == GateWrong ==> GateStep(v, input, pass, m) == v.(err := Some(MSG_GATE_WRONG))
  {
    if CheckGate(input, pass) == GateOpen {
      UnlockValid(v, m);
    }
  }

  /** With no password in the page document, no sequence of submits lifts
      the gate. */
  lemma {:induction false} GateStaysWithoutPass(v: View, inputs: seq<string>, m: Mission)
    requires ViewValid(v) && v.gateShown
    ensures var w := GateRun(v, inputs, "", m); ViewValid(w) && w.gateShown && w.blurred
    decreases |inputs|
  {
    if inputs != [] {
      NoPassNoUnlock(inputs[0]);
      GateStepValid(v, inputs[0], "", m);
      GateStaysWithoutPass(GateStep(v, inputs[0], "", m), inputs[1..], m);
    }
  }

  /** Several gate submits in a row. */
  function GateRun(v: View, inputs: seq<string>, pass: string, m: Mission): View
    decreases |inputs|
  {
    if inputs == [] then v else GateRun(GateStep(v, inputs[0], pass, m), inputs[1..], pass, m)
  }

  /** `doneEntry` sets the entry flag, writes the ok status and the access
      code, hides the intro and shows the levels. */
  lemma DoneEntryValid(v: View, m: Mission)
    requires ViewValid(v) && v.entryWired
    ensures var w := DoneEntryStep(v, m);
      && ViewValid(w) && Stored(w.storage, ENTRY_KEY) && w.statusOk == Some(true)
      && w.statusText == Some(m.statusOk) && w.code == Some(ACCESS_CODE)
      && w.intro == Hidden && w.levels == Shown
      && w.gateShown == v.gateShown && w.err == v.err
  {
  }

  /** `handleEntry` keeps the invariant; every rejected code only writes the
      error status that its check selects. */
  lemma EntryStepValid(v: View, input: string, m: Mission)
    requires ViewValid(v) && v.entryWired
    ensures ViewValid(EntryStep(v, input, m))
    ensures CheckEntry(input, m.expected) == EntryAccepted ==> EntryStep(v, input, m) == DoneEntryStep(v, m)
    ensures CheckEntry(input, m.expected) == EntryEmpty ==> EntryStep(v, input, m) == SetStatus(v, false, m.statusErrEmpty)
    ensures CheckEntry(input, m.expected) == EntryBadChars ==> EntryStep(v, input, m) == SetStatus(v, false, m.statusErrChars)
    ensures CheckEntry(input, m.expected) == EntryWrong ==> EntryStep(v, input, m) == SetStatus(v, false, m.statusErrWrong)
  {
    if CheckEntry(input, m.expected) == EntryAccepted {
      DoneEntryValid(v, m);
    }
  }

  /** The levels panel comes into view only through an accepted code. */
  lemma LevelsNeedCode(v: View, input: string, m: Mission)
    requires ViewValid(v) && v.entryWired && v.levels != Shown
    requires EntryStep(v, input, m).levels == Shown
    ensures CheckEntry(input, m.expected) == EntryAccepted
  {
  }

  // ------------------------------------------------------------- the page

  /** The "aurora" page once hydrated. */
  class GatePage {
    const pass: string
    const mission: Mission
    var storage: map<string, string>
    var gateShown: bool
    var blurred: bool
    var intro: Panel
    var levels: Panel
    var err: Option<string>
    var statusOk: Option<bool>
    var statusText: Option<string>
    var code: Option<string>
    var entryWired: bool

    function State(): View
      reads this
    {
      View(storage, gateShown, blurred, intro, levels, err, statusOk, statusText, code, entryWired)
    }

    predicate Valid()
      reads this
    {
      ViewValid(State())
    }

    /** `hydrateAurora`: blur the content, then unlock when the stored flag
        is '1'. */
    constructor(pass: string, mission: Mission, storage: map<string, string>)
      ensures Valid() && this.pass == pass && this.mission == mission
      ensures State() == Loaded(storage, mission)
    {
      this.pass, this.mission := pass, mission;
      this.storage := storage;
      gateShown, blurred := true, true;
      intro, levels := AsAuthored, AsAuthored;
      err, statusOk, statusText, code := None, None, None, None;
      entryWired := false;
      new;
      InitialValid(storage);
      if Stored(storage, UNLOCK_KEY) {
        Unlock();
      }
    }

    /** `unlock`. */
    method Unlock()
      requires Valid()
      modifies this
      ensures Valid() && State() == UnlockStep(old(State()), mission)
    {
      UnlockValid(State(), mission);
      gateShown := false;
      blurred := false;
      storage := storage[UNLOCK_KEY := "1"];
      intro := Shown;
      levels := Hidden;
      statusText := Some(mission.statusReady);
      entryWired := true;
    }

    /** The gate form's submit handler. */
    method SubmitGate(input: string)
      requires Valid()
      modifies this
      ensures Valid() && State() == GateStep(old(State()), input, pass, mission)
    {
      GateStepValid(State(), input, pass, mission);
      var t := Trim(input);
      if t == "" {
        err := Some(MSG_GATE_EMPTY);
        return;
      }
      if t == pass {
        Unlock();
      } else {
        err := Some(MSG_GATE_WRONG);
      }
    }

    /** `setEntryStatus`. */
    method SetEntryStatus(ok: bool, text: string)
      modifies this
      ensures State() == SetStatus(old(State()), ok, text)
    {
      statusOk := Some(ok);
      statusText := Some(text);
    }

    /** `doneEntry`. */
    method DoneEntry()
      requires Valid() && entryWired
      modifies this
      ensures Valid() && State() == DoneEntryStep(old(State()), mission)
    {
      DoneEntryValid(State(), mission);
      storage := storage[ENTRY_KEY := "1"];
      SetEntryStatus(true, mission.statusOk);
      code := Some(ACCESS_CODE);
      intro := Hidden;
      levels := Shown;
    }

    /** `handleEntry`, attached by `setupMission` to the entry button and to
        Enter in the entry field. */
    method HandleEntry(input: string)
      requires Valid() && entryWired
      modifies this
      ensures Valid() && State() == EntryStep(old(State()), input, mission)
    {
      EntryStepValid(State(), input, mission);
      var v := Trim(input);
      if v == "" {
        SetEntryStatus(false, mission.statusErrEmpty);
        return;
      }
      if !IsCode(v) {
        SetEntryStatus(false, mission.statusErrChars);
        return;
      }
      if ToUpperCase(v) == ToUpperCase(mission.expected) {
        DoneEntry();
      } else {
        SetEntryStatus(false, mission.statusErrWrong);
      }
    }
  }
}

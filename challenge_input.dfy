/** The answer box of the puzzle page: `normalizeText` and the rule that turns
    a check into the 'ok' / 'err' status (src/components/Ugy1/ChallengeInput.jsx). */
module ChallengeInput {
  import opened Wrappers
  import opened JsText

  /** What the punctuation filter `replace(/[^A-Za-z0-9\s]/g,'')` keeps. */
  predicate Kept(c: char) { IsAlnum(c) || IsSpace(c) }

  /** `normalizeText(s)`: `(s || '')`, accent stripping, punctuation removal,
      white-space runs to one blank, `trim`, `toUpperCase`. A missing value
      (null or undefined) is the empty string. The text upper-cased last
      holds only ASCII, so the simple mapping stands for `toUpperCase`
      (`NormalizeToUpperCase`). */
  function NormalizeText(s: Option<string>): (r: string)
    ensures s.None? ==> r == ""
  {
    Upper(Trim(Collapse(Filter(Kept, Fold(s.GetOr(""))))))
  }

  predicate NormalChar(c: char) { IsUpper(c) || IsDigit(c) || c == ' ' }

  /** The shape of every normalised answer: only A-Z, 0-9 and blanks, no blank
      at either end and never two blanks in a row. */
  predicate NormalForm(s: string) {
    && (forall i :: 0 <= i < |s| ==> NormalChar(s[i]))
    && (s != [] ==> s[0] != ' ' && s[|s| - 1] != ' ')
    && (forall i :: 0 <= i < |s| - 1 ==> !(s[i] == ' ' && s[i + 1] == ' '))
  }

  /** The shape after the white-space runs are collapsed. */
  predicate Collapsed(y: string) {
    && (forall i :: 0 <= i < |y| ==> IsAlnum(y[i]) || y[i] == ' ')
    && (forall i :: 0 <= i < |y| - 1 ==> !(y[i] == ' ' && y[i + 1] == ' '))
  }

  lemma CollapseKept(x: string)
    requires forall i :: 0 <= i < |x| ==> Kept(x[i])
    ensures Collapsed(Collapse(x))
  {
    var y := Collapse(x);
    CollapseFrom(x);
    forall i | 0 <= i < |y| ensures IsAlnum(y[i]) || y[i] == ' ' {
      if y[i] != ' ' {
        var j :| 0 <= j < |x| && x[j] == y[i];
        assert Kept(x[j]);
      }
    }
  }

  lemma TrimCollapsed(y: string)
    requires Collapsed(y)
    ensures var z := Trim(y); Collapsed(z) && (z != [] ==> z[0] != ' ' && z[|z| - 1] != ' ')
  {
    var t := TrimStart(y);
    CollapsedSlice(y, |y| - |t|, |y|);
    var z := TrimEnd(t);
    CollapsedSlice(t, 0, |z|);
    if z != [] {
      assert z[0] == t[0];
    }
  }

  /** A slice of collapsed text is collapsed. */
  lemma CollapsedSlice(y: string, lo: int, hi: int)
    requires Collapsed(y) && 0 <= lo <= hi <= |y|
    ensures Collapsed(y[lo..hi])
  {
    var z := y[lo..hi];
    assert forall i :: 0 <= i < |z| ==> z[i] == y[lo + i];
  }

  lemma UpperTrimmed(z: string)
    requires Collapsed(z) && (z != [] ==> z[0] != ' ' && z[|z| - 1] != ' ')
    ensures NormalForm(Upper(z))
  {
    var r := Upper(z);
    forall i | 0 <= i < |r| ensures NormalChar(r[i]) && (r[i] == ' ' <==> z[i] == ' ') {
      assert IsAlnum(z[i]) || z[i] == ' ';
    }
  }

  /** Every output of `normalizeText` has the normal form. */
  lemma NormalizeTextNormalForm(s: Option<string>)
    ensures NormalForm(NormalizeText(s))
  {
    var x := Filter(Kept, Fold(s.GetOr("")));
    CollapseKept(x);
    TrimCollapsed(Collapse(x));
    UpperTrimmed(Trim(Collapse(x)));
  }

  /** Text in normal form is its own normalisation. */
  lemma NormalFormFixed(s: string)
    requires NormalForm(s)
    ensures NormalizeText(Some(s)) == s
  {
    NormalAscii(s);
    FoldAscii(s);
    NormalKept(s);
    FilterKeepsAll(Kept, s);
    NormalBlanks(s);
    CollapseSingleBlanks(s);
    TrimFixed(s);
    NormalUpper(s);
  }

  lemma NormalAscii(s: string)
    requires NormalForm(s)
    ensures AllAscii(s)
  {
    forall i | 0 <= i < |s| ensures IsAscii(s[i]) {
      assert NormalChar(s[i]);
    }
  }

  lemma NormalKept(s: string)
    requires NormalForm(s)
    ensures forall i :: 0 <= i < |s| ==> Kept(s[i])
  {
    forall i | 0 <= i < |s| ensures Kept(s[i]) {
      assert NormalChar(s[i]);
    }
  }

  lemma NormalBlanks(s: string)
    requires NormalForm(s)
    ensures forall i :: 0 <= i < |s| ==> (IsSpace(s[i]) ==> s[i] == ' ')
  {
    forall i | 0 <= i < |s| ensures IsSpace(s[i]) ==> s[i] == ' ' {
      assert NormalChar(s[i]);
    }
  }

  lemma NormalUpper(s: string)
    requires NormalForm(s)
    ensures Upper(s) == s
  {
    forall i | 0 <= i < |s| ensures Upper(s)[i] == s[i] {
      assert NormalChar(s[i]);
    }
  }

  lemma TrimFixed(s: string)
    requires NormalForm(s)
    ensures Trim(s) == s
  {
    if s != [] {
      assert NormalChar(s[0]) && NormalChar(s[|s| - 1]);
      assert !IsSpace(s[0]) && !IsSpace(s[|s| - 1]);
    }
    assert TrimStart(s) == s;
    assert TrimEnd(s) == s;
  }

  /** Normalising twice is normalising once. */
  lemma NormalizeIdempotent(s: Option<string>)
    ensures NormalizeText(Some(NormalizeText(s))) == NormalizeText(s)
  {
    NormalizeTextNormalForm(s);
    NormalFormFixed(NormalizeText(s));
  }

  /** Removing one ASCII punctuation character does not change the normalisation. */
  lemma NormalizeIgnoresPunctuation(a: string, c: char, b: string)
    requires IsAscii(c) && !IsAlnum(c) && !IsSpace(c)
    ensures NormalizeText(Some(a + [c] + b)) == NormalizeText(Some(a + b))
  {
    PunctuationFiltered(a, c, b);
  }

  /** The same for punctuation at the very end, such as a closing full stop. */
  lemma NormalizeIgnoresFinalPunctuation(a: string, c: char)
    requires IsAscii(c) && !IsAlnum(c) && !IsSpace(c)
    ensures NormalizeText(Some(a + [c])) == NormalizeText(Some(a))
  {
    NormalizeIgnoresPunctuation(a, c, "");
    assert a + [c] + "" == a + [c];
    assert a + "" == a;
  }

  /** `NormalizeIgnoresPunctuation` for a text `x` given together with its
      split around the character and the text `y` without it. */
  lemma NormalizeDropsChar(x: string, a: string, c: char, b: string, y: string)
    requires IsAscii(c) && !IsAlnum(c) && !IsSpace(c)
    requires x == a + [c] + b && y == a + b
    ensures NormalizeText(Some(x)) == NormalizeText(Some(y))
  {
    NormalizeIgnoresPunctuation(a, c, b);
  }

  lemma PunctuationFiltered(a: string, c: char, b: string)
    requires IsAscii(c) && !IsAlnum(c) && !IsSpace(c)
    ensures Filter(Kept, Fold(a + [c] + b)) == Filter(Kept, Fold(a + b))
  {
    FoldSplit(a, c, b);
    FoldConcat(a, b);
    FilterSkip(Kept, Fold(a), c, Fold(b));
  }

  lemma FoldSplit(a: string, c: char, b: string)
    requires IsAscii(c)
    ensures Fold(a + [c] + b) == Fold(a) + [c] + Fold(b)
  {
    FoldConcat(a + [c], b);
    FoldConcat(a, [c]);
    assert Fold([c]) == [c] by {
      assert [c][1..] == [];
    }
  }

  /** Letter case is invisible after normalisation. */
  lemma NormalizeIgnoresCase(s: string)
    ensures NormalizeText(Some(Upper(s))) == NormalizeText(Some(s))
  {
    var f := Fold(s);
    FoldUpper(s);
    FilterUpper(Kept, f);
    CollapseUpper(Filter(Kept, f));
    TrimUpper(Collapse(Filter(Kept, f)));
    UpperIdempotent(Trim(Collapse(Filter(Kept, f))));
  }

  /** `normalizeText` written with the full case mapping of `toUpperCase`
      denotes the same function. */
  lemma NormalizeToUpperCase(s: Option<string>)
    ensures NormalizeText(s) == ToUpperCase(Trim(Collapse(Filter(Kept, Fold(s.GetOr(""))))))
  {
    var x := Filter(Kept, Fold(s.GetOr("")));
    CollapseKept(x);
    TrimCollapsed(Collapse(x));
    CollapsedNoSharpS(Trim(Collapse(x)));
  }

  lemma CollapsedNoSharpS(z: string)
    requires Collapsed(z)
    ensures ToUpperCase(z) == Upper(z)
  {
    forall i | 0 <= i < |z| ensures z[i] as int != 0xDF {
      assert IsAlnum(z[i]) || z[i] == ' ';
    }
    ToUpperCaseSimple(z);
  }

  /** Applying `toUpperCase` to an answer without ß does not change its
      normalisation. */
  lemma NormalizeIgnoresToUpperCase(s: string)
    requires NoSharpS(s)
    ensures NormalizeText(Some(ToUpperCase(s))) == NormalizeText(Some(s))
  {
    ToUpperCaseSimple(s);
    NormalizeIgnoresCase(s);
  }

  /** With ß it can: "ß" normalises to nothing, its upper case "SS" to "SS". */
  lemma NormalizeSharpS()
    ensures NormalizeText(Some("ß")) == ""
    ensures NormalizeText(Some(ToUpperCase("ß"))) == "SS"
  {
    SharpSUpperCase();
    assert Fold("ß") == "ß" by {
      assert "ß"[1..] == [];
    }
    assert Filter(Kept, "ß") == "" by {
      assert "ß"[1..] == [];
    }
    NormalFormFixed("SS");
  }

  /** Two answers that differ only in letter case normalise alike. */
  lemma NormalizeCaseInsensitive(a: string, b: string)
    requires Upper(a) == Upper(b)
    ensures NormalizeText(Some(a)) == NormalizeText(Some(b))
  {
    NormalizeIgnoresCase(a);
    NormalizeIgnoresCase(b);
  }

  /** "a, b" and "A B" are the same answer. */
  lemma NormalizeExample()
    ensures NormalizeText(Some("a, b")) == NormalizeText(Some("A B"))
  {
    ExampleDropComma();
    ExampleCase();
  }

  lemma ExampleDropComma()
    ensures NormalizeText(Some("a, b")) == NormalizeText(Some("a b"))
  {
    NormalizeIgnoresPunctuation("a", ',', " b");
    ExampleSplit();
  }

  lemma ExampleSplit()
    ensures "a" + [','] + " b" == "a, b" && "a" + " b" == "a b"
  {
  }

  lemma ExampleCase()
    ensures NormalizeText(Some("a b")) == NormalizeText(Some("A B"))
  {
    assert Upper("a b") == Upper("A B");
    NormalizeCaseInsensitive("a b", "A B");
  }

  /** The status `onSubmit` stores: 'ok' exactly when a check is supplied and
      accepts the value; without a check the answer counts as wrong. */
  datatype Status = StatusOk | StatusErr

  function OnSubmit(onCheck: Option<string -> bool>, value: string): (st: Status)
    ensures st == StatusOk <==> onCheck.Some? && onCheck.value(value)
    ensures onCheck.None? ==> st == StatusErr
  {
    var res := if onCheck.Some? then onCheck.value(value) else false;
    if res then StatusOk else StatusErr
  }
}

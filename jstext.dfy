/** The parts of JavaScript's string API that the puzzle code relies on:
    character classes of its regular expressions, `toUpperCase`, `trim`,
    `replace` with a character class, and the `normalize('NFD')` plus
    combining-mark removal idiom used to strip accents. */
module JsText {

  const ALPHABET: string := "ABCDEFGHIJKLMNOPQRSTUVWXYZ"

  predicate IsUpper(c: char) { 'A' <= c <= 'Z' }
  predicate IsLower(c: char) { 'a' <= c <= 'z' }
  predicate IsDigit(c: char) { '0' <= c <= '9' }
  /** The class `[A-Za-z0-9]`. */
  predicate IsAlnum(c: char) { IsUpper(c) || IsLower(c) || IsDigit(c) }
  predicate IsAscii(c: char) { c as int < 0x80 }

  predicate AllAscii(s: string) { forall i :: 0 <= i < |s| ==> IsAscii(s[i]) }
  predicate AllUpper(s: string) { forall i :: 0 <= i < |s| ==> IsUpper(s[i]) }

  /** White space as the regular-expression class `\s` and `String.prototype.trim`
      see it: the ECMAScript WhiteSpace and LineTerminator code points. */
  predicate IsSpace(c: char) {
    var n := c as int;
    || (0x09 <= n <= 0x0D) || n == 0x20 || n == 0xA0 || n == 0x1680
    || (0x2000 <= n <= 0x200A) || n == 0x2028 || n == 0x2029 || n == 0x202F
    || n == 0x205F || n == 0x3000 || n == 0xFEFF
  }

  /** The one-character (simple) upper-case mapping, for ASCII, Latin-1 and the
      Hungarian ő and ű: a-z, à-þ without ÷, ÿ, µ, ő and ű have a capital;
      ß has none of one character and, like every character outside these
      ranges, is left as it is. */
  function UpperChar(c: char): (u: char)
    ensures IsLower(c) ==> IsUpper(u) && u as int == c as int - 32
    ensures IsAscii(c) && !IsLower(c) ==> u == c
    ensures u as int == 0xDF <==> c as int == 0xDF
    ensures IsAscii(u) <==> IsAscii(c)
    ensures IsSpace(u) <==> IsSpace(c)
    ensures IsDigit(u) <==> IsDigit(c)
    ensures IsAlnum(u) <==> IsAlnum(c)
  {
    var n := c as int;
    if IsLower(c) || (0xE0 <= n <= 0xFE && n != 0xF7) then (n - 32) as char
    else if n == 0xFF then 0x178 as char
    else if n == 0xB5 then 0x39C as char
    else if n == 0x151 || n == 0x171 then (n - 1) as char
    else c
  }

  /** The simple mapping on a string: one character at a time, so the length
      is kept. On text without ß it is `toUpperCase` (`ToUpperCaseSimple`). */
  function Upper(s: string): (r: string)
  {
    seq(|s|, i requires 0 <= i < |s| => UpperChar(s[i]))
  }

  /** No ß (U+00DF), the one Latin-1 letter whose upper case is two letters. */
  predicate NoSharpS(s: string) { forall i :: 0 <= i < |s| ==> s[i] as int != 0xDF }

  /** One character under the full case mapping that `toUpperCase` applies:
      ß becomes "SS", every other character its simple upper case. */
  function UpperOf(c: char): (r: string)
    ensures c as int == 0xDF ==> r == "SS"
    ensures c as int != 0xDF ==> r == [UpperChar(c)]
    ensures NoSharpS(r)
  {
    if c as int == 0xDF then "SS" else [UpperChar(c)]
  }

  /** `toUpperCase`: every character replaced by its full upper case. Only ß
      makes the text longer, and no ß is left. */
  function ToUpperCase(s: string): (r: string)
    ensures |r| >= |s|
    ensures NoSharpS(r)
  {
    if s == [] then [] else UpperOf(s[0]) + ToUpperCase(s[1..])
  }

  /** What `normalize('NFD')` followed by `replace(/[̀-ͯ]/g,'')` leaves
      of one character: combining diacritical marks vanish, precomposed Latin-1
      and Hungarian letters become their base letter, anything else stays. */
  function FoldChar(c: char): (r: string)
    ensures |r| <= 1
    ensures IsAscii(c) ==> r == [c]
  {
    var n := c as int;
    if 0x300 <= n <= 0x36F then ""
    else if 0xC0 <= n <= 0xC5 then "A"
    else if n == 0xC7 then "C"
    else if 0xC8 <= n <= 0xCB then "E"
    else if 0xCC <= n <= 0xCF then "I"
    else if n == 0xD1 then "N"
    else if 0xD2 <= n <= 0xD6 || n == 0x150 then "O"
    else if 0xD9 <= n <= 0xDC || n == 0x170 then "U"
    else if n == 0xDD || n == 0x178 then "Y"
    else if 0xE0 <= n <= 0xE5 then "a"
    else if n == 0xE7 then "c"
    else if 0xE8 <= n <= 0xEB then "e"
    else if 0xEC <= n <= 0xEF then "i"
    else if n == 0xF1 then "n"
    else if 0xF2 <= n <= 0xF6 || n == 0x151 then "o"
    else if 0xF9 <= n <= 0xFC || n == 0x171 then "u"
    else if n == 0xFD || n == 0xFF then "y"
    else [c]
  }

  /** Accent stripping on a whole string. */
  function Fold(s: string): (r: string)
    ensures |r| <= |s|
  {
    if s == [] then [] else FoldChar(s[0]) + Fold(s[1..])
  }

  /** `replace(/[^...]/g, '')`: keep exactly the characters the class admits, in order. */
  function Filter(keep: char -> bool, s: string): (r: string)
    ensures |r| <= |s|
    ensures forall i :: 0 <= i < |r| ==> keep(r[i])
    ensures forall i :: 0 <= i < |r| ==> r[i] in s
  {
    if s == [] then []
    else (if keep(s[0]) then [s[0]] else []) + Filter(keep, s[1..])
  }

  /** `trimStart`: drop the leading white space, and only that. */
  function TrimStart(s: string): (r: string)
    ensures |r| <= |s| && r == s[|s| - |r|..]
    ensures r != [] ==> !IsSpace(r[0])
    ensures forall i :: 0 <= i < |s| - |r| ==> IsSpace(s[i])
  {
    if s != [] && IsSpace(s[0]) then TrimStart(s[1..]) else s
  }

  /** `trimEnd`: drop the trailing white space, and only that. */
  function TrimEnd(s: string): (r: string)
    ensures |r| <= |s| && r == s[..|r|]
    ensures r != [] ==> !IsSpace(r[|r| - 1])
    ensures forall i :: |r| <= i < |s| ==> IsSpace(s[i])
  {
    if s != [] && IsSpace(s[|s| - 1]) then TrimEnd(s[..|s| - 1]) else s
  }

  /** `trim`. */
  function Trim(s: string): string {
    TrimEnd(TrimStart(s))
  }

  /** `replace(/\s+/g, ' ')`: every maximal run of white space becomes one blank. */
  function Collapse(s: string): (r: string)
    ensures (r == []) == (s == [])
    ensures r != [] ==> (r[0] == ' ' <==> IsSpace(s[0]))
    ensures forall i :: 0 <= i < |r| ==> (IsSpace(r[i]) ==> r[i] == ' ')
    ensures forall i :: 0 <= i < |r| - 1 ==> !(r[i] == ' ' && r[i + 1] == ' ')
    decreases |s|
  {
    if s == [] then []
    else if IsSpace(s[0]) then " " + Collapse(TrimStart(s[1..]))
    else [s[0]] + Collapse(s[1..])
  }

  /** Every character `Collapse` leaves, other than a blank, comes from its
      input. */
  lemma {:induction false} CollapseFrom(s: string)
    ensures forall i :: 0 <= i < |Collapse(s)| ==> Collapse(s)[i] == ' ' || Collapse(s)[i] in s
    decreases |s|
  {
    if s != [] {
      if IsSpace(s[0]) {
        var t := TrimStart(s[1..]);
        CollapseFrom(t);
        assert t == s[|s| - |t|..];
        forall i | 0 <= i < |Collapse(t)| && Collapse(t)[i] != ' ' ensures Collapse(t)[i] in s {
          var j :| 0 <= j < |t| && t[j] == Collapse(t)[i];
          assert s[|s| - |t| + j] == t[j];
        }
      } else {
        CollapseFrom(s[1..]);
        forall i | 0 <= i < |Collapse(s[1..])| && Collapse(s[1..])[i] != ' ' ensures Collapse(s[1..])[i] in s {
          var j :| 0 <= j < |s[1..]| && s[1..][j] == Collapse(s[1..])[i];
          assert s[1 + j] == s[1..][j];
        }
      }
    }
  }

  /** Keeps everything but white space. */
  predicate NotSpace(c: char) { !IsSpace(c) }

  // ---- Laws of these operations ----

  lemma {:induction false} FilterConcat(keep: char -> bool, a: string, b: string)
    ensures Filter(keep, a + b) == Filter(keep, a) + Filter(keep, b)
  {
    if a == [] {
      assert a + b == b;
    } else {
      assert (a + b)[1..] == a[1..] + b;
      FilterConcat(keep, a[1..], b);
    }
  }

  /** A character the filter drops can be taken out beforehand. */
  lemma FilterSkip(keep: char -> bool, x: string, c: char, y: string)
    requires !keep(c)
    ensures Filter(keep, x + [c] + y) == Filter(keep, x + y)
  {
    FilterConcat(keep, x + [c], y);
    FilterConcat(keep, x, [c]);
    FilterConcat(keep, x, y);
    assert Filter(keep, [c]) == [] by {
      assert [c][1..] == [];
    }
  }

  /** Filtering what the filter already admits changes nothing. */
  lemma {:induction false} FilterKeepsAll(keep: char -> bool, s: string)
    requires forall i :: 0 <= i < |s| ==> keep(s[i])
    ensures Filter(keep, s) == s
  {
    if s != [] {
      FilterKeepsAll(keep, s[1..]);
    }
  }

  /** Filtering a string that holds nothing the filter admits leaves nothing. */
  lemma {:induction false} FilterDropsAll(keep: char -> bool, s: string)
    requires forall i :: 0 <= i < |s| ==> !keep(s[i])
    ensures Filter(keep, s) == []
  {
    if s != [] {
      FilterDropsAll(keep, s[1..]);
    }
  }

  lemma {:induction false} FoldConcat(a: string, b: string)
    ensures Fold(a + b) == Fold(a) + Fold(b)
  {
    if a == [] {
      assert a + b == b;
    } else {
      assert (a + b)[1..] == a[1..] + b;
      FoldConcat(a[1..], b);
    }
  }

  /** When every character folds to exactly one character, folding is a
      character-by-character map. */
  lemma {:induction false} FoldPointwise(s: string)
    requires forall i :: 0 <= i < |s| ==> |FoldChar(s[i])| == 1
    ensures Fold(s) == seq(|s|, i requires 0 <= i < |s| => FoldChar(s[i])[0])
  {
    if s != [] {
      FoldPointwise(s[1..]);
    }
  }

  /** Accent stripping leaves ASCII text alone. */
  lemma {:induction false} FoldAscii(s: string)
    requires AllAscii(s)
    ensures Fold(s) == s
  {
    if s != [] {
      FoldAscii(s[1..]);
    }
  }

  lemma UpperConcat(a: string, b: string)
    ensures Upper(a + b) == Upper(a) + Upper(b)
  {
  }

  /** Upper-casing commutes with dropping white space, because it never turns a
      space into a non-space or back. */
  lemma {:induction false} UpperDropSpaces(s: string)
    ensures Filter(NotSpace, Upper(s)) == Upper(Filter(NotSpace, s))
  {
    if s != [] {
      var c, r := s[0], s[1..];
      var u := Upper(s);
      assert u[0] == UpperChar(c) && u[1..] == Upper(r);
      UpperDropSpaces(r);
      assert NotSpace(UpperChar(c)) == NotSpace(c);
      var rest := Filter(NotSpace, r);
      if NotSpace(c) {
        assert Filter(NotSpace, s) == [c] + rest;
        UpperConcat([c], rest);
      } else {
        assert Filter(NotSpace, s) == rest;
      }
    }
  }

  /** Dropping white space after `trim` is the same as dropping it directly. */
  lemma TrimDropSpaces(s: string)
    ensures Filter(NotSpace, Trim(s)) == Filter(NotSpace, s)
  {
    TrimStartDropSpaces(s);
    TrimEndDropSpaces(TrimStart(s));
  }

  lemma TrimStartDropSpaces(s: string)
    ensures Filter(NotSpace, TrimStart(s)) == Filter(NotSpace, s)
  {
    var t := TrimStart(s);
    var k := |s| - |t|;
    assert s == s[..k] + t;
    FilterConcat(NotSpace, s[..k], t);
    FilterDropsAll(NotSpace, s[..k]);
  }

  lemma TrimEndDropSpaces(s: string)
    ensures Filter(NotSpace, TrimEnd(s)) == Filter(NotSpace, s)
  {
    var u := TrimEnd(s);
    assert s == u + s[|u|..];
    FilterConcat(NotSpace, u, s[|u|..]);
    FilterDropsAll(NotSpace, s[|u|..]);
  }

  /** Collapsing white-space runs and then dropping white space is the same as
      dropping it directly. */
  lemma {:induction false} CollapseDropSpaces(s: string)
    ensures Filter(NotSpace, Collapse(s)) == Filter(NotSpace, s)
    decreases |s|
  {
    if s == [] {
    } else if IsSpace(s[0]) {
      var t := TrimStart(s[1..]);
      var k := |s[1..]| - |t|;
      CollapseDropSpaces(t);
      assert Filter(NotSpace, " " + Collapse(t)) == Filter(NotSpace, Collapse(t));
      assert s[1..] == s[1..][..k] + t;
      FilterConcat(NotSpace, s[1..][..k], t);
      FilterDropsAll(NotSpace, s[1..][..k]);
    } else {
      CollapseDropSpaces(s[1..]);
    }
  }

  /** `Collapse` is the identity on text whose only white space is single blanks. */
  lemma {:induction false} CollapseSingleBlanks(s: string)
    requires forall i :: 0 <= i < |s| ==> (IsSpace(s[i]) ==> s[i] == ' ')
    requires forall i :: 0 <= i < |s| - 1 ==> !(s[i] == ' ' && s[i + 1] == ' ')
    ensures Collapse(s) == s
    decreases |s|
  {
    if s != [] {
      var t := s[1..];
      CollapseSingleBlanks(t);
      if IsSpace(s[0]) {
        if t != [] {
          assert t[0] == s[1] && s[0] == ' ';
          assert !IsSpace(t[0]);
        }
        assert TrimStart(t) == t;
        assert Collapse(s) == " " + t;
      } else {
        assert Collapse(s) == [s[0]] + t;
      }
    }
  }

  // ---- Upper-casing commutes with the other operations ----

  lemma UpperCharIdempotent(c: char)
    ensures UpperChar(UpperChar(c)) == UpperChar(c)
  {
  }

  lemma UpperIdempotent(s: string)
    ensures Upper(Upper(s)) == Upper(s)
  {
    forall i | 0 <= i < |s| ensures Upper(Upper(s))[i] == Upper(s)[i] {
      UpperCharIdempotent(s[i]);
    }
  }

  /** Stripping the accent of an upper-cased letter gives the upper-cased base letter. */
  lemma FoldUpperChar(c: char)
    ensures FoldChar(UpperChar(c)) == Upper(FoldChar(c))
  {
    var n := c as int;
    if n < 0x80 {
    } else if n < 0x100 {
      if n < 0xE0 {
      } else if n < 0xF0 {
      } else {
      }
    } else {
    }
  }

  lemma {:induction false} FoldUpper(s: string)
    ensures Fold(Upper(s)) == Upper(Fold(s))
  {
    if s != [] {
      assert Upper(s) == [UpperChar(s[0])] + Upper(s[1..]);
      FoldConcat([UpperChar(s[0])], Upper(s[1..]));
      assert Fold([UpperChar(s[0])]) == FoldChar(UpperChar(s[0])) by {
        assert [UpperChar(s[0])][1..] == [];
      }
      FoldUpperChar(s[0]);
      FoldUpper(s[1..]);
      UpperConcat(FoldChar(s[0]), Fold(s[1..]));
    }
  }

  /** Upper-casing before or after a filter gives the same text, for a filter
      that does not care about case. */
  lemma {:induction false} FilterUpper(keep: char -> bool, s: string)
    requires forall c :: keep(UpperChar(c)) == keep(c)
    ensures Filter(keep, Upper(s)) == Upper(Filter(keep, s))
  {
    if s != [] {
      assert Upper(s) == [UpperChar(s[0])] + Upper(s[1..]);
      assert Upper(s)[1..] == Upper(s[1..]);
      FilterUpper(keep, s[1..]);
      var rest := Filter(keep, s[1..]);
      if keep(s[0]) {
        assert Filter(keep, s) == [s[0]] + rest;
        UpperConcat([s[0]], rest);
      } else {
        assert Filter(keep, s) == rest;
      }
    }
  }

  lemma {:induction false} TrimStartUpper(s: string)
    ensures TrimStart(Upper(s)) == Upper(TrimStart(s))
  {
    if s != [] {
      assert Upper(s)[0] == UpperChar(s[0]);
      assert Upper(s)[1..] == Upper(s[1..]);
      TrimStartUpper(s[1..]);
    }
  }

  lemma {:induction false} TrimEndUpper(s: string)
    ensures TrimEnd(Upper(s)) == Upper(TrimEnd(s))
  {
    if s != [] {
      assert Upper(s)[|s| - 1] == UpperChar(s[|s| - 1]);
      assert Upper(s)[..|s| - 1] == Upper(s[..|s| - 1]);
      TrimEndUpper(s[..|s| - 1]);
    }
  }

  lemma TrimUpper(s: string)
    ensures Trim(Upper(s)) == Upper(Trim(s))
  {
    TrimStartUpper(s);
    TrimEndUpper(TrimStart(s));
  }

  lemma {:induction false} CollapseUpper(s: string)
    ensures Collapse(Upper(s)) == Upper(Collapse(s))
    decreases |s|
  {
    if s != [] {
      assert Upper(s)[0] == UpperChar(s[0]);
      assert Upper(s)[1..] == Upper(s[1..]);
      if IsSpace(s[0]) {
        TrimStartUpper(s[1..]);
        CollapseUpper(TrimStart(s[1..]));
        UpperConcat(" ", Collapse(TrimStart(s[1..])));
      } else {
        CollapseUpper(s[1..]);
        UpperConcat([s[0]], Collapse(s[1..]));
      }
    }
  }

  // ---- The full case mapping ----

  /** Without ß, `toUpperCase` is the simple mapping. */
  lemma {:induction false} ToUpperCaseSimple(s: string)
    requires NoSharpS(s)
    ensures ToUpperCase(s) == Upper(s)
  {
    if s != [] {
      var c, r := s[0], s[1..];
      assert NoSharpS(r) by {
        forall i | 0 <= i < |r| ensures r[i] as int != 0xDF {
          assert r[i] == s[i + 1];
        }
      }
      ToUpperCaseSimple(r);
      assert Upper(s) == [UpperChar(c)] + Upper(r);
    }
  }

  /** ASCII text holds no ß. */
  lemma AsciiNoSharpS(s: string)
    requires AllAscii(s)
    ensures NoSharpS(s)
  {
    forall i | 0 <= i < |s| ensures s[i] as int != 0xDF {
      assert IsAscii(s[i]);
    }
  }

  lemma {:induction false} ToUpperCaseConcat(a: string, b: string)
    ensures ToUpperCase(a + b) == ToUpperCase(a) + ToUpperCase(b)
  {
    if a == [] {
      assert a + b == b;
    } else {
      assert (a + b)[1..] == a[1..] + b;
      ToUpperCaseConcat(a[1..], b);
    }
  }

  /** Upper-casing twice is upper-casing once. */
  lemma ToUpperCaseIdempotent(s: string)
    ensures ToUpperCase(ToUpperCase(s)) == ToUpperCase(s)
  {
    var u := ToUpperCase(s);
    ToUpperCaseSimple(u);
    ToUpperCaseFixed(s);
  }

  /** The simple mapping leaves the full upper case as it is. */
  lemma {:induction false} ToUpperCaseFixed(s: string)
    ensures Upper(ToUpperCase(s)) == ToUpperCase(s)
  {
    if s != [] {
      var h := UpperOf(s[0]);
      ToUpperCaseFixed(s[1..]);
      UpperConcat(h, ToUpperCase(s[1..]));
      if s[0] as int == 0xDF {
        assert Upper(h) == h;
      } else {
        UpperCharIdempotent(s[0]);
        assert Upper(h) == [UpperChar(UpperChar(s[0]))];
      }
    }
  }

  /** ß is where the two mappings part: `'ß'.toUpperCase()` is "SS". */
  lemma SharpSUpperCase()
    ensures ToUpperCase("ß") == "SS" && Upper("ß") == "ß"
  {
    assert "ß"[1..] == [];
  }
}

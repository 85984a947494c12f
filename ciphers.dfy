/** The two decoders of the puzzle page, `CaesarShiftDecode` and
    `vigenereDecode` (src/pages/ugy1/index.jsx). Both walk their input once,
    appending to an output string; here they are methods with loops, each
    proved equal to a specification function, and the lemmas speak about
    those functions. */
module Ciphers {
  import opened Wrappers
  import opened JsText

  /** The alphabet `A` of both decoders, letter by letter. */
  function Letter(i: int): (ch: char)
    requires 0 <= i < 26
    ensures IsUpper(ch)
  {
    (65 + i) as char
  }

  /** `A.indexOf(ch)`: the letter's position in A-Z, or -1. */
  function IndexOf(ch: char): (i: int)
    ensures IsUpper(ch) ==> 0 <= i < 26 && Letter(i) == ch
    ensures !IsUpper(ch) ==> i == -1
  {
    if IsUpper(ch) then ch as int - 65 else -1
  }

  /** The alphabet constant spelled out is the one indexed by `Letter`. */
  lemma AlphabetLetters()
    ensures |ALPHABET| == 26 && forall i :: 0 <= i < 26 ==> ALPHABET[i] == Letter(i)
  {
  }

  /** JavaScript's `%` on integers: the remainder has the sign of the dividend. */
  function JsRem(a: int, b: int): (r: int)
    requires b > 0
    ensures -b < r < b
    ensures a >= 0 ==> 0 <= r
    ensures a < 0 ==> r <= 0
    ensures exists q :: a == b * q + r
  {
    if a >= 0 then
      assert a == b * (a / b) + a % b;
      a % b
    else
      assert -a == b * ((-a) / b) + (-a) % b;
      assert a == b * (-((-a) / b)) - (-a) % b;
      -((-a) % b)
  }

  /** Adding a multiple of 26 does not change a residue. */
  lemma ModMultiple(x: int, q: int)
    ensures (x + 26 * q) % 26 == x % 26
  {
    var r := x % 26;
    var d := x / 26;
    assert x == 26 * d + r;
    assert x + 26 * q == 26 * (d + q) + r;
  }

  /** The index expression of both decoders agrees with mathematical subtraction
      modulo 26. */
  lemma JsRemMod(i: int, shift: int)
    ensures (i - JsRem(shift, 26) + 26) % 26 == (i - shift) % 26
  {
    var r := JsRem(shift, 26);
    var q :| shift == 26 * q + r;
    ModMultiple(i - shift, q + 1);
    assert i - r + 26 == (i - shift) + 26 * (q + 1);
  }

  // ---------------------------------------------------------------- Caesar

  /** One character of `CaesarShiftDecode`: a letter moves `shift` places back,
      written exactly as the source computes the index. */
  function CaesarChar(ch: char, shift: int): char {
    var i := IndexOf(ch);
    if i < 0 then ch else Letter((i - JsRem(shift, 26) + 26) % 26)
  }

  /** The decoded text of an already upper-cased input. */
  function CaesarText(up: string, shift: int): string {
    seq(|up|, k requires 0 <= k < |up| => CaesarChar(up[k], shift))
  }

  /** The source's index arithmetic is plain subtraction modulo 26. */
  lemma CaesarCharShifts(ch: char, shift: int)
    requires IsUpper(ch)
    ensures CaesarChar(ch, shift) == Letter((IndexOf(ch) - shift) % 26)
  {
    JsRemMod(IndexOf(ch), shift);
  }

  /** `CaesarShiftDecode(input, shift)`: the output is as long as the upper-cased
      input (where ß has become "SS"), copies every non-letter, and moves every
      letter `shift` places back in A-Z. */
  method CaesarShiftDecode(input: Option<string>, shift: int) returns (out: string)
    ensures var up := ToUpperCase(input.GetOr(""));
      && |out| == |up|
      && (forall k :: 0 <= k < |up| && !IsUpper(up[k]) ==> out[k] == up[k])
      && (forall k :: 0 <= k < |up| && IsUpper(up[k]) ==> out[k] == Letter((IndexOf(up[k]) - shift) % 26))
      && out == CaesarText(up, shift)
  {
    var up := ToUpperCase(input.GetOr(""));
    out := "";
    var n := 0;
    while n < |up|
      invariant 0 <= n <= |up|
      invariant |out| == n
      invariant forall k :: 0 <= k < n ==> out[k] == CaesarChar(up[k], shift)
    {
      var ch := up[n];
      var i := IndexOf(ch);
      if i < 0 {
        out := out + [ch];
      } else {
        var j := (i - JsRem(shift, 26) + 26) % 26;
        out := out + [Letter(j)];
      }
      n := n + 1;
    }
    forall k | 0 <= k < |up| && IsUpper(up[k])
      ensures out[k] == Letter((IndexOf(up[k]) - shift) % 26)
    {
      CaesarCharShifts(up[k], shift);
    }
  }

  /** ß is upper-cased to two letters before decoding: "ß" with shift 0 decodes
      to "SS". */
  lemma CaesarSharpS()
    ensures CaesarText(ToUpperCase("ß"), 0) == "SS"
  {
    SharpSUpperCase();
    CaesarShiftZero("SS");
  }

  /** Only the shift modulo 26 matters. */
  lemma CaesarShiftMod26(up: string, a: int, b: int)
    requires a % 26 == b % 26
    ensures CaesarText(up, a) == CaesarText(up, b)
  {
    forall k | 0 <= k < |up| ensures CaesarText(up, a)[k] == CaesarText(up, b)[k] {
      if IsUpper(up[k]) {
        CaesarCharShifts(up[k], a);
        CaesarCharShifts(up[k], b);
        var i := IndexOf(up[k]);
        assert a == 26 * (a / 26) + a % 26 && b == 26 * (b / 26) + b % 26;
        assert i - a == (i - b) + 26 * (b / 26 - a / 26);
        ModMultiple(i - b, b / 26 - a / 26);
      }
    }
  }

  /** Shift 0 changes nothing (the input is upper-cased before decoding). */
  lemma CaesarShiftZero(up: string)
    ensures CaesarText(up, 0) == up
  {
    forall k | 0 <= k < |up| ensures CaesarText(up, 0)[k] == up[k] {
      if IsUpper(up[k]) {
        CaesarCharShifts(up[k], 0);
      }
    }
  }

  /** Decoding with `-shift` undoes decoding with `shift`: the encoder the puzzle's
      author used is the same function with the opposite shift. */
  lemma CaesarRoundTrip(up: string, shift: int)
    ensures CaesarText(CaesarText(up, shift), -shift) == up
  {
    var mid := CaesarText(up, shift);
    forall k | 0 <= k < |up| ensures CaesarText(mid, -shift)[k] == up[k] {
      CaesarCharRoundTrip(up[k], shift);
    }
  }

  /** One character moved `shift` places back and then `-shift` places back
      is the character again. */
  lemma CaesarCharRoundTrip(ch: char, shift: int)
    ensures CaesarChar(CaesarChar(ch, shift), -shift) == ch
  {
    if IsUpper(ch) {
      CaesarCharShifts(ch, shift);
      var i := IndexOf(ch);
      var j := (i - shift) % 26;
      var mid := Letter(j);
      CaesarCharShifts(mid, -shift);
      assert IndexOf(mid) == j;
      assert j + shift == i + 26 * (-((i - shift) / 26));
      ModMultiple(i, -((i - shift) / 26));
    }
  }

  // -------------------------------------------------------------- Vigenère

  /** The letters `replace(/[^A-ZÁÉÍÓÖŐÚÜŰ]/g,'')` keeps. */
  predicate VigenereKept(c: char) {
    IsUpper(c) || c as int in {0xC1, 0xC9, 0xCD, 0xD3, 0xD6, 0x150, 0xDA, 0xDC, 0x170}
  }

  lemma {:induction false} FoldKeptIsUpper(s: string)
    requires forall i :: 0 <= i < |s| ==> VigenereKept(s[i])
    ensures AllUpper(Fold(s))
  {
    if s != [] {
      FoldKeptIsUpper(s[1..]);
    }
  }

  /** The text the decoder walks: upper-cased, reduced to the kept letters,
      accents stripped. Only A-Z remain, so the source's `ci < 0` branch never
      runs and is not modelled. */
  function CipherLetters(cipher: Option<string>): (r: string)
    ensures AllUpper(r)
  {
    var kept := Filter(VigenereKept, ToUpperCase(cipher.GetOr("")));
    FoldKeptIsUpper(kept);
    Fold(kept)
  }

  /** The key: upper-cased, everything but A-Z removed. */
  function KeyLetters(key: Option<string>): (k: string)
    ensures AllUpper(k)
  {
    Filter(IsUpper, ToUpperCase(key.GetOr("")))
  }

  /** A ß in the key counts as the two key letters "SS". */
  lemma KeySharpS()
    ensures KeyLetters(Some("ß")) == "SS"
  {
    SharpSUpperCase();
    FilterKeepsAll(IsUpper, "SS");
  }

  /** `A.indexOf(k[ki % k.length])`. For an empty key `ki % 0` is NaN, `k[NaN]`
      is undefined and its index is -1. */
  function KeyShift(k: string, ki: nat): (kk: int)
    requires AllUpper(k)
    ensures -1 <= kk < 26
    ensures kk == -1 <==> k == []
  {
    if |k| == 0 then -1 else IndexOf(k[ki % |k|])
  }

  /** The decoded text: the j-th letter moves back by the key letter `k[j mod |k|]`. */
  function VigenereText(clean: string, k: string): string
    requires AllUpper(clean) && AllUpper(k)
  {
    seq(|clean|, j requires 0 <= j < |clean| => VigenereChar(clean[j], KeyShift(k, j)))
  }

  /** One decoded letter: `c` moved back by key index `kk`. */
  function VigenereChar(c: char, kk: int): char
    requires IsUpper(c) && -1 <= kk < 26
  {
    Letter((IndexOf(c) - kk + 26) % 26)
  }

  /** `vigenereDecode(cipher, key)`; `ki` counts the letters decoded so far. */
  method VigenereDecode(cipher: Option<string>, key: Option<string>) returns (out: string)
    ensures |out| == |CipherLetters(cipher)|
    ensures out == VigenereText(CipherLetters(cipher), KeyLetters(key))
  {
    var clean := CipherLetters(cipher);
    var k := KeyLetters(key);
    out := DecodeLetters(clean, k);
  }

  /** The decoding loop of `vigenereDecode` over the cleaned text and key. */
  method DecodeLetters(clean: string, k: string) returns (out: string)
    requires AllUpper(clean) && AllUpper(k)
    ensures out == VigenereText(clean, k)
  {
    out := "";
    var ki := 0;
    var n := 0;
    while n < |clean|
      invariant 0 <= n <= |clean|
      invariant ki == n && |out| == n
      invariant forall j :: 0 <= j < n ==> out[j] == VigenereText(clean, k)[j]
    {
      var ci := IndexOf(clean[n]);
      var kk := if |k| == 0 then -1 else IndexOf(k[ki % |k|]);
      assert kk == KeyShift(k, n);
      var pi := (ci - kk + 26) % 26;
      out := out + [Letter(pi)];
      assert Letter(pi) == VigenereChar(clean[n], kk);
      ki := ki + 1;
      n := n + 1;
    }
  }

  /** With no key letter at all, every letter moves one place forward. */
  lemma VigenereEmptyKey(clean: string)
    requires AllUpper(clean)
    ensures VigenereText(clean, "") == CaesarText(clean, -1)
  {
    forall j | 0 <= j < |clean| ensures VigenereText(clean, "")[j] == CaesarText(clean, -1)[j] {
      CaesarCharShifts(clean[j], -1);
    }
  }

  /** A one-letter key is a Caesar shift by that letter's index. */
  lemma VigenereOneLetterKey(clean: string, x: char)
    requires AllUpper(clean) && IsUpper(x)
    ensures VigenereText(clean, [x]) == CaesarText(clean, IndexOf(x))
  {
    forall j | 0 <= j < |clean| ensures VigenereText(clean, [x])[j] == CaesarText(clean, IndexOf(x))[j] {
      CaesarCharShifts(clean[j], IndexOf(x));
      assert j % 1 == 0;
    }
  }

  /** Key "A" decodes every text to itself. */
  lemma VigenereKeyA(clean: string)
    requires AllUpper(clean)
    ensures VigenereText(clean, "A") == clean
  {
    VigenereOneLetterKey(clean, 'A');
    CaesarShiftZero(clean);
  }

  /** The matching encoder: the j-th letter moves forward by `k[j mod |k|]`. */
  function VigenereEncode(plain: string, k: string): (c: string)
    requires AllUpper(plain) && AllUpper(k)
    ensures AllUpper(c) && |c| == |plain|
  {
    seq(|plain|, j requires 0 <= j < |plain| => Letter((IndexOf(plain[j]) + KeyShift(k, j) + 26) % 26))
  }

  /** Decoding undoes encoding, for every key, the empty one included. */
  lemma VigenereRoundTrip(plain: string, k: string)
    requires AllUpper(plain) && AllUpper(k)
    ensures VigenereText(VigenereEncode(plain, k), k) == plain
  {
    var c := VigenereEncode(plain, k);
    forall j | 0 <= j < |plain| ensures VigenereText(c, k)[j] == plain[j] {
      var i := IndexOf(plain[j]);
      var s := KeyShift(k, j);
      assert IndexOf(c[j]) == (i + s + 26) % 26;
      assert ((i + s + 26) % 26 - s + 26) % 26 == i;
    }
  }
}

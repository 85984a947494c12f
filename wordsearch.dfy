/** Task 4's word search (`WordSearchMount` and the grid of `ArchiveModal` in
    src/pages/ugy1/index.jsx): a 10×10 grid with four words placed at fixed
    coordinates, the rest filled with random letters, and a drag selection
    that is matched against the word list. */
module WordSearch {
  import opened Wrappers
  import opened JsText
  import opened Ciphers

  const SIZE: int := 10
  const WORDS: seq<string> := ["CIPHER", "ENCRYPT", "DATA", "LOGIC"]

  /** A cell of the grid array: the empty string `''` or a one-character
      string. */
  datatype Cell = Blank | Glyph(ch: char)

  /** The text a cell contributes to a string built from the grid. */
  function CellText(x: Cell): (s: string)
    ensures |s| <= 1
  {
    match x
    case Blank => ""
    case Glyph(ch) => [ch]
  }

  datatype Pos = Pos(r: int, c: int)

  /** An entry of `planned`: word `w` from `(r, c)` in direction `(dr, dc)`. */
  datatype Placement = Placement(w: string, r: int, c: int, dr: int, dc: int)

  const PLANNED: seq<Placement> := [
    Placement("CIPHER", 1, 1, 0, 1),
    Placement("ENCRYPT", 2, 2, 1, 0),
    Placement("DATA", 9, 9, -1, 0),
    Placement("LOGIC", 4, 9, 0, -1)
  ]

  /** `Math.floor(Math.random() * A.length)`: an index into the alphabet. */
  type Draw = i: int | 0 <= i < 26

  predicate InBounds(q: Pos) {
    0 <= q.r < SIZE && 0 <= q.c < SIZE
  }

  predicate IsGrid(g: array2<Cell>) {
    g.Length0 == SIZE && g.Length1 == SIZE
  }

  /** A step of one cell in one of the eight directions. */
  predicate UnitStep(dr: int, dc: int) {
    -1 <= dr <= 1 && -1 <= dc <= 1 && (dr != 0 || dc != 0)
  }

  /** The cell of letter `i` of a placement: `(r + dr*i, c + dc*i)`. */
  function CellOf(p: Placement, i: int): Pos {
    Pos(p.r + p.dr * i, p.c + p.dc * i)
  }

  /** The placement's cells all lie on the grid. */
  predicate Fits(p: Placement) {
    forall i :: 0 <= i < |p.w| ==> InBounds(CellOf(p, i))
  }

  /** The offset along a unit step: how many steps of `d` lead from `a` to `b`. */
  function Steps(d: int, a: int, b: int): int
    requires -1 <= d <= 1
  {
    if d == 1 then b - a else if d == -1 then a - b else 0
  }

  lemma StepsOf(d: int, a: int, i: int)
    requires -1 <= d <= 1 && d != 0
    ensures Steps(d, a, a + d * i) == i
  {
  }

  /** The index of the letter a placement writes on `q`, or -1 when `q` is
      not on its run. */
  function RunIndex(p: Placement, q: Pos): (i: int)
    requires UnitStep(p.dr, p.dc)
    ensures -1 <= i < |p.w|
    ensures i != -1 ==> CellOf(p, i) == q
    ensures i == -1 ==> forall j :: 0 <= j < |p.w| ==> CellOf(p, j) != q
  {
    var k := if p.dr != 0 then Steps(p.dr, p.r, q.r) else Steps(p.dc, p.c, q.c);
    if 0 <= k < |p.w| && CellOf(p, k) == q then k
    else
      assert forall j :: 0 <= j < |p.w| && CellOf(p, j) == q ==> j == k by {
        forall j | 0 <= j < |p.w| && CellOf(p, j) == q ensures j == k {
          if p.dr != 0 { StepsOf(p.dr, p.r, j); } else { StepsOf(p.dc, p.c, j); }
        }
      }
      -1
  }

  /** Different letters of a placement sit on different cells. */
  lemma CellOfInjective(p: Placement, i: int, j: int)
    requires UnitStep(p.dr, p.dc) && CellOf(p, i) == CellOf(p, j)
    ensures i == j
  {
    if p.dr != 0 {
      StepsOf(p.dr, p.r, i);
      StepsOf(p.dr, p.r, j);
    } else {
      StepsOf(p.dc, p.c, i);
      StepsOf(p.dc, p.c, j);
    }
  }

  lemma RunIndexOf(p: Placement, i: int)
    requires UnitStep(p.dr, p.dc) && 0 <= i < |p.w|
    ensures RunIndex(p, CellOf(p, i)) == i
  {
    var k := RunIndex(p, CellOf(p, i));
    CellOfInjective(p, i, k);
  }

  /** The cell `q` once the placements `ps` are written, in order, onto an
      empty grid: a later word overwrites an earlier one. */
  function Placed(ps: seq<Placement>, q: Pos): Cell
    requires forall k :: 0 <= k < |ps| ==> UnitStep(ps[k].dr, ps[k].dc)
  {
    if ps == [] then Blank
    else
      var p := ps[|ps| - 1];
      var i := RunIndex(p, q);
      if i != -1 then Glyph(p.w[i]) else Placed(ps[..|ps| - 1], q)
  }

  /** The letter that fill draws for an empty cell. */
  function Drawn(rand: (int, int) -> Draw, q: Pos): Cell {
    Glyph(ALPHABET[rand(q.r, q.c)])
  }

  /** The board of `WordSearchMount` after placement and fill. */
  function BoardCell(rand: (int, int) -> Draw, q: Pos): Cell {
    var p := Placed(PLANNED, q);
    if p == Blank then Drawn(rand, q) else p
  }

  // ---------------------------------------------------------- canPlace, placeWord

  /** `canPlace`: whether every cell of the run is on the grid and empty or
      holding the same letter. (The mount defines it but places by a fixed
      plan without calling it.) */
  method CanPlace(g: array2<Cell>, p: Placement) returns (ok: bool)
    requires IsGrid(g)
    ensures ok <==> forall i :: 0 <= i < |p.w| ==>
      InBounds(CellOf(p, i)) && g[CellOf(p, i).r, CellOf(p, i).c] in {Blank, Glyph(p.w[i])}
  {
    var i := 0;
    while i < |p.w|
      invariant 0 <= i <= |p.w|
      invariant forall j :: 0 <= j < i ==>
        InBounds(CellOf(p, j)) && g[CellOf(p, j).r, CellOf(p, j).c] in {Blank, Glyph(p.w[j])}
    {
      var q := CellOf(p, i);
      if !(0 <= q.r < SIZE && 0 <= q.c < SIZE) {
        return false;
      }
      if g[q.r, q.c] != Blank && g[q.r, q.c] != Glyph(p.w[i]) {
        return false;
      }
      i := i + 1;
    }
    return true;
  }

  /** Cell `q`, holding `before`, once the first `n` letters of `p` are
      written. */
  function WrittenUpTo(p: Placement, n: int, before: Cell, q: Pos): Cell
    requires UnitStep(p.dr, p.dc)
  {
    var k := RunIndex(p, q);
    if k == -1 || k >= n then before else Glyph(p.w[k])
  }

  /** `placeWord`: writes letter `i` on cell `(r + dr*i, c + dc*i)` for every
      `i` and changes no other cell. */
  method PlaceWord(g: array2<Cell>, p: Placement)
    requires IsGrid(g) && UnitStep(p.dr, p.dc) && Fits(p)
    modifies g
    ensures forall x, y :: 0 <= x < SIZE && 0 <= y < SIZE ==>
      g[x, y] == (var i := RunIndex(p, Pos(x, y)); if i == -1 then old(g[x, y]) else Glyph(p.w[i]))
  {
    var i := 0;
    while i < |p.w|
      invariant 0 <= i <= |p.w|
      invariant forall x, y :: 0 <= x < SIZE && 0 <= y < SIZE ==>
        g[x, y] == WrittenUpTo(p, i, old(g[x, y]), Pos(x, y))
    {
      var q := CellOf(p, i);
      label Before:
      g[q.r, q.c] := Glyph(p.w[i]);
      forall x, y | 0 <= x < SIZE && 0 <= y < SIZE
        ensures g[x, y] == WrittenUpTo(p, i + 1, old(g[x, y]), Pos(x, y))
      {
        WrittenNext(p, i, old(g[x, y]), Pos(x, y));
        assert g[x, y] == if Pos(x, y) == q then Glyph(p.w[i]) else old@Before(g[x, y]);
      }
      i := i + 1;
    }
  }

  /** Writing letter `i` changes only the cell of letter `i`. */
  lemma WrittenNext(p: Placement, i: int, before: Cell, q: Pos)
    requires UnitStep(p.dr, p.dc) && 0 <= i < |p.w|
    ensures WrittenUpTo(p, i + 1, before, q) ==
      if q == CellOf(p, i) then Glyph(p.w[i]) else WrittenUpTo(p, i, before, q)
  {
    RunIndexOf(p, i);
  }

  // ------------------------------------------------------------- the plan

  /** Every planned word is a horizontal or vertical run on the grid. */
  lemma PlannedFit()
    ensures forall k :: 0 <= k < |PLANNED| ==> UnitStep(PLANNED[k].dr, PLANNED[k].dc) && Fits(PLANNED[k])
    ensures forall k :: 0 <= k < |PLANNED| ==> PLANNED[k].dr == 0 || PLANNED[k].dc == 0
    ensures forall k :: 0 <= k < |PLANNED| ==> PLANNED[k].w == WORDS[k]
  {
  }

  /** No two planned words share a cell. */
  lemma PlannedDisjoint(j: int, k: int, a: int, b: int)
    requires 0 <= j < k < |PLANNED| && 0 <= a < |PLANNED[j].w| && 0 <= b < |PLANNED[k].w|
    ensures CellOf(PLANNED[j], a) != CellOf(PLANNED[k], b)
  {
  }

  /** A letter that no later placement overwrites survives. */
  lemma {:induction false} PlacedKept(ps: seq<Placement>, k: int, i: int)
    requires forall j :: 0 <= j < |ps| ==> UnitStep(ps[j].dr, ps[j].dc)
    requires 0 <= k < |ps| && 0 <= i < |ps[k].w|
    requires forall j :: k < j < |ps| ==> RunIndex(ps[j], CellOf(ps[k], i)) == -1
    ensures Placed(ps, CellOf(ps[k], i)) == Glyph(ps[k].w[i])
    decreases |ps|
  {
    var front := ps[..|ps| - 1];
    if k == |ps| - 1 {
      RunIndexOf(ps[k], i);
    } else {
      assert forall j :: 0 <= j < |front| ==> front[j] == ps[j];
      PlacedKept(front, k, i);
    }
  }

  /** A cell that no placement covers stays empty. */
  lemma {:induction false} PlacedNone(ps: seq<Placement>, q: Pos)
    requires forall j :: 0 <= j < |ps| ==> UnitStep(ps[j].dr, ps[j].dc)
    requires forall j :: 0 <= j < |ps| ==> RunIndex(ps[j], q) == -1
    ensures Placed(ps, q) == Blank
    decreases |ps|
  {
    if ps != [] {
      var front := ps[..|ps| - 1];
      assert forall j :: 0 <= j < |front| ==> front[j] == ps[j];
      PlacedNone(front, q);
    }
  }

  /** After placement, every cell of a planned run holds that word's letter. */
  lemma PlacedOnRun(k: int, i: int)
    requires 0 <= k < |PLANNED| && 0 <= i < |PLANNED[k].w|
    ensures Placed(PLANNED, CellOf(PLANNED[k], i)) == Glyph(PLANNED[k].w[i])
  {
    PlannedFit();
    forall j | k < j < |PLANNED| ensures RunIndex(PLANNED[j], CellOf(PLANNED[k], i)) == -1 {
      var m := RunIndex(PLANNED[j], CellOf(PLANNED[k], i));
      if m != -1 {
        PlannedDisjoint(k, j, i, m);
      }
    }
    PlacedKept(PLANNED, k, i);
  }

  /** After placement, a cell on no planned run is still empty. */
  lemma PlacedOffRuns(q: Pos)
    requires forall k, i :: 0 <= k < |PLANNED| && 0 <= i < |PLANNED[k].w| ==> CellOf(PLANNED[k], i) != q
    ensures Placed(PLANNED, q) == Blank
  {
    PlannedFit();
    PlacedNone(PLANNED, q);
  }

  /** Every letter a placement writes is one of its word's letters. */
  lemma {:induction false} PlacedUpper(ps: seq<Placement>, q: Pos)
    requires forall j :: 0 <= j < |ps| ==> UnitStep(ps[j].dr, ps[j].dc)
    requires forall j :: 0 <= j < |ps| ==> AllUpper(ps[j].w)
    ensures Placed(ps, q) == Blank || IsUpper(Placed(ps, q).ch)
    decreases |ps|
  {
    if ps != [] && RunIndex(ps[|ps| - 1], q) == -1 {
      var front := ps[..|ps| - 1];
      assert forall j :: 0 <= j < |front| ==> front[j] == ps[j];
      PlacedUpper(front, q);
    }
  }

  // -------------------------------------------------------------- the fill

  /** Fill's rule for one cell: an empty cell gets the drawn letter, any other
      keeps its content. */
  function Filled(before: Cell, rand: (int, int) -> Draw, q: Pos): Cell {
    if before == Blank then Drawn(rand, q) else before
  }

  /** The fill loops: every empty cell gets a random letter, row by row. */
  method Fill(g: array2<Cell>, rand: (int, int) -> Draw)
    requires IsGrid(g)
    modifies g
    ensures forall x, y :: 0 <= x < SIZE && 0 <= y < SIZE ==> g[x, y] == Filled(old(g[x, y]), rand, Pos(x, y))
  {
    var r := 0;
    while r < SIZE
      invariant 0 <= r <= SIZE
      invariant forall x, y :: 0 <= x < SIZE && 0 <= y < SIZE ==>
        g[x, y] == if x < r then Filled(old(g[x, y]), rand, Pos(x, y)) else old(g[x, y])
    {
      var c := 0;
      while c < SIZE
        invariant 0 <= c <= SIZE
        invariant forall x, y :: 0 <= x < SIZE && 0 <= y < SIZE ==>
          g[x, y] == if x < r || (x == r && y < c) then Filled(old(g[x, y]), rand, Pos(x, y)) else old(g[x, y])
      {
        if g[r, c] == Blank {
          g[r, c] := Glyph(ALPHABET[rand(r, c)]);
        }
        c := c + 1;
      }
      r := r + 1;
    }
  }

  /** A fresh empty grid with the four planned words written in plan order. */
  method PlannedGrid() returns (g: array2<Cell>)
    ensures fresh(g) && IsGrid(g)
    ensures forall x, y :: 0 <= x < SIZE && 0 <= y < SIZE ==> g[x, y] == Placed(PLANNED, Pos(x, y))
  {
    PlannedFit();
    g := new Cell[SIZE, SIZE]((_, _) => Blank);
    var k := 0;
    while k < |PLANNED|
      invariant 0 <= k <= |PLANNED|
      invariant forall x, y :: 0 <= x < SIZE && 0 <= y < SIZE ==> g[x, y] == Placed(PLANNED[..k], Pos(x, y))
    {
      assert PLANNED[..k + 1][..k] == PLANNED[..k] && PLANNED[..k + 1][k] == PLANNED[k];
      PlaceWord(g, PLANNED[k]);
      k := k + 1;
    }
    assert PLANNED[..k] == PLANNED;
  }

  /** The mount's board: placement, then fill. */
  method NewBoard(rand: (int, int) -> Draw) returns (g: array2<Cell>)
    ensures fresh(g) && IsGrid(g)
    ensures forall x, y :: 0 <= x < SIZE && 0 <= y < SIZE ==> g[x, y] == BoardCell(rand, Pos(x, y))
  {
    g := PlannedGrid();
    Fill(g, rand);
  }

  /** After the fill no cell is empty: each holds one letter A–Z, and the
      planned letters are still there. */
  lemma BoardLetters(rand: (int, int) -> Draw, q: Pos)
    ensures BoardCell(rand, q).Glyph? && IsUpper(BoardCell(rand, q).ch)
    ensures Placed(PLANNED, q) != Blank ==> BoardCell(rand, q) == Placed(PLANNED, q)
  {
    PlannedFit();
    PlacedUpper(PLANNED, q);
    AlphabetLetters();
  }

  // ------------------------------------------------------ selection, readSel

  function Min(a: int, b: int): int { if a <= b then a else b }
  function Max(a: int, b: int): int { if a <= b then b else a }

  /** The anchor and the cell under the pointer share a row or a column. */
  predicate Aligned(a: Pos, b: Pos) {
    a.r == b.r || a.c == b.c
  }

  /** The cells `markSel` highlights and `commit` marks found: the run from
      the lower to the higher index, or none when the ends are not aligned. */
  function RunCells(a: Pos, b: Pos): set<Pos> {
    if a.r == b.r then set c | Min(a.c, b.c) <= c <= Max(a.c, b.c) :: Pos(a.r, c)
    else if a.c == b.c then set r | Min(a.r, b.r) <= r <= Max(a.r, b.r) :: Pos(r, a.c)
    else {}
  }

  /** Row `r` of the grid from column `lo` to column `hi`, as a string. */
  function RowText(g: array2<Cell>, r: int, lo: int, hi: int): string
    requires IsGrid(g) && 0 <= r < SIZE && 0 <= lo && hi < SIZE
    reads g
    decreases hi - lo
  {
    if lo > hi then "" else CellText(g[r, lo]) + RowText(g, r, lo + 1, hi)
  }

  /** Column `c` of the grid from row `lo` to row `hi`, as a string. */
  function ColText(g: array2<Cell>, c: int, lo: int, hi: int): string
    requires IsGrid(g) && 0 <= c < SIZE && 0 <= lo && hi < SIZE
    reads g
    decreases hi - lo
  {
    if lo > hi then "" else CellText(g[lo, c]) + ColText(g, c, lo + 1, hi)
  }

  /** `readSel`: the letters of the run, always read from the lower index to
      the higher one, or `''` when the ends are not aligned. */
  function ReadSel(g: array2<Cell>, a: Pos, b: Pos): string
    requires IsGrid(g) && InBounds(a) && InBounds(b)
    reads g
  {
    if a.r == b.r then RowText(g, a.r, Min(a.c, b.c), Max(a.c, b.c))
    else if a.c == b.c then ColText(g, a.c, Min(a.r, b.r), Max(a.r, b.r))
    else ""
  }

  /** Every cell of the grid holds a letter, as after the fill. */
  predicate AllGlyphs(g: array2<Cell>)
    requires IsGrid(g)
    reads g
  {
    forall x, y :: 0 <= x < SIZE && 0 <= y < SIZE ==> g[x, y].Glyph?
  }

  lemma {:induction false} RowTextAt(g: array2<Cell>, r: int, lo: int, hi: int)
    requires IsGrid(g) && AllGlyphs(g) && 0 <= r < SIZE && 0 <= lo && hi < SIZE && lo <= hi + 1
    ensures |RowText(g, r, lo, hi)| == hi - lo + 1
    ensures forall k :: 0 <= k <= hi - lo ==> RowText(g, r, lo, hi)[k] == g[r, lo + k].ch
    decreases hi - lo
  {
    if lo <= hi {
      RowTextAt(g, r, lo + 1, hi);
    }
  }

  lemma {:induction false} ColTextAt(g: array2<Cell>, c: int, lo: int, hi: int)
    requires IsGrid(g) && AllGlyphs(g) && 0 <= c < SIZE && 0 <= lo && hi < SIZE && lo <= hi + 1
    ensures |ColText(g, c, lo, hi)| == hi - lo + 1
    ensures forall k :: 0 <= k <= hi - lo ==> ColText(g, c, lo, hi)[k] == g[lo + k, c].ch
    decreases hi - lo
  {
    if lo <= hi {
      ColTextAt(g, c, lo + 1, hi);
    }
  }

  /** On a filled grid an aligned selection reads one letter per cell of the
      run, from the lower index up, whichever end is the anchor; unaligned
      ends read `''`. */
  lemma ReadSelRun(g: array2<Cell>, a: Pos, b: Pos)
    requires IsGrid(g) && AllGlyphs(g) && InBounds(a) && InBounds(b)
    ensures ReadSel(g, a, b) == ReadSel(g, b, a)
    ensures !Aligned(a, b) ==> ReadSel(g, a, b) == ""
    ensures a.r == b.r ==> (|ReadSel(g, a, b)| == Max(a.c, b.c) - Min(a.c, b.c) + 1 &&
      forall k :: 0 <= k < |ReadSel(g, a, b)| ==> ReadSel(g, a, b)[k] == g[a.r, Min(a.c, b.c) + k].ch)
    ensures a.r != b.r && a.c == b.c ==> (|ReadSel(g, a, b)| == Max(a.r, b.r) - Min(a.r, b.r) + 1 &&
      forall k :: 0 <= k < |ReadSel(g, a, b)| ==> ReadSel(g, a, b)[k] == g[Min(a.r, b.r) + k, a.c].ch)
  {
    if a.r == b.r {
      RowTextAt(g, a.r, Min(a.c, b.c), Max(a.c, b.c));
    } else if a.c == b.c {
      ColTextAt(g, a.c, Min(a.r, b.r), Max(a.r, b.r));
    }
  }

  // ------------------------------------------------------------ matching

  /** `s.split('').reverse().join('')`. */
  function Reverse(s: string): (r: string)
    ensures |r| == |s| && forall i :: 0 <= i < |s| ==> r[i] == s[|s| - 1 - i]
  {
    seq(|s|, i requires 0 <= i < |s| => s[|s| - 1 - i])
  }

  lemma ReverseReverse(s: string)
    ensures Reverse(Reverse(s)) == s
  {
  }

  /** `candidates.includes(w)` with `candidates = [s, reverse(s)]`. */
  predicate Matches(w: string, s: string) {
    w == s || w == Reverse(s)
  }

  /** `WORDS.find(...)` from position `k`: the index of the first word that
      matches, or -1. */
  function FindWord(ws: seq<string>, s: string, k: nat): (i: int)
    requires k <= |ws|
    ensures i == -1 || (k <= i < |ws| && Matches(ws[i], s))
    ensures forall j :: k <= j < |ws| && (i == -1 || j < i) ==> !Matches(ws[j], s)
    decreases |ws| - k
  {
    if k == |ws| then -1
    else if Matches(ws[k], s) then k
    else FindWord(ws, s, k + 1)
  }

  /** The word `commit` settles on: the active word when it matches,
      otherwise the first matching word of the list, or none. */
  function Resolve(active: Option<string>, s: string): (f: Option<string>)
    ensures f.Some? ==> Matches(f.value, s) && (f.value in WORDS || f == active)
    ensures f.None? ==> (active.None? || !Matches(active.value, s)) && forall w :: w in WORDS ==> !Matches(w, s)
  {
    if active.Some? && Matches(active.value, s) then active
    else
      var i := FindWord(WORDS, s, 0);
      if i == -1 then None else Some(WORDS[i])
  }

  /** The four words have pairwise different lengths. */
  lemma WordLengths(i: int, j: int)
    requires 0 <= i < |WORDS| && 0 <= j < |WORDS| && |WORDS[i]| == |WORDS[j]|
    ensures i == j
  {
  }

  /** Preferring the clicked word never changes the outcome: a selection
      matches at most one word of the list, since the words' lengths differ. */
  lemma ActiveIrrelevant(active: Option<string>, s: string)
    requires active.None? || active.value in WORDS
    ensures Resolve(active, s) == Resolve(None, s)
  {
    if active.Some? && Matches(active.value, s) {
      var a :| 0 <= a < |WORDS| && WORDS[a] == active.value;
      var i := FindWord(WORDS, s, 0);
      assert i != -1 by {
        assert Matches(WORDS[a], s);
      }
      WordLengths(a, i);
    }
  }

  // -------------------------------------------------------------- digits

  /** `letterToDigit` on a capital letter: its A1Z26 number modulo 10. */
  function LetterToDigit(ch: char): (d: int)
    requires IsUpper(ch)
    ensures 0 <= d <= 9
  {
    (ch as int - 64) % 10
  }

  /** `String(d)` for a single digit. */
  function DigitChar(d: int): (ch: char)
    requires 0 <= d <= 9
    ensures IsDigit(ch)
  {
    (48 + d) as char
  }

  /** The digits of the four words, in list order, spell the task-4 code. */
  lemma WordDigits()
    ensures forall k :: 0 <= k < |WORDS| ==> |WORDS[k]| > 0 && IsUpper(WORDS[k][0])
    ensures [DigitChar(LetterToDigit(WORDS[0][0])), DigitChar(LetterToDigit(WORDS[1][0])),
             DigitChar(LetterToDigit(WORDS[2][0])), DigitChar(LetterToDigit(WORDS[3][0]))] == "3542"
  {
  }

  // ---------------------------------------------------- the mount's state

  /** The mount's state besides the grid: `activeWord`, `start`, `isDown`,
      the highlighted (`sel`) and found (`found`) cells, the list items
      marked found, the cells whose text was replaced by a digit and whether
      the done indicator is shown. */
  datatype Ui = Ui(active: Option<string>, start: Option<Pos>, down: bool, sel: set<Pos>,
                   found: set<Pos>, words: set<string>, labels: map<Pos, string>, done: bool)

  const INITIAL_UI: Ui := Ui(None, None, false, {}, {}, {}, map[], false)

  /** `WORDS.every(w => wordItems[w].classList.contains('found'))`. */
  predicate AllFound(words: set<string>) {
    forall k :: 0 <= k < |WORDS| ==> WORDS[k] in words
  }

  /** What the handlers maintain: the active word and the found words come
      from the list, the anchor is a grid cell, and the done indicator is
      shown exactly when every word is found. */
  predicate UiValid(u: Ui) {
    && (u.active.None? || u.active.value in WORDS)
    && (forall w :: w in u.words ==> w in WORDS)
    && (u.start.Some? ==> InBounds(u.start.value))
    && (u.done <==> AllFound(u.words))
  }

  /** The cell `commit` writes the digit on, as written: the anchor when the
      selection reads as the word, otherwise the cell where the drag ended. */
  function DigitCell(a: Pos, b: Pos, forward: bool): Pos {
    if forward then a else b
  }

  /** The letter `commit` converts is the found word's first letter, read
      from the front of `s` or, for a reversed selection, from its back. */
  lemma FirstLetter(w: string, s: string)
    requires w in WORDS && Matches(w, s)
    ensures |s| > 0 && (if s == w then s[0] else s[|s| - 1]) == w[0] && IsUpper(w[0])
  {
  }

  /** `commit(a, b)` once `readSel` has returned `s`. */
  function CommitStep(u: Ui, s: string, a: Pos, b: Pos): Ui
    requires u.active.None? || u.active.value in WORDS
  {
    if s == "" then u
    else
      var f := Resolve(u.active, s);
      if f.None? then u.(sel := {})
      else
        var w := f.value;
        var forward := s == w;
        FirstLetter(w, s);
        var first := if forward then s[0] else s[|s| - 1];
        var words := u.words + {w};
        u.(found := u.found + RunCells(a, b),
           words := words,
           active := if u.active == Some(w) then None else u.active,
           labels := u.labels[DigitCell(a, b, forward) := [DigitChar(LetterToDigit(first))]],
           done := u.done || AllFound(words),
           sel := {})
  }

  /** A click on a list item: it becomes the active word unless it is
      already found. */
  function ClickStep(u: Ui, w: string): Ui {
    if w in u.words then u else u.(active := Some(w))
  }

  /** `mousedown` on `cell` (none when the target is not a grid cell) with
      mouse button `button`: buttons 0 and 2 start a drag. */
  function DownStep(u: Ui, cell: Option<Pos>, button: int): Ui {
    if cell.None? || !(button == 0 || button == 2) then u
    else u.(down := true, start := cell, sel := {})
  }

  /** `mouseover`: during a drag, highlight the run to an aligned cell. */
  function OverStep(u: Ui, cell: Option<Pos>): Ui {
    if !u.down || u.start.None? || cell.None? then u
    else if Aligned(u.start.value, cell.value) then u.(sel := RunCells(u.start.value, cell.value))
    else u
  }

  /** `mouseup` (on the window): ends the drag and commits an aligned
      selection. */
  function UpStep(g: array2<Cell>, u: Ui, cell: Option<Pos>): Ui
    requires IsGrid(g) && UiValid(u)
    requires cell.Some? ==> InBounds(cell.value)
    reads g
  {
    if !u.down || u.start.None? then u
    else
      var u1 := u.(down := false);
      if cell.None? then u1.(sel := {}, start := None)
      else if Aligned(u.start.value, cell.value) then
        CommitStep(u1, ReadSel(g, u.start.value, cell.value), u.start.value, cell.value).(start := None)
      else u1.(sel := {}, start := None)
  }

  // ------------------------------------------------------ what commit does

  /** A selection that reads `''` changes nothing, not even the highlight. */
  lemma CommitEmpty(u: Ui, a: Pos, b: Pos)
    requires u.active.None? || u.active.value in WORDS
    ensures CommitStep(u, "", a, b) == u
  {
  }

  /** A selection that matches no word only clears the highlight. */
  lemma CommitNoMatch(u: Ui, s: string, a: Pos, b: Pos)
    requires UiValid(u) && s != ""
    requires forall w :: w in WORDS ==> !Matches(w, s)
    ensures CommitStep(u, s, a, b) == u.(sel := {})
  {
  }

  /** A selection that matches word `w` marks the run's cells and `w` found,
      clears the active word if it was `w`, writes `w`'s digit
      `(code(w[0]) - 64) mod 10` on the cell `DigitCell` picks, and clears the
      highlight; the anchor and the drag flag are left alone. */
  lemma CommitMatch(u: Ui, s: string, a: Pos, b: Pos, w: string)
    requires UiValid(u) && w in WORDS && Matches(w, s)
    ensures var v := CommitStep(u, s, a, b);
      && v.found == u.found + RunCells(a, b)
      && v.words == u.words + {w}
      && v.active == (if u.active == Some(w) then None else u.active)
      && v.labels == u.labels[DigitCell(a, b, s == w) := [DigitChar(LetterToDigit(w[0]))]]
      && v.done == (u.done || AllFound(u.words + {w}))
      && v.sel == {} && v.start == u.start && v.down == u.down
  {
    ActiveIrrelevant(u.active, s);
    var i := FindWord(WORDS, s, 0);
    var k :| 0 <= k < |WORDS| && WORDS[k] == w;
    WordLengths(i, k);
    FirstLetter(w, s);
  }

  /** The same, as the whole new state. */
  lemma CommitMatchState(u: Ui, s: string, a: Pos, b: Pos, w: string)
    requires UiValid(u) && w in WORDS && Matches(w, s)
    ensures CommitStep(u, s, a, b) ==
      Ui(if u.active == Some(w) then None else u.active, u.start, u.down, {},
         u.found + RunCells(a, b), u.words + {w},
         u.labels[DigitCell(a, b, s == w) := [DigitChar(LetterToDigit(w[0]))]],
         u.done || AllFound(u.words + {w}))
  {
    CommitMatch(u, s, a, b, w);
  }

  /** Found cells, found words and digit cells are only ever added. */
  lemma CommitGrows(u: Ui, s: string, a: Pos, b: Pos)
    requires u.active.None? || u.active.value in WORDS
    ensures var v := CommitStep(u, s, a, b);
      u.found <= v.found && u.words <= v.words && u.labels.Keys <= v.labels.Keys && (u.done ==> v.done)
  {
  }

  /** `commit` keeps the state valid: in particular the done indicator is
      shown exactly when every word is found. */
  lemma CommitValid(u: Ui, s: string, a: Pos, b: Pos)
    requires UiValid(u)
    ensures UiValid(CommitStep(u, s, a, b))
  {
    var f := Resolve(u.active, s);
    if s != "" && f.Some? {
      ActiveIrrelevant(u.active, s);
    }
  }

  /** `commit` does not check whether the word was already found, and it
      does not need to: committing the same selection again changes
      nothing. */
  lemma CommitIdempotent(u: Ui, s: string, a: Pos, b: Pos)
    requires UiValid(u)
    ensures var v := CommitStep(u, s, a, b);
      UiValid(v) && CommitStep(v, s, a, b) == v
  {
    CommitValid(u, s, a, b);
    var f := Resolve(u.active, s);
    if s != "" && f.Some? {
      ActiveIrrelevant(u.active, s);
      RecommitMatch(u, s, a, b, f.value);
    } else if s != "" {
      var v := CommitStep(u, s, a, b);
      CommitNoMatch(u, s, a, b);
      CommitNoMatch(v, s, a, b);
    }
  }

  lemma RecommitMatch(u: Ui, s: string, a: Pos, b: Pos, w: string)
    requires UiValid(u) && w in WORDS && Matches(w, s)
    ensures var v := CommitStep(u, s, a, b);
      UiValid(v) ==> CommitStep(v, s, a, b) == v
  {
    var v := CommitStep(u, s, a, b);
    if UiValid(v) {
      CommitMatch(u, s, a, b, w);
      CommitMatch(v, s, a, b, w);
      var v2 := CommitStep(v, s, a, b);
      var cell := DigitCell(a, b, s == w);
      assert v.labels[cell := v.labels[cell]] == v.labels;
      assert v2.labels == v.labels;
      assert v2.words == v.words;
      assert v2.found == v.found;
      assert v2.active == v.active;
      assert v2.done == v.done;
    }
  }

  // ------------------------------------------------------- the drag

  /** A click on an unfound list item makes it the active word; a found one
      is ignored. */
  lemma ClickValid(u: Ui, w: string)
    requires UiValid(u) && w in WORDS
    ensures UiValid(ClickStep(u, w))
    ensures ClickStep(u, w).active == if w in u.words then u.active else Some(w)
  {
  }

  /** Only buttons 0 and 2 on a grid cell start a drag, and starting one
      clears the highlight. */
  lemma DownStarts(u: Ui, cell: Option<Pos>, button: int)
    requires UiValid(u) && (cell.Some? ==> InBounds(cell.value))
    ensures var v := DownStep(u, cell, button);
      && UiValid(v)
      && (v != u ==> cell.Some? && (button == 0 || button == 2))
      && (cell.Some? && (button == 0 || button == 2) ==> v.down && v.start == cell && v.sel == {})
      && v.found == u.found && v.words == u.words && v.labels == u.labels
  {
  }

  /** During a drag the highlight follows the pointer, but only to cells
      aligned with the anchor; nothing else changes. */
  lemma OverHighlights(u: Ui, cell: Option<Pos>)
    requires UiValid(u)
    ensures var v := OverStep(u, cell);
      UiValid(v) && v.(sel := u.sel) == u &&
      (v.sel != u.sel ==> u.down && u.start.Some? && cell.Some? && Aligned(u.start.value, cell.value)
                          && v.sel == RunCells(u.start.value, cell.value))
  {
  }

  /** Releasing ends the drag; only an aligned release can mark anything
      found. */
  lemma UpEnds(g: array2<Cell>, u: Ui, cell: Option<Pos>)
    requires IsGrid(g) && UiValid(u) && (cell.Some? ==> InBounds(cell.value))
    ensures var v := UpStep(g, u, cell);
      && UiValid(v)
      && (u.down && u.start.Some? ==> !v.down && v.start.None?)
      && (v.found != u.found || v.words != u.words || v.labels != u.labels ==>
            u.down && u.start.Some? && cell.Some? && Aligned(u.start.value, cell.value))
  {
    if u.down && u.start.Some? && cell.Some? && Aligned(u.start.value, cell.value) {
      CommitValid(u.(down := false), ReadSel(g, u.start.value, cell.value), u.start.value, cell.value);
    }
  }

  // ------------------------------------------------ the planned words found

  /** The filled board holds a letter in every cell. */
  lemma BoardGlyphs(g: array2<Cell>, rand: (int, int) -> Draw)
    requires IsGrid(g) && forall x, y :: 0 <= x < SIZE && 0 <= y < SIZE ==> g[x, y] == BoardCell(rand, Pos(x, y))
    ensures AllGlyphs(g)
  {
    forall x, y | 0 <= x < SIZE && 0 <= y < SIZE ensures g[x, y].Glyph? {
      BoardLetters(rand, Pos(x, y));
    }
  }

  lemma RunCellLetter(g: array2<Cell>, rand: (int, int) -> Draw, k: int, i: int)
    requires IsGrid(g) && forall x, y :: 0 <= x < SIZE && 0 <= y < SIZE ==> g[x, y] == BoardCell(rand, Pos(x, y))
    requires 0 <= k < |PLANNED| && 0 <= i < |PLANNED[k].w|
    ensures InBounds(CellOf(PLANNED[k], i))
    ensures g[CellOf(PLANNED[k], i).r, CellOf(PLANNED[k], i).c] == Glyph(PLANNED[k].w[i])
  {
    PlannedFit();
    PlacedOnRun(k, i);
    BoardLetters(rand, CellOf(PLANNED[k], i));
  }

  /** The first and the last cell of planned word `k`. */
  function RunStart(k: int): Pos
    requires 0 <= k < |PLANNED|
  {
    CellOf(PLANNED[k], 0)
  }

  function RunEnd(k: int): Pos
    requires 0 <= k < |PLANNED|
  {
    CellOf(PLANNED[k], |PLANNED[k].w| - 1)
  }

  /** A straight run holding word `p.w` reads as that word when it runs
      rightwards or downwards and reversed otherwise, since `readSel` always
      reads from the lower index. */
  lemma RunReads(g: array2<Cell>, p: Placement)
    requires IsGrid(g) && AllGlyphs(g) && UnitStep(p.dr, p.dc) && (p.dr == 0 || p.dc == 0)
    requires |p.w| > 0 && Fits(p)
    requires forall i :: 0 <= i < |p.w| ==> g[CellOf(p, i).r, CellOf(p, i).c] == Glyph(p.w[i])
    ensures ReadSel(g, CellOf(p, 0), CellOf(p, |p.w| - 1)) == if p.dr + p.dc > 0 then p.w else Reverse(p.w)
  {
    if p.dc == 1 {
      ReadsRight(g, p);
    } else if p.dr == 1 {
      ReadsDown(g, p);
    } else if p.dc == -1 {
      ReadsLeft(g, p);
    } else {
      ReadsUp(g, p);
    }
  }

  lemma ReadsRight(g: array2<Cell>, p: Placement)
    requires IsGrid(g) && AllGlyphs(g) && p.dr == 0 && p.dc == 1
    requires |p.w| > 0 && Fits(p)
    requires forall i :: 0 <= i < |p.w| ==> g[CellOf(p, i).r, CellOf(p, i).c] == Glyph(p.w[i])
    ensures ReadSel(g, CellOf(p, 0), CellOf(p, |p.w| - 1)) == p.w
  {
    var n := |p.w|;
    assert InBounds(CellOf(p, 0)) && InBounds(CellOf(p, n - 1));
    ReadSelRun(g, CellOf(p, 0), CellOf(p, n - 1));
    var s := ReadSel(g, CellOf(p, 0), CellOf(p, n - 1));
    forall i | 0 <= i < n ensures s[i] == p.w[i] {
      assert InBounds(CellOf(p, i));
    }
  }

  lemma ReadsDown(g: array2<Cell>, p: Placement)
    requires IsGrid(g) && AllGlyphs(g) && p.dr == 1 && p.dc == 0
    requires |p.w| > 0 && Fits(p)
    requires forall i :: 0 <= i < |p.w| ==> g[CellOf(p, i).r, CellOf(p, i).c] == Glyph(p.w[i])
    ensures ReadSel(g, CellOf(p, 0), CellOf(p, |p.w| - 1)) == p.w
  {
    var n := |p.w|;
    assert InBounds(CellOf(p, 0)) && InBounds(CellOf(p, n - 1));
    ReadSelRun(g, CellOf(p, 0), CellOf(p, n - 1));
    var s := ReadSel(g, CellOf(p, 0), CellOf(p, n - 1));
    forall i | 0 <= i < n ensures s[i] == p.w[i] {
      assert InBounds(CellOf(p, i));
    }
  }

  lemma ReadsLeft(g: array2<Cell>, p: Placement)
    requires IsGrid(g) && AllGlyphs(g) && p.dr == 0 && p.dc == -1
    requires |p.w| > 0 && Fits(p)
    requires forall i :: 0 <= i < |p.w| ==> g[CellOf(p, i).r, CellOf(p, i).c] == Glyph(p.w[i])
    ensures ReadSel(g, CellOf(p, 0), CellOf(p, |p.w| - 1)) == Reverse(p.w)
  {
    var n := |p.w|;
    assert InBounds(CellOf(p, 0)) && InBounds(CellOf(p, n - 1));
    ReadSelRun(g, CellOf(p, 0), CellOf(p, n - 1));
    var s := ReadSel(g, CellOf(p, 0), CellOf(p, n - 1));
    forall i | 0 <= i < n ensures s[i] == Reverse(p.w)[i] {
      assert InBounds(CellOf(p, n - 1 - i));
    }
  }

  lemma ReadsUp(g: array2<Cell>, p: Placement)
    requires IsGrid(g) && AllGlyphs(g) && p.dr == -1 && p.dc == 0
    requires |p.w| > 0 && Fits(p)
    requires forall i :: 0 <= i < |p.w| ==> g[CellOf(p, i).r, CellOf(p, i).c] == Glyph(p.w[i])
    ensures ReadSel(g, CellOf(p, 0), CellOf(p, |p.w| - 1)) == Reverse(p.w)
  {
    var n := |p.w|;
    assert InBounds(CellOf(p, 0)) && InBounds(CellOf(p, n - 1));
    ReadSelRun(g, CellOf(p, 0), CellOf(p, n - 1));
    var s := ReadSel(g, CellOf(p, 0), CellOf(p, n - 1));
    forall i | 0 <= i < n ensures s[i] == Reverse(p.w)[i] {
      assert InBounds(CellOf(p, n - 1 - i));
    }
  }

  /** Selecting a planned run reads its word: CIPHER and ENCRYPT forwards,
      DATA and LOGIC (placed upwards and leftwards) reversed. */
  lemma PlannedRunReads(g: array2<Cell>, rand: (int, int) -> Draw, k: int)
    requires IsGrid(g) && forall x, y :: 0 <= x < SIZE && 0 <= y < SIZE ==> g[x, y] == BoardCell(rand, Pos(x, y))
    requires 0 <= k < |PLANNED|
    ensures InBounds(RunStart(k)) && InBounds(RunEnd(k))
    ensures ReadSel(g, RunStart(k), RunEnd(k)) == if k < 2 then WORDS[k] else Reverse(WORDS[k])
  {
    PlannedFit();
    BoardGlyphs(g, rand);
    forall i | 0 <= i < |PLANNED[k].w|
      ensures g[CellOf(PLANNED[k], i).r, CellOf(PLANNED[k], i).c] == Glyph(PLANNED[k].w[i])
    {
      RunCellLetter(g, rand, k, i);
    }
    RunReads(g, PLANNED[k]);
  }

  /** A selection that matches word `k` resolves to it, whatever word is
      active. */
  lemma ResolvesTo(active: Option<string>, s: string, k: int)
    requires 0 <= k < |WORDS| && Matches(WORDS[k], s) && (active.None? || active.value in WORDS)
    ensures Resolve(active, s) == Some(WORDS[k])
  {
    ActiveIrrelevant(active, s);
    var i := FindWord(WORDS, s, 0);
    WordLengths(i, k);
  }

  /** Dragging over a planned run, in either direction and whatever word is
      active, finds that run's word. */
  lemma PlannedDragFinds(g: array2<Cell>, rand: (int, int) -> Draw, k: int, active: Option<string>)
    requires IsGrid(g) && forall x, y :: 0 <= x < SIZE && 0 <= y < SIZE ==> g[x, y] == BoardCell(rand, Pos(x, y))
    requires 0 <= k < |PLANNED| && (active.None? || active.value in WORDS)
    ensures InBounds(RunStart(k)) && InBounds(RunEnd(k))
    ensures Resolve(active, ReadSel(g, RunStart(k), RunEnd(k))) == Some(WORDS[k])
    ensures Resolve(active, ReadSel(g, RunEnd(k), RunStart(k))) == Some(WORDS[k])
  {
    PlannedRunReads(g, rand, k);
    BoardGlyphs(g, rand);
    ReadSelRun(g, RunStart(k), RunEnd(k));
    ReverseReverse(WORDS[k]);
    ResolvesTo(active, ReadSel(g, RunStart(k), RunEnd(k)), k);
  }

  // ------------------------------------------------------ the digit's cell

  /** The end of an aligned run that `readSel` reads first, and the one it
      reads last. */
  function LowEnd(a: Pos, b: Pos): Pos {
    if a.r == b.r then Pos(a.r, Min(a.c, b.c)) else Pos(Min(a.r, b.r), a.c)
  }

  function HighEnd(a: Pos, b: Pos): Pos {
    if a.r == b.r then Pos(a.r, Max(a.c, b.c)) else Pos(Max(a.r, b.r), a.c)
  }

  /** The cell the digit belongs on: the one holding the word's first letter,
      which is the first cell read when the selection reads as the word and
      the last one otherwise. */
  function IntendedDigitCell(a: Pos, b: Pos, forward: bool): Pos {
    if forward then LowEnd(a, b) else HighEnd(a, b)
  }

  /** With the intended cell, the digit always lands on the found word's first
      letter, whichever way the drag went. */
  lemma IntendedDigitCellHoldsFirstLetter(g: array2<Cell>, a: Pos, b: Pos, w: string)
    requires IsGrid(g) && AllGlyphs(g) && InBounds(a) && InBounds(b) && Aligned(a, b)
    requires w in WORDS && Matches(w, ReadSel(g, a, b))
    ensures var q := IntendedDigitCell(a, b, ReadSel(g, a, b) == w);
      InBounds(q) && g[q.r, q.c] == Glyph(w[0])
  {
    ReadSelRun(g, a, b);
    var s := ReadSel(g, a, b);
    FirstLetter(w, s);
    if s == w {
      assert s[0] == w[0];
    } else {
      assert s[|s| - 1] == w[0];
    }
  }

  /** As written, dragging CIPHER from its last cell back to its first puts
      the digit on the last cell, which holds 'R', instead of on the 'C' where
      the archive view puts it. */
  lemma DigitCellMisplaced(g: array2<Cell>, rand: (int, int) -> Draw)
    requires IsGrid(g) && forall x, y :: 0 <= x < SIZE && 0 <= y < SIZE ==> g[x, y] == BoardCell(rand, Pos(x, y))
    ensures var s := ReadSel(g, Pos(1, 6), Pos(1, 1));
      && s == "CIPHER"
      && DigitCell(Pos(1, 6), Pos(1, 1), s == "CIPHER") == Pos(1, 6)
      && g[1, 6] == Glyph('R')
      && IntendedDigitCell(Pos(1, 6), Pos(1, 1), s == "CIPHER") == Pos(1, 1)
  {
    PlannedRunReads(g, rand, 0);
    BoardGlyphs(g, rand);
    ReadSelRun(g, RunStart(0), RunEnd(0));
    RunCellLetter(g, rand, 0, 5);
  }

  // -------------------------------------------------------- the archive grid

  /** The archive's stamp for one placement: the cell `(p.r, p.c)`, if it holds
      a capital letter, becomes that letter's digit. */
  function Stamp(p: Placement, q: Pos, cell: Cell): Cell {
    if q == Pos(p.r, p.c) && cell.Glyph? && IsUpper(cell.ch) then Glyph(DigitChar(LetterToDigit(cell.ch)))
    else cell
  }

  /** Cell `q` after placement and the stamps of the first `n` placements. */
  function Stamped(n: nat, q: Pos): Cell
    requires n <= |PLANNED|
  {
    PlannedFit();
    if n == 0 then Placed(PLANNED, q) else Stamp(PLANNED[n - 1], q, Stamped(n - 1, q))
  }

  /** The archive board: placement, stamping, then fill. */
  function ArchiveCell(rand: (int, int) -> Draw, q: Pos): Cell {
    Filled(Stamped(|PLANNED|, q), rand, q)
  }

  /** One step of the archive's stamping loop. */
  method StampStart(g: array2<Cell>, p: Placement)
    requires IsGrid(g) && InBounds(Pos(p.r, p.c))
    modifies g
    ensures forall x, y :: 0 <= x < SIZE && 0 <= y < SIZE ==> g[x, y] == Stamp(p, Pos(x, y), old(g[x, y]))
  {
    var first := g[p.r, p.c];
    if first.Glyph? && IsUpper(first.ch) {
      g[p.r, p.c] := Glyph(DigitChar(LetterToDigit(first.ch)));
    }
  }

  /** `ArchiveModal`'s grid: the planned grid, the digit stamps, the fill. */
  method NewArchive(rand: (int, int) -> Draw) returns (g: array2<Cell>)
    ensures fresh(g) && IsGrid(g)
    ensures forall x, y :: 0 <= x < SIZE && 0 <= y < SIZE ==> g[x, y] == ArchiveCell(rand, Pos(x, y))
  {
    g := PlannedGrid();
    StampAll(g);
    Fill(g, rand);
  }

  /** The archive's loop over the placements, stamping each start cell. */
  method StampAll(g: array2<Cell>)
    requires IsGrid(g)
    requires forall x, y :: 0 <= x < SIZE && 0 <= y < SIZE ==> g[x, y] == Placed(PLANNED, Pos(x, y))
    modifies g
    ensures forall x, y :: 0 <= x < SIZE && 0 <= y < SIZE ==> g[x, y] == Stamped(|PLANNED|, Pos(x, y))
  {
    var k := 0;
    while k < |PLANNED|
      invariant 0 <= k <= |PLANNED|
      invariant forall x, y :: 0 <= x < SIZE && 0 <= y < SIZE ==> g[x, y] == Stamped(k, Pos(x, y))
    {
      StampNext(g, k);
      k := k + 1;
    }
  }

  /** One pass of the stamping loop: the grid after `k` stamps becomes the
      grid after `k + 1`. */
  method StampNext(g: array2<Cell>, k: int)
    requires IsGrid(g) && 0 <= k < |PLANNED|
    requires forall x, y :: 0 <= x < SIZE && 0 <= y < SIZE ==> g[x, y] == Stamped(k, Pos(x, y))
    modifies g
    ensures forall x, y :: 0 <= x < SIZE && 0 <= y < SIZE ==> g[x, y] == Stamped(k + 1, Pos(x, y))
  {
    StartsOnGrid(k);
    StampStart(g, PLANNED[k]);
  }

  /** Each placement starts on the grid, at the cell of its first letter. */
  lemma StartsOnGrid(k: int)
    requires 0 <= k < |PLANNED|
    ensures RunStart(k) == Pos(PLANNED[k].r, PLANNED[k].c) && InBounds(RunStart(k))
  {
    PlannedFit();
    assert InBounds(CellOf(PLANNED[k], 0));
  }

  /** Different placements start on different cells, so each stamp sees its
      own word's letter. */
  lemma StampedElsewhere(n: nat, q: Pos)
    requires n <= |PLANNED|
    requires forall k :: 0 <= k < n ==> q != Pos(PLANNED[k].r, PLANNED[k].c)
    ensures Stamped(n, q) == Placed(PLANNED, q)
  {
    if n > 0 {
      StampedElsewhere(n - 1, q);
    }
  }

  /** The archive puts the digit of each word on the word's own start cell;
      the digits read 3, 5, 4, 2 in list order. */
  lemma ArchiveDigits(rand: (int, int) -> Draw, k: int)
    requires 0 <= k < |PLANNED|
    ensures ArchiveCell(rand, RunStart(k)) == Glyph(DigitChar(LetterToDigit(WORDS[k][0])))
    ensures ArchiveCell(rand, RunStart(k)) == Glyph("3542"[k])
  {
    PlannedFit();
    WordDigits();
    var q := RunStart(k);
    StartsOnGrid(k);
    PlacedOnRun(k, 0);
    StampedElsewhere(k, q);
    var n := k + 1;
    while n < |PLANNED|
      invariant k + 1 <= n <= |PLANNED|
      invariant Stamped(n, q) == Glyph(DigitChar(LetterToDigit(WORDS[k][0])))
    {
      n := n + 1;
    }
  }

  /** For the same drawn letters, the archive differs from the mount's board
      only at the four start cells. */
  lemma ArchiveElsewhere(rand: (int, int) -> Draw, q: Pos)
    requires forall k :: 0 <= k < |PLANNED| ==> q != RunStart(k)
    ensures ArchiveCell(rand, q) == BoardCell(rand, q)
  {
    forall k | 0 <= k < |PLANNED| ensures q != Pos(PLANNED[k].r, PLANNED[k].c) {
      StartsOnGrid(k);
    }
    StampedElsewhere(|PLANNED|, q);
  }

  /** The mount and `ArchiveModal` draw their letters separately: what the
      archive shares with the mount's board, whatever either fill drew, is
      every letter of a planned run after its start cell. */
  lemma ArchiveSharesRuns(boardRand: (int, int) -> Draw, archiveRand: (int, int) -> Draw, k: int, i: int)
    requires 0 <= k < |PLANNED| && 0 < i < |PLANNED[k].w|
    ensures ArchiveCell(archiveRand, CellOf(PLANNED[k], i)) == Glyph(PLANNED[k].w[i])
    ensures BoardCell(boardRand, CellOf(PLANNED[k], i)) == Glyph(PLANNED[k].w[i])
  {
    var q := CellOf(PLANNED[k], i);
    PlannedFit();
    forall j | 0 <= j < |PLANNED| ensures q != RunStart(j) {
      if j == k {
        if q == RunStart(j) {
          CellOfInjective(PLANNED[k], i, 0);
        }
      } else if j < k {
        PlannedDisjoint(j, k, 0, i);
      } else {
        PlannedDisjoint(k, j, i, 0);
      }
    }
    PlacedOnRun(k, i);
    ArchiveElsewhere(archiveRand, q);
  }

  /** With the intended cell the mount would agree with the archive: a drag
      over a planned word, either way, puts the digit on the word's start
      cell, where `ArchiveModal` stamps it. */
  lemma IntendedMatchesArchive(g: array2<Cell>, rand: (int, int) -> Draw, k: int)
    requires IsGrid(g) && forall x, y :: 0 <= x < SIZE && 0 <= y < SIZE ==> g[x, y] == BoardCell(rand, Pos(x, y))
    requires 0 <= k < |PLANNED|
    ensures InBounds(RunStart(k)) && InBounds(RunEnd(k))
    ensures IntendedDigitCell(RunStart(k), RunEnd(k), ReadSel(g, RunStart(k), RunEnd(k)) == WORDS[k]) == RunStart(k)
    ensures IntendedDigitCell(RunEnd(k), RunStart(k), ReadSel(g, RunEnd(k), RunStart(k)) == WORDS[k]) == RunStart(k)
  {
    PlannedRunReads(g, rand, k);
    BoardGlyphs(g, rand);
    ReadSelRun(g, RunStart(k), RunEnd(k));
    PlannedFit();
    if k >= 2 {
      assert Reverse(WORDS[k])[0] != WORDS[k][0];
    }
  }

  /** The cells of the run from `a` to `b`, collected one at a time as the
      loops of `markSel` and `commit` visit them. */
  method CollectRun(a: Pos, b: Pos) returns (cells: set<Pos>)
    ensures cells == RunCells(a, b)
  {
    cells := {};
    if a.r == b.r {
      var c := Min(a.c, b.c);
      while c <= Max(a.c, b.c)
        invariant Min(a.c, b.c) <= c <= Max(a.c, b.c) + 1
        invariant cells == set x | Min(a.c, b.c) <= x < c :: Pos(a.r, x)
      {
        cells := cells + {Pos(a.r, c)};
        c := c + 1;
      }
    } else if a.c == b.c {
      var r := Min(a.r, b.r);
      while r <= Max(a.r, b.r)
        invariant Min(a.r, b.r) <= r <= Max(a.r, b.r) + 1
        invariant cells == set x | Min(a.r, b.r) <= x < r :: Pos(x, a.c)
      {
        cells := cells + {Pos(r, a.c)};
        r := r + 1;
      }
    }
  }

  /** The body of `commit` once the selection has been read: resolve the
      word, mark the run's cells found one at a time, mark the word, reset the
      active word, write the digit, show the done indicator, clear the
      highlight. */
  method CommitOutcome(u: Ui, s: string, a: Pos, b: Pos) returns (v: Ui)
    requires UiValid(u)
    ensures v == CommitStep(u, s, a, b)
  {
    if s == "" {
      return u;
    }
    var f := Resolve(u.active, s);
    if f.None? {
      CommitNoMatch(u, s, a, b);
      return u.(sel := {});
    }
    var w := f.value;
    FirstLetter(w, s);
    var cells := CollectRun(a, b);
    var act := u.active;
    if act == Some(w) {
      act := None;
    }
    var forward := s == w;
    var first := if forward then s[0] else s[|s| - 1];
    var cell := if forward then a else b;
    var ws := u.words + {w};
    var fin := u.done;
    if AllFound(ws) {
      fin := true;
    }
    CommitMatchState(u, s, a, b, w);
    v := Ui(act, u.start, u.down, {}, u.found + cells, ws, u.labels[cell := [DigitChar(LetterToDigit(first))]], fin);
  }

  // ---------------------------------------------------------------- the mount

  /** `WordSearchMount`: the board and the handlers' state. */
  class Game {
    const grid: array2<Cell>
    var active: Option<string>
    var start: Option<Pos>
    var down: bool
    var sel: set<Pos>
    var found: set<Pos>
    var words: set<string>
    var labels: map<Pos, string>
    var done: bool

    function State(): Ui
      reads this
    {
      Ui(active, start, down, sel, found, words, labels, done)
    }

    predicate Valid()
      reads this, grid
    {
      IsGrid(grid) && AllGlyphs(grid) && UiValid(State())
    }

    /** Mounting: the board is built and filled, nothing is selected or
        found. */
    constructor(rand: (int, int) -> Draw)
      ensures Valid() && fresh(grid) && State() == INITIAL_UI
      ensures forall x, y :: 0 <= x < SIZE && 0 <= y < SIZE ==> grid[x, y] == BoardCell(rand, Pos(x, y))
    {
      var g := NewBoard(rand);
      BoardGlyphs(g, rand);
      grid := g;
      active, start, down := None, None, false;
      sel, found, words, labels, done := {}, {}, {}, map[], false;
      new;
      assert WORDS[0] !in words;
    }

    /** A click on the list item of `w`. */
    method ClickWord(w: string)
      requires Valid() && w in WORDS
      modifies this
      ensures Valid() && State() == ClickStep(old(State()), w)
    {
      if w in words {
        return;
      }
      active := Some(w);
    }

    /** `markSel`: clears the highlight, then highlights the run. */
    method MarkSel(a: Pos, b: Pos)
      requires Valid()
      modifies this
      ensures Valid() && State() == old(State()).(sel := RunCells(a, b))
    {
      sel := {};
      var cells := CollectRun(a, b);
      sel := cells;
    }

    /** `commit(a, b)`. */
    method Commit(a: Pos, b: Pos)
      requires Valid() && InBounds(a) && InBounds(b)
      modifies this
      ensures Valid() && State() == CommitStep(old(State()), old(ReadSel(grid, a, b)), a, b)
    {
      var s := ReadSel(grid, a, b);
      if s == "" {
        return;
      }
      CommitValid(State(), s, a, b);
      var v := CommitOutcome(State(), s, a, b);
      active, found, words, labels, done, sel := v.active, v.found, v.words, v.labels, v.done, v.sel;
    }

    /** `mousedown` on `cell` with mouse button `button`. */
    method MouseDown(cell: Option<Pos>, button: int)
      requires Valid() && (cell.Some? ==> InBounds(cell.value))
      modifies this
      ensures Valid() && State() == DownStep(old(State()), cell, button)
    {
      if cell.None? {
        return;
      }
      if !(button == 0 || button == 2) {
        return;
      }
      down, start := true, cell;
      sel := {};
    }

    /** `mouseover` on `cell`. */
    method MouseOver(cell: Option<Pos>)
      requires Valid()
      modifies this
      ensures Valid() && State() == OverStep(old(State()), cell)
    {
      if !down || start.None? {
        return;
      }
      if cell.None? {
        return;
      }
      if Aligned(start.value, cell.value) {
        MarkSel(start.value, cell.value);
      }
    }

    /** `mouseup` on the window, over `cell`. */
    method MouseUp(cell: Option<Pos>)
      requires Valid() && (cell.Some? ==> InBounds(cell.value))
      modifies this
      ensures Valid() && State() == UpStep(grid, old(State()), cell)
    {
      if !down || start.None? {
        return;
      }
      down := false;
      if cell.None? {
        sel, start := {}, None;
        return;
      }
      if Aligned(start.value, cell.value) {
        Commit(start.value, cell.value);
      } else {
        sel := {};
      }
      start := None;
    }
  }
}

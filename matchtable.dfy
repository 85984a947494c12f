/** Task 5's `MatchTable` (src/pages/ugy1/index.jsx): four rows of (clue,
    source) that the player fills in, and `check`, which walks the rows in
    order and gives each one the first still unused entry of `ACCEPT` that takes
    both its normalised clue and its normalised source. */
module MatchTable {
  import opened Wrappers
  import opened JsText

  datatype Row = Row(text: string, src: string)

  /** The two columns `updateRow` can write. */
  datatype Field = Text | Src

  /** An accepted clue: the texts it takes, its source and optional other
      spellings of the source (`altSrc`, which no entry uses). */
  datatype Accept = Accept(texts: seq<string>, src: string, altSrc: Option<seq<string>>)

  /** The options of the source drop-down. */
  const SOURCES: seq<string> := ["Rejtjel", "Torzult rendszerlog", "Titkosított levél", "Kódolt betűk"]

  /** The accepted clues, already in normal form. */
  function AcceptTable(): seq<Accept> {
    [ Accept(["VIGYAZZZOLILEHETTITKOSUGYNOK"], "REJTJEL", None),
      Accept(["NYOMOK"], "TORZULTRENDSZERLOG", None),
      Accept(["3871"], "TITKOSITOTTLEVEL", None),
      Accept(["3542"], "KODOLTBETUK", None) ]
  }

  /** The table as first shown: four empty rows. */
  const INITIAL_ROWS: seq<Row> := [Row("", ""), Row("", ""), Row("", ""), Row("", "")]

  const MSG_OK: string := "Helyes! Minden párosítás stimmel."
  const MSG_WRONG: string := "Helytelen párosítás."

  /** The table's `norm`: accents stripped, everything but `[A-Za-z0-9]`
      removed, upper-cased. */
  function MatchNorm(s: string): (r: string)
    ensures forall i :: 0 <= i < |r| ==> IsUpper(r[i]) || IsDigit(r[i])
  {
    var f := Filter(IsAlnum, Fold(s));
    forall i | 0 <= i < |f| ensures IsUpper(UpperChar(f[i])) || IsDigit(UpperChar(f[i])) {
      assert IsAlnum(f[i]);
    }
    Upper(f)
  }

  /** The callback of `findIndex` without the `used` test: the entry takes the
      clue and the source. */
  predicate Accepts(a: Accept, t: string, s: string) {
    t in a.texts && (a.src == s || (a.altSrc.Some? && s in a.altSrc.value))
  }

  /** `ACCEPT.findIndex(...)` from position `k`: the first entry not in `used`
      that accepts `(t, s)`, or -1. */
  function FindFree(acc: seq<Accept>, used: set<int>, t: string, s: string, k: nat): (r: int)
    requires k <= |acc|
    ensures r == -1 || (k <= r < |acc| && r !in used && Accepts(acc[r], t, s))
    ensures r == -1 ==> forall i :: k <= i < |acc| && i !in used ==> !Accepts(acc[i], t, s)
    ensures r != -1 ==> forall i :: k <= i < r && i !in used ==> !Accepts(acc[i], t, s)
    decreases |acc| - k
  {
    if k == |acc| then -1
    else if k !in used && Accepts(acc[k], t, s) then k
    else FindFree(acc, used, t, s, k + 1)
  }

  /** The verdict of `check` on `rows`, given the indices already used. */
  function Greedy(acc: seq<Accept>, rows: seq<Row>, used: set<int>): bool
    decreases |rows|
  {
    if rows == [] then true
    else
      var m := FindFree(acc, used, MatchNorm(rows[0].text), MatchNorm(rows[0].src), 0);
      m != -1 && Greedy(acc, rows[1..], used + {m})
  }

  /** `check()`: the verdict and the message it shows. On success the table
      also calls `onDone` (see `Puzzle.TableDone`). */
  method Check(rows: seq<Row>) returns (ok: bool, msg: string)
    ensures ok == Greedy(AcceptTable(), rows, {})
    ensures msg == if ok then MSG_OK else MSG_WRONG
  {
    var acc := AcceptTable();
    var used: set<int> := {};
    var n := 0;
    while n < |rows|
      invariant 0 <= n <= |rows|
      invariant Greedy(acc, rows, {}) == Greedy(acc, rows[n..], used)
    {
      var t := MatchNorm(rows[n].text);
      var s := MatchNorm(rows[n].src);
      var matchIdx := FindFree(acc, used, t, s, 0);
      assert rows[n..][0] == rows[n] && rows[n..][1..] == rows[n + 1..];
      if matchIdx == -1 {
        ok, msg := false, MSG_WRONG;
        return;
      }
      used := used + {matchIdx};
      n := n + 1;
    }
    ok, msg := true, MSG_OK;
  }

  // ------------------------------------------------------ what check decides

  /** No clue and source is taken by two entries. */
  ghost predicate Unambiguous(acc: seq<Accept>) {
    forall i, j, t, s :: 0 <= i < j < |acc| && Accepts(acc[i], t, s) ==> !Accepts(acc[j], t, s)
  }

  lemma AcceptTableUnambiguous()
    ensures Unambiguous(AcceptTable())
  {
    var acc := AcceptTable();
    forall i, j, t, s | 0 <= i < j < |acc| && Accepts(acc[i], t, s) ensures !Accepts(acc[j], t, s) {
      assert t == acc[i].texts[0];
    }
  }

  /** The entry a row can take: the only one accepting its normalised clue and
      source, or -1. */
  function Slot(acc: seq<Accept>, r: Row): int {
    FindFree(acc, {}, MatchNorm(r.text), MatchNorm(r.src), 0)
  }

  /** In an unambiguous table two entries that accept the same pair are one. */
  lemma SameEntry(acc: seq<Accept>, a: int, b: int, t: string, s: string)
    requires Unambiguous(acc) && 0 <= a < |acc| && 0 <= b < |acc|
    requires Accepts(acc[a], t, s) && Accepts(acc[b], t, s)
    ensures a == b
  {
  }

  /** In an unambiguous table `findIndex` finds the row's slot unless it is used. */
  lemma FindFreeSlot(acc: seq<Accept>, used: set<int>, r: Row)
    requires Unambiguous(acc)
    ensures var m := Slot(acc, r);
      FindFree(acc, used, MatchNorm(r.text), MatchNorm(r.src), 0) == if m == -1 || m in used then -1 else m
  {
    var t, s := MatchNorm(r.text), MatchNorm(r.src);
    var m := Slot(acc, r);
    var f := FindFree(acc, used, t, s, 0);
    if f != -1 && m != -1 {
      SameEntry(acc, f, m, t, s);
    }
  }

  /** An entry that accepts the row's pair is the row's slot. */
  lemma SlotIs(acc: seq<Accept>, r: Row, k: int)
    requires Unambiguous(acc) && 0 <= k < |acc|
    requires Accepts(acc[k], MatchNorm(r.text), MatchNorm(r.src))
    ensures Slot(acc, r) == k
  {
    var m := Slot(acc, r);
    if m != -1 {
      SameEntry(acc, m, k, MatchNorm(r.text), MatchNorm(r.src));
    }
  }

  /** Every row has a slot, none of them used, and no two rows share one. */
  predicate Assignable(acc: seq<Accept>, rows: seq<Row>, used: set<int>) {
    && (forall i :: 0 <= i < |rows| ==> Slot(acc, rows[i]) != -1 && Slot(acc, rows[i]) !in used)
    && (forall i, j :: 0 <= i < j < |rows| ==> Slot(acc, rows[i]) != Slot(acc, rows[j]))
  }

  /** On an unambiguous table the greedy walk succeeds exactly when the rows can
      be given pairwise different entries: the order of the walk does not matter. */
  lemma {:induction false} GreedyAssignable(acc: seq<Accept>, rows: seq<Row>, used: set<int>)
    requires Unambiguous(acc)
    ensures Greedy(acc, rows, used) <==> Assignable(acc, rows, used)
  {
    if rows != [] {
      FindFreeSlot(acc, used, rows[0]);
      var m := Slot(acc, rows[0]);
      if m != -1 && m !in used {
        GreedyAssignable(acc, rows[1..], used + {m});
        AssignableFirst(acc, rows, used);
      }
    }
  }

  /** Once the first row has taken its slot, the rest must be assignable
      without it. */
  lemma AssignableFirst(acc: seq<Accept>, rows: seq<Row>, used: set<int>)
    requires rows != [] && Slot(acc, rows[0]) != -1 && Slot(acc, rows[0]) !in used
    ensures Assignable(acc, rows, used) <==> Assignable(acc, rows[1..], used + {Slot(acc, rows[0])})
  {
    var m := Slot(acc, rows[0]);
    var rest := rows[1..];
    assert forall i :: 1 <= i < |rows| ==> rows[i] == rest[i - 1];
    if Assignable(acc, rest, used + {m}) {
      forall i, j | 0 <= i < j < |rows| ensures Slot(acc, rows[i]) != Slot(acc, rows[j]) {
        if i > 0 {
          assert rows[i] == rest[i - 1] && rows[j] == rest[j - 1];
        } else {
          assert rows[j] == rest[j - 1];
        }
      }
    }
    if Assignable(acc, rows, used) {
      forall i | 0 <= i < |rest| ensures Slot(acc, rest[i]) != -1 && Slot(acc, rest[i]) !in used + {m} {
        assert rest[i] == rows[i + 1];
      }
      forall i, j | 0 <= i < j < |rest| ensures Slot(acc, rest[i]) != Slot(acc, rest[j]) {
        assert rest[i] == rows[i + 1] && rest[j] == rows[j + 1];
      }
    }
  }

  /** `check` accepts exactly the tables whose rows take pairwise different
      accepted entries. */
  lemma CheckIff(rows: seq<Row>)
    ensures Greedy(AcceptTable(), rows, {}) <==> Assignable(AcceptTable(), rows, {})
  {
    AcceptTableUnambiguous();
    GreedyAssignable(AcceptTable(), rows, {});
  }

  lemma AssignablePasses(rows: seq<Row>)
    requires Assignable(AcceptTable(), rows, {})
    ensures Greedy(AcceptTable(), rows, {})
  {
    CheckIff(rows);
  }

  lemma PassesAssignable(rows: seq<Row>)
    requires Greedy(AcceptTable(), rows, {})
    ensures Assignable(AcceptTable(), rows, {})
  {
    CheckIff(rows);
  }

  /** Two rows with the same normalised clue and source never both pass. */
  lemma DuplicateRowFails(rows: seq<Row>, i: nat, j: nat)
    requires i < j < |rows|
    requires MatchNorm(rows[i].text) == MatchNorm(rows[j].text) && MatchNorm(rows[i].src) == MatchNorm(rows[j].src)
    ensures !Greedy(AcceptTable(), rows, {})
  {
    CheckIff(rows);
  }

  /** The position row `k` moves to when rows `i` and `j` are exchanged. */
  function Swapped(k: int, i: int, j: int): int {
    if k == i then j else if k == j then i else k
  }

  /** A passing table still passes after two of its rows are exchanged. */
  lemma SwapPasses(rows: seq<Row>, i: nat, j: nat)
    requires i < |rows| && j < |rows|
    requires Greedy(AcceptTable(), rows, {})
    ensures Greedy(AcceptTable(), rows[i := rows[j]][j := rows[i]], {})
  {
    PassesAssignable(rows);
    SwapAssignable(AcceptTable(), rows, i, j);
    AssignablePasses(rows[i := rows[j]][j := rows[i]]);
  }

  /** Exchanging two rows twice gives the rows back. */
  lemma SwapTwice(rows: seq<Row>, i: nat, j: nat)
    requires i < |rows| && j < |rows|
    ensures var swapped := rows[i := rows[j]][j := rows[i]];
      swapped[i := swapped[j]][j := swapped[i]] == rows
  {
  }

  /** Exchanging two rows does not change the verdict. */
  lemma SwapRows(rows: seq<Row>, i: nat, j: nat)
    requires i < |rows| && j < |rows|
    ensures Greedy(AcceptTable(), rows, {}) == Greedy(AcceptTable(), rows[i := rows[j]][j := rows[i]], {})
  {
    var swapped := rows[i := rows[j]][j := rows[i]];
    if Greedy(AcceptTable(), rows, {}) {
      SwapPasses(rows, i, j);
    }
    if Greedy(AcceptTable(), swapped, {}) {
      SwapPasses(swapped, i, j);
      SwapTwice(rows, i, j);
    }
  }

  lemma SwapAssignable(acc: seq<Accept>, rows: seq<Row>, i: nat, j: nat)
    requires i < |rows| && j < |rows|
    requires Assignable(acc, rows, {})
    ensures Assignable(acc, rows[i := rows[j]][j := rows[i]], {})
  {
    var swapped := rows[i := rows[j]][j := rows[i]];
    assert forall k :: 0 <= k < |rows| ==> swapped[k] == rows[Swapped(k, i, j)];
    forall a, b | 0 <= a < b < |swapped| ensures Slot(acc, swapped[a]) != Slot(acc, swapped[b]) {
      DistinctAt(acc, rows, Swapped(a, i, j), Swapped(b, i, j));
    }
  }

  /** The pairwise condition of `Assignable`, for any two different positions. */
  lemma DistinctAt(acc: seq<Accept>, rows: seq<Row>, a: int, b: int)
    requires Assignable(acc, rows, {})
    requires 0 <= a < |rows| && 0 <= b < |rows| && a != b
    ensures Slot(acc, rows[a]) != Slot(acc, rows[b])
  {
    if a > b {
      assert Slot(acc, rows[b]) != Slot(acc, rows[a]);
    }
  }

  /** The four correct rows pass in any order: if row `i` carries entry
      `perm[i]`'s clue and source and `perm` lists each entry once, `check`
      succeeds. */
  lemma AnyOrderPasses(rows: seq<Row>, perm: seq<int>)
    requires |rows| == |perm| == |AcceptTable()|
    requires forall i :: 0 <= i < |perm| ==> 0 <= perm[i] < |AcceptTable()|
    requires forall i, j :: 0 <= i < j < |perm| ==> perm[i] != perm[j]
    requires forall i :: 0 <= i < |rows| ==>
      MatchNorm(rows[i].text) == AcceptTable()[perm[i]].texts[0] && MatchNorm(rows[i].src) == AcceptTable()[perm[i]].src
    ensures Greedy(AcceptTable(), rows, {})
  {
    PermutationAssignable(rows, perm);
    AssignablePasses(rows);
  }

  /** Rows carrying the entries listed by `perm` take pairwise different slots. */
  lemma PermutationAssignable(rows: seq<Row>, perm: seq<int>)
    requires |rows| == |perm| == |AcceptTable()|
    requires forall i :: 0 <= i < |perm| ==> 0 <= perm[i] < |AcceptTable()|
    requires forall i, j :: 0 <= i < j < |perm| ==> perm[i] != perm[j]
    requires forall i :: 0 <= i < |rows| ==>
      MatchNorm(rows[i].text) == AcceptTable()[perm[i]].texts[0] && MatchNorm(rows[i].src) == AcceptTable()[perm[i]].src
    ensures Assignable(AcceptTable(), rows, {})
  {
    var acc := AcceptTable();
    AcceptTableUnambiguous();
    forall i | 0 <= i < |rows| ensures Slot(acc, rows[i]) == perm[i] {
      SlotIs(acc, rows[i], perm[i]);
    }
  }

  /** A row's slot, when it has one, is an entry that accepts it. */
  lemma SlotAccepts(r: Row)
    ensures var k := Slot(AcceptTable(), r);
      k != -1 ==> 0 <= k < |AcceptTable()| && Accepts(AcceptTable()[k], MatchNorm(r.text), MatchNorm(r.src))
  {
  }

  /** Every row of a passing table matches an accepted entry. */
  lemma PassingRowsAccepted(rows: seq<Row>, i: nat)
    requires Greedy(AcceptTable(), rows, {}) && i < |rows|
    ensures exists k :: 0 <= k < |AcceptTable()| && Accepts(AcceptTable()[k], MatchNorm(rows[i].text), MatchNorm(rows[i].src))
  {
    PassesAssignable(rows);
    SlotAccepts(rows[i]);
  }

  // ------------------------------------------------------------ updateRow

  /** `updateRow(i, field, val)`: a copy of the rows with one field of row `i`
      replaced. */
  function UpdateRow(rows: seq<Row>, i: nat, field: Field, val: string): (r: seq<Row>)
    requires i < |rows|
    ensures |r| == |rows|
    ensures forall j :: 0 <= j < |rows| && j != i ==> r[j] == rows[j]
    ensures field == Text ==> r[i].text == val && r[i].src == rows[i].src
    ensures field == Src ==> r[i].src == val && r[i].text == rows[i].text
  {
    rows[i := if field == Text then rows[i].(text := val) else rows[i].(src := val)]
  }

  /** Edits of different cells commute. */
  lemma UpdateRowCommutes(rows: seq<Row>, i: nat, f: Field, x: string, j: nat, g: Field, y: string)
    requires i < |rows| && j < |rows| && (i != j || f != g)
    ensures UpdateRow(UpdateRow(rows, i, f, x), j, g, y) == UpdateRow(UpdateRow(rows, j, g, y), i, f, x)
  {
  }

  /** A later edit of the same cell overwrites an earlier one. */
  lemma UpdateRowOverwrites(rows: seq<Row>, i: nat, f: Field, x: string, y: string)
    requires i < |rows|
    ensures UpdateRow(UpdateRow(rows, i, f, x), i, f, y) == UpdateRow(rows, i, f, y)
  {
  }

  /** The empty starting table does not pass. */
  lemma InitialFails()
    ensures !Greedy(AcceptTable(), INITIAL_ROWS, {})
  {
    CheckIff(INITIAL_ROWS);
    DuplicateRowFails(INITIAL_ROWS, 0, 1);
  }
}

/** How two parts of the first case fit together: the digits the
    word-search archive shows are the code that the fourth task card
    accepts. */
module Solution {
  import opened ChallengeInput
  import Puzzle
  import opened WordSearch

  /** The archive's cells at the four word starts, read in list order. */
  function ArchiveCode(rand: (int, int) -> Draw): string {
    CellText(ArchiveCell(rand, RunStart(0))) + CellText(ArchiveCell(rand, RunStart(1)))
      + CellText(ArchiveCell(rand, RunStart(2))) + CellText(ArchiveCell(rand, RunStart(3)))
  }

  /** Whatever letters fill the board, the archive code is "3542". */
  lemma ArchiveCodeIs(rand: (int, int) -> Draw)
    ensures ArchiveCode(rand) == "3542"
  {
    ArchiveDigits(rand, 0);
    ArchiveDigits(rand, 1);
    ArchiveDigits(rand, 2);
    ArchiveDigits(rand, 3);
    assert CellText(Glyph('3')) + CellText(Glyph('5')) + CellText(Glyph('4')) + CellText(Glyph('2')) == "3542";
  }

  /** Task card 4 accepts the code. */
  lemma Task4Accepts(a: Puzzle.App, code: string)
    requires Puzzle.Valid(a) && code == "3542"
    ensures Puzzle.Answer(a, 3, code).0 == StatusOk
  {
    Puzzle.CodesAccepted();
  }

  /** Typing the archive code into task card 4 is accepted. */
  lemma ArchiveCodeSolvesTask4(rand: (int, int) -> Draw, a: Puzzle.App)
    requires Puzzle.Valid(a)
    ensures Puzzle.Answer(a, 3, ArchiveCode(rand)).0 == StatusOk
  {
    ArchiveCodeIs(rand);
    Task4Accepts(a, ArchiveCode(rand));
  }
}

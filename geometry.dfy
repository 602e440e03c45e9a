/** Where the draw loop of `eval_opcode` puts sprite pixels: row `row` and
    column `c` of a sprite drawn at nibble X land on one screen cell, and
    that cell determines the row and the column again. So within one draw
    no cell is toggled twice. */
module Geometry {
  import opened Semantics

  /** The cell of row `row`, column `c` lies on the screen, in screen row
      `row`, and `SpriteColumn` recovers `c` from it. */
  lemma DrawCellInverse(x: nat, row: nat, c: nat)
    requires x < 16 && row < ScreenHeight && c < 8
    ensures DrawCell(x, row, c) < ScreenSize
    ensures DrawCell(x, row, c) / ScreenWidth == row
    ensures SpriteColumn(x, DrawCell(x, row, c)) == c
  {
    var q := DrawCell(x, row, c);
    var col := (2 * x + c) % 64;
    assert q == row * 64 + col;
    assert q / 64 == row && q % 64 == col;
    assert (col - 2 * x) % 64 == c by {
      var t := (2 * x + c) / 64;
      assert col == 2 * x + c - 64 * t;
      assert col - 2 * x == c + 64 * (-t);
    }
  }

  /** A cell in screen row `row` that `SpriteColumn` assigns to column `c`
      is the cell the loop toggles for that row and column. */
  lemma DrawCellUnique(x: nat, row: nat, c: nat, p: nat)
    requires x < 16 && row < ScreenHeight && c < 8 && p < ScreenSize
    requires p / ScreenWidth == row && SpriteColumn(x, p) == c
    ensures p == DrawCell(x, row, c)
  {
    var col := p % 64;
    assert p == row * 64 + col;
    var t := (col - 2 * x) / 64;
    assert col - 2 * x == 64 * t + c;
    assert col == (2 * x + c) % 64 by {
      assert 2 * x + c == col + 64 * (-t);
    }
  }

  /** No cell is toggled twice in one draw: distinct (row, column) pairs
      give distinct cells. */
  lemma DrawCellInjective(x: nat, r1: nat, c1: nat, r2: nat, c2: nat)
    requires x < 16 && r1 < ScreenHeight && r2 < ScreenHeight && c1 < 8 && c2 < 8
    requires DrawCell(x, r1, c1) == DrawCell(x, r2, c2)
    ensures r1 == r2 && c1 == c2
  {
    DrawCellInverse(x, r1, c1);
    DrawCellInverse(x, r2, c2);
  }
}

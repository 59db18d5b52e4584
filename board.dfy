/**
 * Board geometry and the piece record of the Fianco game: a 9x9 grid of
 * 60-pixel tiles drawn at an 80/50 pixel offset, and pieces that carry their
 * own grid square and the pixel centre derived from it.
 */
module Board {
  import opened Wrappers

  const BoardSize: int := 9
  const TileSize: int := 60
  const BoardOffsetX: int := 80
  const BoardOffsetY: int := 50
  const ScoreboardWidth: int := 200
  const Width: int := BoardOffsetX * 2 + BoardSize * TileSize + ScoreboardWidth
  const Height: int := BoardOffsetY * 2 + BoardSize * TileSize + 70
  const Fps: int := 60

  /** Pixel position given to a piece that is off the board. */
  const OffBoardPixel: (int, int) := (-100, -100)

  type Color = (int, int, int)
  const White: Color := (255, 255, 255)
  const Black: Color := (0, 0, 0)

  /** The two sides; Player1 plays White and moves down the rows, Player2 plays Black. */
  datatype Player = Player1 | Player2 {
    function Other(): Player {
      if this == Player1 then Player2 else Player1
    }
  }

  /**
   * Pixel centre of a piece standing on (row, col); a piece whose row or
   * column is absent is parked at OffBoardPixel.
   */
  function Center(row: Option<int>, col: Option<int>): (int, int) {
    if row.Some? && col.Some? then
      (BoardOffsetX + col.value * TileSize + TileSize / 2,
       BoardOffsetY + row.value * TileSize + TileSize / 2)
    else OffBoardPixel
  }

  /** The window is 900 by 710 pixels. */
  lemma WindowSize()
    ensures Width == 900 && Height == 710
  {
  }

  /** The centre of every square of the grid lies strictly inside its own tile. */
  lemma CenterInsideTile(row: int, col: int)
    ensures var (x, y) := Center(Some(row), Some(col));
      && BoardOffsetX + col * TileSize < x < BoardOffsetX + (col + 1) * TileSize
      && BoardOffsetY + row * TileSize < y < BoardOffsetY + (row + 1) * TileSize
  {
  }

  /** A piece: its square (absent once the piece is captured), owner, colour and pixel centre. */
  class Piece {
    var row: Option<int>
    var col: Option<int>
    const color: Color
    const owner: Player
    var x: int
    var y: int

    /** The pixel centre agrees with the square. */
    ghost predicate Placed()
      reads this
    {
      (x, y) == Center(row, col)
    }

    constructor (row: Option<int>, col: Option<int>, color: Color, owner: Player)
      ensures this.row == row && this.col == col
      ensures this.color == color && this.owner == owner
      ensures Placed()
    {
      this.row := row;
      this.col := col;
      this.color := color;
      this.owner := owner;
      new;
      ResetPosition();
    }

    /** Recomputes the pixel centre from the square. */
    method ResetPosition()
      modifies this`x, this`y
      ensures Placed()
      ensures row.Some? && col.Some? ==>
        x == BoardOffsetX + col.value * TileSize + TileSize / 2 &&
        y == BoardOffsetY + row.value * TileSize + TileSize / 2
      ensures row.None? || col.None? ==> (x, y) == OffBoardPixel
    {
      if row.Some? && col.Some? {
        x := BoardOffsetX + col.value * TileSize + TileSize / 2;
        y := BoardOffsetY + row.value * TileSize + TileSize / 2;
      } else {
        x, y := -100, -100;
      }
    }
  }
}

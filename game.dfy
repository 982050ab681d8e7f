/**
 * The two helpers of main.go that the game loop uses: whether a requested
 * move is one of the piece's generated squares, and whose turn is next.
 */
module Game {
  import opened Grid
  import opened Pieces

  /** A move is legal when its destination is among the squares the piece's generator yields. */
  predicate MoveLegal(b: Board, p: Occupant, fromSquare: Square, toSquare: Square)
    requires ValidBoard(b) && ValidSquare(fromSquare) && p.Piece?
  {
    toSquare in LegalSquares(b, fromSquare, p)
  }

  /** isMoveLegal: a linear search of the generated squares, comparing rank and file. */
  method IsMoveLegal(b: Board, p: Occupant, fromSquare: Square, toSquare: Square) returns (legal: bool)
    requires ValidBoard(b) && ValidSquare(fromSquare) && p.Piece?
    ensures legal <==> MoveLegal(b, p, fromSquare, toSquare)
    ensures LegalSquares(b, fromSquare, p) == [] ==> !legal
  {
    var legalSquares := GetLegalSquares(b, fromSquare, p);
    legal := Includes(legalSquares, toSquare);
  }

  /**
   * A legal move lands on the board, away from its origin, on an empty
   * square or on a piece of the other colour (only a rook ever captures).
   */
  lemma LegalMoveShape(b: Board, p: Occupant, fromSquare: Square, toSquare: Square)
    requires ValidBoard(b) && ValidSquare(fromSquare) && p.Piece?
    requires MoveLegal(b, p, fromSquare, toSquare)
    ensures ValidSquare(toSquare) && toSquare != fromSquare
    ensures IsSquareEmpty(b, toSquare) || (At(b, toSquare).color != p.color && p.kind == Rook)
  {
    LegalSquaresShape(b, fromSquare, p);
  }

  /** Knights, bishops, queens and kings have no legal move at all. */
  lemma OnlyPawnsAndRooksHaveLegalMoves(b: Board, p: Occupant, fromSquare: Square, toSquare: Square)
    requires ValidBoard(b) && ValidSquare(fromSquare) && p.Piece?
    requires MoveLegal(b, p, fromSquare, toSquare)
    ensures p.kind == Pawn || p.kind == Rook
  {
    if p.kind != Pawn && p.kind != Rook {
      OnlyPawnsAndRooksMove(b, fromSquare, p);
    }
  }

  /** switchColor on the colour strings: "W" becomes "B", anything else becomes "W". */
  function SwitchColor(color: string): (r: string)
    ensures r == "W" || r == "B"
    ensures r == "B" <==> color == "W"
  {
    if color == "W" then "B" else "W"
  }

  /** On the two colour strings the switch is the opposite colour. */
  lemma SwitchColorIsOpposite(c: Color)
    ensures SwitchColor(ColorName(c)) == ColorName(Opposite(c))
  {
  }

  /** Switching twice gives back either colour string. */
  lemma SwitchColorInvolution(color: string)
    requires color == "W" || color == "B"
    ensures SwitchColor(SwitchColor(color)) == color
  {
  }
}

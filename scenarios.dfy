/**
 * Concrete positions from the repository's own test files, worked out on the
 * model: move counts of pawns and rooks, and the check test on the starting
 * position.
 */
module Scenarios {
  import opened Grid
  import opened Pieces
  import opened Position
  import opened Check

  /** After the white rook moves from A1 to B4 of the starting position. */
  function RookOnB4(): (b: Board)
    ensures ValidBoard(b)
  {
    MoveF(InitialBoard(), Square('A', 1), Square('B', 4))
  }

  /** A ray over empty squares only yields every one of them. */
  lemma OpenRay(b: Board, sq: Square, color: Color, ray: Ray)
    requires ValidBoard(b) && ValidSquare(sq)
    requires forall k :: 1 <= k <= RayLength(sq, ray) ==> IsSquareEmpty(b, RayStep(sq, ray, k))
    ensures RaySquares(b, sq, color, ray) == RayPath(sq, ray)
  {
    var path := RayPath(sq, ray);
    forall j | 0 <= j < |path| ensures IsSquareEmpty(b, path[j]) {
      assert path[j] == RayStep(sq, ray, j + 1);
    }
    ScanThrough(b, path, color, |path|);
    assert path[..|path|] == path;
  }

  /** Above B4: B5 and B6 are empty and B7 holds a black pawn, which is taken. */
  lemma RookOnB4Up()
    ensures RaySquares(RookOnB4(), Square('B', 4), White, Up) == [Square('B', 5), Square('B', 6), Square('B', 7)]
    ensures At(RookOnB4(), Square('B', 7)) == Piece(Black, Pawn, false)
  {
    var b := RookOnB4();
    MoveSimple(InitialBoard(), Square('A', 1), Square('B', 4));
    ScanStopsAt(b, RayPath(Square('B', 4), Up), White, 2);
  }

  /** Below B4: B3 is empty and the white pawn on B2 stops the ray. */
  lemma RookOnB4Down()
    ensures RaySquares(RookOnB4(), Square('B', 4), White, Down) == [Square('B', 3)]
    ensures At(RookOnB4(), Square('B', 2)) == Piece(White, Pawn, false)
  {
    var b := RookOnB4();
    MoveSimple(InitialBoard(), Square('A', 1), Square('B', 4));
    ScanStopsAt(b, RayPath(Square('B', 4), Down), White, 1);
  }

  /** Along rank 4 every square is empty: six to the right, one to the left. */
  lemma RookOnB4Rank()
    ensures RaySquares(RookOnB4(), Square('B', 4), White, Right) == RayPath(Square('B', 4), Right)
    ensures RaySquares(RookOnB4(), Square('B', 4), White, Left) == RayPath(Square('B', 4), Left)
    ensures |RayPath(Square('B', 4), Right)| == 6 && |RayPath(Square('B', 4), Left)| == 1
  {
    MoveSimple(InitialBoard(), Square('A', 1), Square('B', 4));
    OpenRay(RookOnB4(), Square('B', 4), White, Right);
    OpenRay(RookOnB4(), Square('B', 4), White, Left);
  }

  /**
   * A white rook on B4 of the starting position has 11 squares: B5, B6 and the
   * black pawn on B7 above, B3 below, C4 to H4 to the right and A4 to the left.
   */
  lemma RookOnB4Squares()
    ensures |RookSquares(RookOnB4(), Square('B', 4), White)| == 11
  {
    RookOnB4Up();
    RookOnB4Down();
    RookOnB4Rank();
  }

  /** After the black pawn moves from H7 to H5 of the starting position. */
  function PawnOnH5(): (b: Board)
    ensures ValidBoard(b)
  {
    MoveF(InitialBoard(), Square('H', 7), Square('H', 5))
  }

  /** The black rook on H8 then has H7 and H6, and is stopped by its own pawn on H5. */
  lemma RookOnH8Squares()
    ensures RookSquares(PawnOnH5(), Square('H', 8), Black) == [Square('H', 7), Square('H', 6)]
  {
    var b := PawnOnH5();
    var sq := Square('H', 8);
    MoveSimple(InitialBoard(), Square('H', 7), Square('H', 5));
    var down := RayPath(sq, Down);
    ScanStopsAt(b, down, Black, 2);
    ScanStopsAt(b, RayPath(sq, Left), Black, 0);
  }

  /**
   * A corner rook of the starting position: its vertical ray v starts on its
   * own pawn, its horizontal ray h on its own knight, and the other two rays
   * leave the board at once.
   */
  lemma CornerRookBoxedIn(sq: Square, color: Color, v: Ray, h: Ray)
    requires || (sq, color, v, h) == (Square('A', 1), White, Up, Right)
             || (sq, color, v, h) == (Square('H', 1), White, Up, Left)
             || (sq, color, v, h) == (Square('A', 8), Black, Down, Right)
             || (sq, color, v, h) == (Square('H', 8), Black, Down, Left)
    ensures RookSquares(InitialBoard(), sq, color) == []
  {
    var b := InitialBoard();
    ScanStopsAt(b, RayPath(sq, v), color, 0);
    ScanStopsAt(b, RayPath(sq, h), color, 0);
  }

  /** In the starting position the four rooks on the corners have no squares. */
  lemma CornerRooksBoxedIn()
    ensures RookSquares(InitialBoard(), Square('A', 1), White) == []
    ensures RookSquares(InitialBoard(), Square('H', 1), White) == []
    ensures RookSquares(InitialBoard(), Square('A', 8), Black) == []
    ensures RookSquares(InitialBoard(), Square('H', 8), Black) == []
  {
    CornerRookBoxedIn(Square('A', 1), White, Up, Right);
    CornerRookBoxedIn(Square('H', 1), White, Up, Left);
    CornerRookBoxedIn(Square('A', 8), Black, Down, Right);
    CornerRookBoxedIn(Square('H', 8), Black, Down, Left);
  }

  /**
   * The pawn counts of the starting position: a pawn on its second rank has
   * two squares, one a rank further on has one.
   */
  lemma PawnCounts()
    ensures |PawnSquares(InitialBoard(), Square('E', 2), White)| == 2
    ensures |PawnSquares(InitialBoard(), Square('E', 3), White)| == 1
    ensures |PawnSquares(InitialBoard(), Square('E', 7), Black)| == 2
    ensures |PawnSquares(InitialBoard(), Square('E', 6), Black)| == 1
  {
  }

  /** With a black pawn moved from E7 to E3, the white pawn on E2 cannot move. */
  lemma BlockedPawn()
    ensures PawnSquares(MoveF(InitialBoard(), Square('E', 7), Square('E', 3)), Square('E', 2), White) == []
  {
    MoveSimple(InitialBoard(), Square('E', 7), Square('E', 3));
  }

  /** The rooks of the starting position stand on the corners: white on rank 1, black on rank 8. */
  lemma InitialRooks(s: Square)
    requires ValidSquare(s) && At(InitialBoard(), s).Piece? && At(InitialBoard(), s).kind == Rook
    ensures At(InitialBoard(), s).color == White ==> s == Square('A', 1) || s == Square('H', 1)
    ensures At(InitialBoard(), s).color == Black ==> s == Square('A', 8) || s == Square('H', 8)
  {
  }

  /** Neither king is in check in the starting position. */
  lemma InitialNotInCheck(color: Color)
    ensures !InCheck(InitialBoard(), color)
  {
    var b := InitialBoard();
    if InCheck(b, color) {
      CheckersAreRooks(b, color);
      var k := KingSquareOrNone(b, color);
      var s := CheckingSquares(b, color)[0];
      assert s in CheckingSquares(b, color);
      AttackersIff(b, k, color, s);
      CellSquareOfIndex(s);
      InitialRooks(s);
      CornerRooksBoxedIn();
    }
  }
}

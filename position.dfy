/**
 * Setting up and changing the board of board.go: the initial position, the
 * relocation of a piece, and the rook relocation when a king moves two files.
 * The functions here give each in-place operation its value; the class
 * ChessBoard performs them on an 8x8 array as the source does.
 */
module Position {
  import opened Grid
  import opened Pieces

  /** The board with one cell replaced. */
  function SetCell(b: Board, row: int, col: int, o: Occupant): (r: Board)
    requires ValidBoard(b) && 0 <= row < BoardSize && 0 <= col < BoardSize
    ensures ValidBoard(r)
    ensures forall i, j :: 0 <= i < BoardSize && 0 <= j < BoardSize ==>
      r[i][j] == if i == row && j == col then o else b[i][j]
  {
    b[row := b[row][col := o]]
  }

  /** initPieces: the back rank of one colour, rook to rook, none of them moved. */
  function BackRank(color: Color): (r: seq<Occupant>)
    ensures |r| == BoardSize
    ensures forall j :: 0 <= j < BoardSize ==> r[j].Piece? && r[j].color == color && !r[j].moved
    ensures r[4].kind == King && forall j :: 0 <= j < BoardSize && j != 4 ==> r[j].kind != King
  {
    [Piece(color, Rook, false), Piece(color, Knight, false), Piece(color, Bishop, false), Piece(color, Queen, false),
     Piece(color, King, false), Piece(color, Bishop, false), Piece(color, Knight, false), Piece(color, Rook, false)]
  }

  /** initPawns: a full rank of unmoved pawns of one colour. */
  function PawnRank(color: Color): (r: seq<Occupant>)
    ensures |r| == BoardSize
    ensures forall j :: 0 <= j < BoardSize ==> r[j] == Piece(color, Pawn, false)
  {
    seq(BoardSize, _ => Piece(color, Pawn, false))
  }

  function EmptyRank(): (r: seq<Occupant>)
    ensures |r| == BoardSize && forall j :: 0 <= j < BoardSize ==> r[j] == Empty
  {
    seq(BoardSize, _ => Empty)
  }

  /** The starting position: black on rows 0 and 1 (ranks 8 and 7), white on rows 6 and 7 (ranks 2 and 1). */
  function InitialBoard(): (b: Board)
    ensures ValidBoard(b)
  {
    [BackRank(Black), PawnRank(Black), EmptyRank(), EmptyRank(),
     EmptyRank(), EmptyRank(), PawnRank(White), BackRank(White)]
  }

  /** A piece that is a king; the empty occupant is none. */
  predicate IsKing(o: Occupant) {
    o.Piece? && Name(o.kind) == "K"
  }

  /** isCastling: a king that moves exactly two columns. */
  predicate IsCastling(piece: Occupant, fromCol: int, toCol: int) {
    IsKing(piece) && Abs(fromCol - toCol) == 2
  }

  /** The corner column moveCastledRook takes the rook from. */
  function CornerCol(kingCol: int): (c: int) {
    if kingCol > BoardSize / 2 then BoardSize - 1 else 0
  }

  /** The column moveCastledRook puts the rook on: beside the king, on the corner's side. */
  function RookTargetCol(kingCol: int): (c: int) {
    if kingCol > BoardSize / 2 then kingCol - 1 else kingCol + 1
  }

  /**
   * Termination measure of the move / castled-rook recursion: moving out of a
   * corner column ranks lowest, a king in a corner column next, the rest
   * highest. A castling move never starts another castling move from the
   * square it leaves empty.
   */
  function MoveRank(b: Board, from: Square): (m: int)
    requires ValidBoard(b) && ValidSquare(from)
  {
    var (row, col) := RowColForSquare(from);
    if col == 0 || col == BoardSize - 1 then (if IsKing(b[row][col]) then 1 else 0) else 2
  }

  function CornerKing(b: Board, row: int, kingCol: int): (k: int)
    requires ValidBoard(b) && 0 <= row < BoardSize
  {
    if IsKing(b[row][CornerCol(kingCol)]) then 1 else 0
  }

  /**
   * movePiece as a value: the occupant of from is written to to, from is
   * emptied, and a castling king then has its rook moved. The moved flag of
   * the stored occupant is left as it was.
   */
  function MoveF(b: Board, from: Square, to: Square): (r: Board)
    requires ValidBoard(b) && ValidSquare(from) && ValidSquare(to)
    ensures ValidBoard(r)
    decreases MoveRank(b, from), 1
  {
    var (fromRow, fromCol) := RowColForSquare(from);
    var (toRow, toCol) := RowColForSquare(to);
    var piece := b[fromRow][fromCol];
    var relocated := SetCell(SetCell(b, toRow, toCol, piece), fromRow, fromCol, Empty);
    if IsCastling(piece, fromCol, toCol) then RookMoveF(relocated, fromRow, toCol)
    else relocated
  }

  /** moveCastledRook as a value: the corner occupant of the row moves beside the king. */
  function RookMoveF(b: Board, row: int, kingCol: int): (r: Board)
    requires ValidBoard(b) && 0 <= row < BoardSize && 0 <= kingCol < BoardSize
    ensures ValidBoard(r)
    decreases 1 + CornerKing(b, row, kingCol), 0
  {
    var currentSquare := Square(ToFile(CornerCol(kingCol)), BoardSize - row);
    var newSquare := Square(ToFile(RookTargetCol(kingCol)), BoardSize - row);
    MoveF(b, currentSquare, newSquare)
  }

  /**
   * A move that is not a castling: to gets the occupant of from, moved flag
   * included, from becomes empty, and no other cell changes.
   */
  lemma MoveSimple(b: Board, from: Square, to: Square)
    requires ValidBoard(b) && ValidSquare(from) && ValidSquare(to) && from != to
    requires !IsCastling(At(b, from), FromFile(from.file), FromFile(to.file))
    ensures var r := MoveF(b, from, to);
      && At(r, to) == At(b, from)
      && At(r, from) == Empty
      && forall i, j ::
           (0 <= i < BoardSize && 0 <= j < BoardSize
            && (i, j) != RowColForSquare(from) && (i, j) != RowColForSquare(to)) ==> r[i][j] == b[i][j]
  {
    SquareRoundTrip(from);
    SquareRoundTrip(to);
  }

  /** Moving a piece onto its own square empties that square and changes nothing else. */
  lemma MoveOntoItself(b: Board, sq: Square)
    requires ValidBoard(b) && ValidSquare(sq)
    ensures MoveF(b, sq, sq) == SetCell(b, BoardSize - sq.rank, FromFile(sq.file), Empty)
  {
    var r := MoveF(b, sq, sq);
    var e := SetCell(b, BoardSize - sq.rank, FromFile(sq.file), Empty);
    assert |r| == |e|;
    forall i | 0 <= i < BoardSize ensures r[i] == e[i] {
      assert |r[i]| == |e[i]|;
    }
  }

  /**
   * A king moving two columns, on its row or onto another, takes the corner
   * occupant of the row it starts on with it: from column 7 to the column left
   * of the king's new column when that is right of column 4, else from column
   * 0 to the column right of it. Every other cell keeps its occupant. The king
   * must not start in that corner column or land on that corner, and the
   * corner must not hold a king, or the rook move is of another kind.
   */
  lemma MoveCastles(b: Board, from: Square, to: Square)
    requires ValidBoard(b) && ValidSquare(from) && ValidSquare(to)
    requires IsCastling(At(b, from), FromFile(from.file), FromFile(to.file))
    requires var (row, fromCol) := RowColForSquare(from);
      var (toRow, toCol) := RowColForSquare(to);
      && CornerCol(toCol) != fromCol && (toRow, toCol) != (row, CornerCol(toCol))
      && !IsKing(b[row][CornerCol(toCol)])
    ensures var (row, fromCol) := RowColForSquare(from);
      var (toRow, toCol) := RowColForSquare(to);
      var cc, rc := CornerCol(toCol), RookTargetCol(toCol);
      var r := MoveF(b, from, to);
      && r[toRow][toCol] == b[row][fromCol]
      && r[row][fromCol] == Empty
      && r[row][rc] == b[row][cc]
      && r[row][cc] == Empty
      && forall i, j ::
           (0 <= i < BoardSize && 0 <= j < BoardSize
            && (i, j) != (row, fromCol) && (i, j) != (toRow, toCol)
            && (i, j) != (row, cc) && (i, j) != (row, rc)) ==> r[i][j] == b[i][j]
  {
    var (row, fromCol) := RowColForSquare(from);
    var (toRow, toCol) := RowColForSquare(to);
    var relocated := SetCell(SetCell(b, toRow, toCol, b[row][fromCol]), row, fromCol, Empty);
    assert MoveF(b, from, to) == RookMoveF(relocated, row, toCol);
    var cc, rc := CornerCol(toCol), RookTargetCol(toCol);
    var corner := Square(ToFile(cc), BoardSize - row);
    var target := Square(ToFile(rc), BoardSize - row);
    assert RookMoveF(relocated, row, toCol) == MoveF(relocated, corner, target);
    assert RowColForSquare(corner) == (row, cc);
    assert RowColForSquare(target) == (row, rc);
    assert !IsCastling(relocated[row][cc], cc, rc);
  }

  /** Castling onto another rank still moves the rook of the starting rank: E1 to G2 takes the H1 rook to F1. */
  lemma CastleOffRank(b: Board)
    requires ValidBoard(b) && b[7][4] == Piece(White, King, false) && b[7][7] == Piece(White, Rook, false)
    requires b[6][6] == Empty && b[7][5] == Empty
    ensures var r := MoveF(b, Square('E', 1), Square('G', 2));
      r[6][6] == Piece(White, King, false) && r[7][5] == Piece(White, Rook, false)
      && r[7][4] == Empty && r[7][7] == Empty
  {
    MoveCastles(b, Square('E', 1), Square('G', 2));
  }

  /** A piece moved onto an empty square and back restores the board, when neither move castles. */
  lemma MoveRoundTrip(b: Board, from: Square, to: Square)
    requires ValidBoard(b) && ValidSquare(from) && ValidSquare(to) && from != to
    requires IsSquareEmpty(b, to)
    requires !IsCastling(At(b, from), FromFile(from.file), FromFile(to.file))
    ensures MoveF(MoveF(b, from, to), to, from) == b
  {
    var m := MoveF(b, from, to);
    MoveSimple(b, from, to);
    MoveSimple(m, to, from);
    var r := MoveF(m, to, from);
    SquareRoundTrip(from);
    SquareRoundTrip(to);
    forall i | 0 <= i < BoardSize ensures r[i] == b[i] {
      assert |r[i]| == |b[i]|;
      forall j | 0 <= j < BoardSize ensures r[i][j] == b[i][j] {
        if (i, j) == RowColForSquare(from) {
        } else if (i, j) == RowColForSquare(to) {
        }
      }
    }
  }

  /** Two boards with the same occupant in every cell are the same board. */
  lemma SameCells(g: Board, h: Board)
    requires ValidBoard(g) && ValidBoard(h)
    requires forall i, j :: 0 <= i < BoardSize && 0 <= j < BoardSize ==> g[i][j] == h[i][j]
    ensures g == h
  {
    forall i | 0 <= i < BoardSize ensures g[i] == h[i] {
      assert |g[i]| == |h[i]|;
    }
  }

  /** No piece on the board is marked as moved. */
  predicate NoneMoved(b: Board)
    requires ValidBoard(b)
  {
    forall i, j :: 0 <= i < BoardSize && 0 <= j < BoardSize && b[i][j].Piece? ==> !b[i][j].moved
  }

  lemma InitialNoneMoved()
    ensures NoneMoved(InitialBoard())
  {
    var b: Board := InitialBoard();
    forall i: int, j: int | 0 <= i < BoardSize && 0 <= j < BoardSize && b[i][j].Piece? ensures !b[i][j].moved {
      assert i in {0, 1, 2, 3, 4, 5, 6, 7};
    }
  }

  /**
   * movePiece stores the occupant before setting its moved flag on a copy,
   * so the flag never reaches the board: a board with no moved piece keeps
   * none after any move, castling included.
   */
  lemma {:induction false} MoveKeepsNoneMoved(b: Board, from: Square, to: Square)
    requires ValidBoard(b) && ValidSquare(from) && ValidSquare(to) && NoneMoved(b)
    ensures NoneMoved(MoveF(b, from, to))
    decreases MoveRank(b, from), 1
  {
    var (fromRow, fromCol) := RowColForSquare(from);
    var (toRow, toCol) := RowColForSquare(to);
    var piece := b[fromRow][fromCol];
    var relocated := SetCell(SetCell(b, toRow, toCol, piece), fromRow, fromCol, Empty);
    assert NoneMoved(relocated);
    if IsCastling(piece, fromCol, toCol) {
      RookMoveKeepsNoneMoved(relocated, fromRow, toCol);
    }
  }

  lemma {:induction false} RookMoveKeepsNoneMoved(b: Board, row: int, kingCol: int)
    requires ValidBoard(b) && 0 <= row < BoardSize && 0 <= kingCol < BoardSize && NoneMoved(b)
    ensures NoneMoved(RookMoveF(b, row, kingCol))
    decreases 1 + CornerKing(b, row, kingCol), 0
  {
    MoveKeepsNoneMoved(b, Square(ToFile(CornerCol(kingCol)), BoardSize - row),
                       Square(ToFile(RookTargetCol(kingCol)), BoardSize - row));
  }

  /**
   * The board of board.go as the source keeps it: an 8x8 array changed in
   * place by init, clear and movePiece.
   */
  class ChessBoard {
    var cells: array2<Occupant>

    predicate Valid()
      reads this
    {
      cells.Length0 == BoardSize && cells.Length1 == BoardSize
    }

    /** The position the array holds. */
    function Cells(): (g: Board)
      reads this, cells
      requires Valid()
      ensures ValidBoard(g)
      ensures forall i, j :: 0 <= i < BoardSize && 0 <= j < BoardSize ==> g[i][j] == cells[i, j]
    {
      var a := cells;
      seq(BoardSize, i requires 0 <= i < BoardSize reads a =>
        seq(BoardSize, j requires 0 <= j < BoardSize reads a => a[i, j]))
    }

    /** The zero board: every cell empty. */
    constructor ()
      ensures Valid() && fresh(cells) && Cells() == EmptyBoard()
    {
      cells := new Occupant[BoardSize, BoardSize]((_, _) => Empty);
      new;
      SameCells(Cells(), EmptyBoard());
    }

    /** setSquareEmpty */
    method SetSquareEmpty(row: int, col: int)
      requires Valid() && 0 <= row < BoardSize && 0 <= col < BoardSize
      modifies cells
      ensures Valid() && Cells() == SetCell(old(Cells()), row, col, Empty)
    {
      cells[row, col] := Empty;
      SameCells(Cells(), SetCell(old(Cells()), row, col, Empty));
    }

    /** clear: every cell emptied, row by row. */
    method Clear()
      requires Valid()
      modifies cells
      ensures Valid() && Cells() == EmptyBoard()
    {
      for i := 0 to BoardSize
        invariant forall r, c :: 0 <= r < i && 0 <= c < BoardSize ==> cells[r, c] == Empty
      {
        for j := 0 to BoardSize
          invariant forall r, c :: 0 <= r < i && 0 <= c < BoardSize ==> cells[r, c] == Empty
          invariant forall c :: 0 <= c < j ==> cells[i, c] == Empty
        {
          SetSquareEmpty(i, j);
        }
      }
      SameCells(Cells(), EmptyBoard());
    }

    /** initPawns: black pawns across row 1, white pawns across row 6. */
    method InitPawns()
      requires Valid()
      modifies cells
      ensures Valid() && Cells() == old(Cells())[1 := PawnRank(Black)][6 := PawnRank(White)]
    {
      for i := 0 to BoardSize
        invariant forall r, c :: 0 <= r < BoardSize && 0 <= c < BoardSize ==>
          cells[r, c] == if (r == 1 || r == 6) && c < i then Piece(if r == 1 then Black else White, Pawn, false)
                         else old(cells[r, c])
      {
        cells[1, i] := Piece(Black, Pawn, false);
        cells[6, i] := Piece(White, Pawn, false);
      }
      SameCells(Cells(), old(Cells())[1 := PawnRank(Black)][6 := PawnRank(White)]);
    }

    /** initPieces: the back rank of one colour across one row. */
    method InitPieces(color: Color, row: int)
      requires Valid() && 0 <= row < BoardSize
      modifies cells
      ensures Valid() && Cells() == old(Cells())[row := BackRank(color)]
    {
      cells[row, 0] := Piece(color, Rook, false);
      cells[row, 1] := Piece(color, Knight, false);
      cells[row, 2] := Piece(color, Bishop, false);
      cells[row, 3] := Piece(color, Queen, false);
      cells[row, 4] := Piece(color, King, false);
      cells[row, 5] := Piece(color, Bishop, false);
      cells[row, 6] := Piece(color, Knight, false);
      cells[row, 7] := Piece(color, Rook, false);
      ghost var want := old(Cells())[row := BackRank(color)];
      forall i, j | 0 <= i < BoardSize && 0 <= j < BoardSize ensures cells[i, j] == want[i][j] {
        if i == row {
          assert j in {0, 1, 2, 3, 4, 5, 6, 7};
        }
      }
      SameCells(Cells(), want);
    }

    /** init: clear, then pawns, then the black and the white back ranks. */
    method Init()
      requires Valid()
      modifies cells
      ensures Valid() && Cells() == InitialBoard()
    {
      Clear();
      InitPawns();
      InitPieces(Black, 0);
      InitPieces(White, BoardSize - 1);
      assert Cells() == InitialBoard();
    }

    /**
     * movePiece: the occupant of from is stored on to, its moved flag is set
     * on the local copy only, from is emptied, and a castling king has its
     * rook moved.
     */
    method MovePiece(fromSquare: Square, toSquare: Square)
      requires Valid() && ValidSquare(fromSquare) && ValidSquare(toSquare)
      modifies cells
      ensures Valid() && Cells() == MoveF(old(Cells()), fromSquare, toSquare)
      decreases MoveRank(Cells(), fromSquare), 1
    {
      var (fromRow, fromCol) := RowColForSquare(fromSquare);
      var (toRow, toCol) := RowColForSquare(toSquare);
      var piece := cells[fromRow, fromCol];
      cells[toRow, toCol] := piece;
      if piece.Piece? {
        piece := piece.(moved := true);
      }
      ghost var stored := Cells();
      SameCells(stored, SetCell(old(Cells()), toRow, toCol, old(Cells())[fromRow][fromCol]));
      SetSquareEmpty(fromRow, fromCol);

      if IsCastling(piece, fromCol, toCol) {
        MoveCastledRook(fromRow, toCol);
      }
    }

    /** moveCastledRook: the corner occupant of the king's row moves beside the king. */
    method MoveCastledRook(row: int, kingCol: int)
      requires Valid() && 0 <= row < BoardSize && 0 <= kingCol < BoardSize
      modifies cells
      ensures Valid() && Cells() == RookMoveF(old(Cells()), row, kingCol)
      decreases 1 + CornerKing(Cells(), row, kingCol), 0
    {
      var currentSquare, newSquare;
      if kingCol > BoardSize / 2 {
        currentSquare := Square(ToFile(BoardSize - 1), BoardSize - row);
        newSquare := Square(ToFile(kingCol - 1), BoardSize - row);
      } else {
        currentSquare := Square(ToFile(0), BoardSize - row);
        newSquare := Square(ToFile(kingCol + 1), BoardSize - row);
      }
      MovePiece(currentSquare, newSquare);
    }
  }
}

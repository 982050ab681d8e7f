/**
 * Attack, check and checkmate on the board of board.go: which pieces can
 * move onto a square (isSquareEnPrise), where a colour's king stands
 * (getSquareForPiece), whether it is attacked (isKingInCheck) and the
 * checkmate decision with its reason (isKingInCheckMate).
 *
 * The functions state each query on the board value; the methods run the
 * source's nested loops and are proved to compute them.
 */
module Check {
  import opened Grid
  import opened Pieces
  import opened Position

  /** The cells are visited row by row, row 0 (rank 8) first, as the source's loops do. */
  const CellCount: int := BoardSize * BoardSize

  /** The row-major position of a square. */
  function CellIndex(sq: Square): (n: int)
    requires ValidSquare(sq)
    ensures 0 <= n < CellCount
  {
    (BoardSize - sq.rank) * BoardSize + FromFile(sq.file)
  }

  /** The square of the n-th cell: getSquareForRowCol of its row and column. */
  function CellSquare(n: int): (sq: Square)
    requires 0 <= n < CellCount
    ensures ValidSquare(sq) && CellIndex(sq) == n
  {
    SquareForRowCol(n / BoardSize, n % BoardSize)
  }

  /** The occupant of the n-th cell. */
  function CellAt(b: Board, n: int): (o: Occupant)
    requires ValidBoard(b) && 0 <= n < CellCount
    ensures o == At(b, CellSquare(n))
  {
    b[n / BoardSize][n % BoardSize]
  }

  /** Cell index and square are inverse to each other. */
  lemma CellSquareOfIndex(sq: Square)
    requires ValidSquare(sq)
    ensures CellSquare(CellIndex(sq)) == sq
  {
    SquareRoundTrip(sq);
  }

  /** The cell the loops reach at row i, column j is cell n = i * 8 + j. */
  lemma CellOfRowCol(b: Board, i: int, j: int, n: int)
    requires ValidBoard(b) && 0 <= i < BoardSize && 0 <= j < BoardSize && n == i * BoardSize + j
    ensures 0 <= n < CellCount
    ensures CellSquare(n) == SquareForRowCol(i, j)
    ensures CellAt(b, n) == b[i][j]
  {
  }

  /**
   * The piece on cell n can take target: a piece not of colour color that
   * lists target among its legal squares.
   */
  predicate Attacks(b: Board, n: int, target: Square, color: Color)
    requires ValidBoard(b) && 0 <= n < CellCount
  {
    var p := CellAt(b, n);
    p.Piece? && p.color != color && target in LegalSquares(b, CellSquare(n), p)
  }

  /** The squares of the marked cells among the first n, in row-major order. */
  function Marked(marks: seq<bool>, n: int): (r: seq<Square>)
    requires |marks| == CellCount && 0 <= n <= CellCount
    ensures |r| <= n
    ensures forall i :: 0 <= i < |r| ==> ValidSquare(r[i])
    decreases n
  {
    if n == 0 then []
    else Marked(marks, n - 1) + (if marks[n - 1] then [CellSquare(n - 1)] else [])
  }

  /**
   * The marked squares are exactly the squares of the marked cells, each
   * once, in increasing cell order.
   */
  lemma {:induction false} MarkedSpec(marks: seq<bool>, n: int)
    requires |marks| == CellCount && 0 <= n <= CellCount
    ensures var r := Marked(marks, n);
      && (forall i :: 0 <= i < |r| ==> CellIndex(r[i]) < n && marks[CellIndex(r[i])])
      && (forall k :: 0 <= k < n && marks[k] ==> CellSquare(k) in r)
      && (forall i, j :: 0 <= i < j < |r| ==> CellIndex(r[i]) < CellIndex(r[j]))
    decreases n
  {
    if n > 0 {
      MarkedSpec(marks, n - 1);
      var prev := Marked(marks, n - 1);
      var r := Marked(marks, n);
      if marks[n - 1] {
        assert r == prev + [CellSquare(n - 1)];
        assert r[|r| - 1] == CellSquare(n - 1);
      } else {
        assert r == prev;
      }
      forall k | 0 <= k < n && marks[k] ensures CellSquare(k) in r {
        if k < n - 1 {
          assert CellSquare(k) in prev;
        } else {
          assert r[|r| - 1] == CellSquare(k);
        }
      }
    }
  }

  /** Without a mark nothing is listed. */
  lemma {:induction false} MarkedNone(marks: seq<bool>, n: int)
    requires |marks| == CellCount && 0 <= n <= CellCount
    requires forall k :: 0 <= k < n ==> !marks[k]
    ensures Marked(marks, n) == []
    decreases n
  {
    if n > 0 {
      MarkedNone(marks, n - 1);
    }
  }

  /** For every cell, whether its piece can take target. */
  function AttackMap(b: Board, target: Square, color: Color): (m: seq<bool>)
    requires ValidBoard(b)
    ensures |m| == CellCount
    ensures forall n :: 0 <= n < CellCount ==> m[n] == Attacks(b, n, target, color)
  {
    seq(CellCount, n requires 0 <= n < CellCount => Attacks(b, n, target, color))
  }

  /** The squares of every piece not of colour color that can take target, in row-major order. */
  function Attackers(b: Board, target: Square, color: Color): (r: seq<Square>)
    requires ValidBoard(b)
  {
    Marked(AttackMap(b, target, color), CellCount)
  }

  /** A square is among the attackers exactly when the piece on it can take target. */
  lemma AttackersIff(b: Board, target: Square, color: Color, sq: Square)
    requires ValidBoard(b) && ValidSquare(sq)
    ensures sq in Attackers(b, target, color) <==> Attacks(b, CellIndex(sq), target, color)
  {
    var m := AttackMap(b, target, color);
    var r := Attackers(b, target, color);
    MarkedSpec(m, CellCount);
    CellSquareOfIndex(sq);
    assert m[CellIndex(sq)] == Attacks(b, CellIndex(sq), target, color);
    if sq in r {
      var i :| 0 <= i < |r| && r[i] == sq;
      assert r == Marked(m, CellCount);
      assert m[CellIndex(r[i])];
      assert m[CellIndex(sq)];
    }
  }

  /**
   * Only rooks take: a pawn moves only onto empty squares and the other kinds
   * have no legal squares, so every piece that can move onto an occupied square
   * is a rook, of the other colour than the occupant.
   */
  lemma AttackersOfOccupiedAreRooks(b: Board, target: Square, color: Color)
    requires ValidBoard(b) && ValidSquare(target) && !IsSquareEmpty(b, target)
    ensures forall s :: s in Attackers(b, target, color) ==>
      ValidSquare(s) && At(b, s).Piece? && At(b, s).kind == Rook
      && At(b, s).color != color && At(b, s).color != At(b, target).color
  {
    var r := Attackers(b, target, color);
    forall s | s in r
      ensures ValidSquare(s) && At(b, s).Piece? && At(b, s).kind == Rook
      ensures At(b, s).color != color && At(b, s).color != At(b, target).color
    {
      var i :| 0 <= i < |r| && r[i] == s;
      AttackersIff(b, target, color, s);
      CellSquareOfIndex(s);
      LegalSquaresShape(b, s, At(b, s));
    }
  }

  /** One cell of isSquareEnPrise's loops: cell n, at row i and column j, is listed exactly when its piece attacks. */
  lemma EnPriseStep(b: Board, target: Square, color: Color, i: int, j: int, n: int, next: int, taking: seq<Square>, found: bool)
    requires ValidBoard(b) && 0 <= i < BoardSize && 0 <= j < BoardSize && n == i * BoardSize + j && next == n + 1
    requires taking == Marked(AttackMap(b, target, color), n)
    requires found <==> Attacks(b, n, target, color)
    ensures (if found then taking + [SquareForRowCol(i, j)] else taking) == Marked(AttackMap(b, target, color), next)
  {
    CellOfRowCol(b, i, j, n);
  }

  /**
   * The body of isSquareEnPrise's loops for the cell at row i, column j: an
   * occupant not of colour color whose legal squares include target.
   */
  method CellTakes(b: Board, i: int, j: int, ghost n: int, target: Square, color: Color) returns (found: bool)
    requires ValidBoard(b) && 0 <= i < BoardSize && 0 <= j < BoardSize && n == i * BoardSize + j
    ensures found <==> Attacks(b, n, target, color)
  {
    CellOfRowCol(b, i, j, n);
    found := false;
    if !IsRowColEmpty(b, i, j) {
      var piece := b[i][j];
      if piece.color != color {
        var square := SquareForRowCol(i, j);
        var legalSquares := GetLegalSquares(b, square, piece);
        found := Includes(legalSquares, target);
      }
    }
  }

  /**
   * isSquareEnPrise: every cell in row-major order; a piece not of colour
   * color whose legal squares include pieceSquare adds its square once.
   */
  method IsSquareEnPrise(b: Board, pieceSquare: Square, color: Color) returns (enPrise: bool, takingSquares: seq<Square>)
    requires ValidBoard(b)
    ensures takingSquares == Attackers(b, pieceSquare, color)
    ensures enPrise <==> |takingSquares| > 0
  {
    ghost var n := 0;
    takingSquares := [];
    for i := 0 to BoardSize
      invariant n == i * BoardSize
      invariant takingSquares == Marked(AttackMap(b, pieceSquare, color), n)
    {
      for j := 0 to BoardSize
        invariant n == i * BoardSize + j
        invariant takingSquares == Marked(AttackMap(b, pieceSquare, color), n)
      {
        var found := CellTakes(b, i, j, n, pieceSquare, color);
        ghost var next := n + 1;
        EnPriseStep(b, pieceSquare, color, i, j, n, next, takingSquares, found);
        if found {
          takingSquares := takingSquares + [SquareForRowCol(i, j)];
        }
        n := next;
      }
    }
    enPrise := |takingSquares| > 0;
  }

  /** A king of colour color stands on cell n. */
  predicate OwnKing(b: Board, n: int, color: Color)
    requires ValidBoard(b) && 0 <= n < CellCount
  {
    var p := CellAt(b, n);
    p.Piece? && p.color == color && Name(p.kind) == "K"
  }

  /** The first cell from n on holding a king of colour color, or CellCount when there is none. */
  function FirstKing(b: Board, color: Color, n: int): (k: int)
    requires ValidBoard(b) && 0 <= n <= CellCount
    ensures n <= k <= CellCount
    ensures k < CellCount ==> OwnKing(b, k, color)
    ensures forall m :: n <= m < k ==> !OwnKing(b, m, color)
    decreases CellCount - n
  {
    if n == CellCount then CellCount
    else if OwnKing(b, n, color) then n
    else FirstKing(b, color, n + 1)
  }

  /**
   * getSquareForPiece: the square of the first king of the colour in row-major
   * order, or NotFound. The name argument of the source plays no part: it
   * always looks for "K".
   */
  function KingSquare(b: Board, color: Color): (r: Result<Square>)
    requires ValidBoard(b)
  {
    var k := FirstKing(b, color, 0);
    if k < CellCount then Ok(CellSquare(k)) else Err(NotFound)
  }

  /** The king square is the first cell with a king of the colour; there is none exactly when no cell has one. */
  lemma KingSquareSpec(b: Board, color: Color)
    requires ValidBoard(b)
    ensures var r := KingSquare(b, color);
      && (r.Err? <==> forall n :: 0 <= n < CellCount ==> !OwnKing(b, n, color))
      && (r.Ok? ==>
            && ValidSquare(r.value) && OwnKing(b, CellIndex(r.value), color)
            && forall n :: 0 <= n < CellIndex(r.value) ==> !OwnKing(b, n, color))
  {
  }

  /** square{}, which isKingInCheck goes on with when there is no king. */
  const NoSquare: Square := Square(' ', 0)

  /** The square isKingInCheck tests: the king's, or square{} without a king. */
  function KingSquareOrNone(b: Board, color: Color): (sq: Square)
    requires ValidBoard(b)
  {
    match KingSquare(b, color)
    case Ok(sq) => sq
    case Err(_) => NoSquare
  }

  /** getSquareForPiece, with its two nested loops. */
  method GetSquareForPiece(b: Board, color: Color, name: string) returns (r: Result<Square>)
    requires ValidBoard(b)
    ensures r == KingSquare(b, color)
  {
    ghost var n := 0;
    for i := 0 to BoardSize
      invariant n == i * BoardSize
      invariant forall m :: 0 <= m < n ==> !OwnKing(b, m, color)
    {
      for j := 0 to BoardSize
        invariant n == i * BoardSize + j
        invariant forall m :: 0 <= m < n ==> !OwnKing(b, m, color)
      {
        CellOfRowCol(b, i, j, n);
        if !IsRowColEmpty(b, i, j) {
          var piece := b[i][j];
          if piece.color == color && Name(piece.kind) == "K" {
            assert OwnKing(b, n, color);
            assert FirstKing(b, color, 0) == n;
            return Ok(SquareForRowCol(i, j));
          }
        }
        assert !OwnKing(b, n, color);
        n := n + 1;
      }
    }
    assert FirstKing(b, color, 0) == CellCount;
    return Err(NotFound);
  }

  /** The squares of the pieces giving check to the king of colour color. */
  function CheckingSquares(b: Board, color: Color): (r: seq<Square>)
    requires ValidBoard(b)
  {
    Attackers(b, KingSquareOrNone(b, color), color)
  }

  /** isKingInCheck as a value. */
  predicate InCheck(b: Board, color: Color)
    requires ValidBoard(b)
  {
    |CheckingSquares(b, color)| > 0
  }

  /** isKingInCheck: the king's square, then isSquareEnPrise on it. */
  method IsKingInCheck(b: Board, color: Color) returns (inCheck: bool, squares: seq<Square>)
    requires ValidBoard(b)
    ensures squares == CheckingSquares(b, color)
    ensures inCheck <==> InCheck(b, color)
  {
    var r := GetSquareForPiece(b, color, "K");
    var kingSquare := if r.Ok? then r.value else NoSquare;
    inCheck, squares := IsSquareEnPrise(b, kingSquare, color);
  }

  /** Every generated square is on the board, so square{} is never attacked: without a king there is no check. */
  lemma NoKingNoCheck(b: Board, color: Color)
    requires ValidBoard(b) && KingSquare(b, color).Err?
    ensures !InCheck(b, color)
  {
    var m := AttackMap(b, NoSquare, color);
    forall n | 0 <= n < CellCount ensures !m[n] {
      if CellAt(b, n).Piece? {
        LegalSquaresShape(b, CellSquare(n), CellAt(b, n));
      }
    }
    MarkedNone(m, CellCount);
    assert KingSquareOrNone(b, color) == NoSquare;
  }

  /**
   * A king in check stands on the board, and every piece giving check is a
   * rook of the other colour.
   */
  lemma CheckersAreRooks(b: Board, color: Color)
    requires ValidBoard(b) && InCheck(b, color)
    ensures KingSquare(b, color).Ok?
    ensures ValidSquare(KingSquareOrNone(b, color)) && IsKing(At(b, KingSquareOrNone(b, color)))
    ensures forall s :: s in CheckingSquares(b, color) ==>
      ValidSquare(s) && At(b, s).Piece? && At(b, s).kind == Rook && At(b, s).color != color
  {
    if KingSquare(b, color).Err? {
      NoKingNoCheck(b, color);
    }
    KingSquareSpec(b, color);
    var k := KingSquareOrNone(b, color);
    CellSquareOfIndex(k);
    AttackersOfOccupiedAreRooks(b, k, color);
  }

  /**
   * kingCanMoveOutOfCheck: some square generated for the king with colour
   * color leaves it out of check once it has moved there, on a copy of the board.
   */
  method KingCanMoveOutOfCheck(b: Board, kingSquare: Square, k: Occupant, color: Color) returns (r: bool)
    requires ValidBoard(b) && ValidSquare(kingSquare) && k.Piece?
    ensures r <==> KingEscapes(b, kingSquare, k, color)
  {
    var mover := k.(color := color);
    var legalSquares := GetLegalSquares(b, kingSquare, mover);
    LegalSquaresShape(b, kingSquare, mover);
    if |legalSquares| > 0 {
      for n := 0 to |legalSquares|
        invariant forall m {:trigger MoveF(b, kingSquare, legalSquares[m])} ::
          0 <= m < n ==> InCheck(MoveF(b, kingSquare, legalSquares[m]), color)
      {
        var sq := legalSquares[n];
        var tempBoard := MoveF(b, kingSquare, sq);
        var movedKingInCheck, _ := IsKingInCheck(tempBoard, color);
        if !movedKingInCheck {
          assert sq in LegalSquares(b, kingSquare, mover) && ValidSquare(sq);
          return true;
        }
        forall m | 0 <= m < n + 1 ensures InCheck(MoveF(b, kingSquare, legalSquares[m]), color) {
          if m == n {
            assert legalSquares[m] == sq;
          }
        }
      }
    }
    forall sq | sq in legalSquares && ValidSquare(sq)
      ensures InCheck(MoveF(b, kingSquare, sq), color)
    {
      var m :| 0 <= m < |legalSquares| && legalSquares[m] == sq;
    }
    return false;
  }

  /** The king generates no legal squares, so it can never move out of check. */
  lemma KingCannotMove(b: Board, kingSquare: Square, k: Occupant)
    requires ValidBoard(b) && ValidSquare(kingSquare) && k.Piece? && k.kind == King
    ensures LegalSquares(b, kingSquare, k) == []
  {
    OnlyPawnsAndRooksMove(b, kingSquare, k);
  }

  /**
   * takingPieceIsKingMovingToCheck as a value: whether the piece on fromSquare
   * is a king that stands in check. The source makes the capture on a copy of
   * the board and then asks about the board before the capture, so toSquare
   * plays no part.
   */
  predicate KingTakesIntoCheck(b: Board, fromSquare: Square, toSquare: Square)
    requires ValidBoard(b) && ValidSquare(fromSquare) && ValidSquare(toSquare)
  {
    var takingPiece := At(b, fromSquare);
    IsKing(takingPiece) && InCheck(b, takingPiece.color)
  }

  /** takingPieceIsKingMovingToCheck, with the copy it moves on and then does not consult. */
  method TakingPieceIsKingMovingToCheck(b: Board, fromSquare: Square, toSquare: Square) returns (r: bool)
    requires ValidBoard(b) && ValidSquare(fromSquare) && ValidSquare(toSquare)
    ensures r <==> KingTakesIntoCheck(b, fromSquare, toSquare)
  {
    var takingPiece := At(b, fromSquare);
    if !IsKing(takingPiece) {
      return false;
    }
    var tempBoard := MoveF(b, fromSquare, toSquare);
    var isKingInCheck, _ := IsKingInCheck(b, takingPiece.color);
    return isKingInCheck;
  }

  /** The square taken on plays no part: the verdict is read off the board before the capture. */
  lemma KingTakesIgnoresDestination(b: Board, fromSquare: Square, toSquare: Square, otherSquare: Square)
    requires ValidBoard(b) && ValidSquare(fromSquare) && ValidSquare(toSquare) && ValidSquare(otherSquare)
    ensures KingTakesIntoCheck(b, fromSquare, toSquare) == KingTakesIntoCheck(b, fromSquare, otherSquare)
  {
  }

  /** Every piece that can take on a square is a pawn or a rook, so none is a king moving into check. */
  lemma TakerIsNeverKing(b: Board, target: Square, color: Color)
    requires ValidBoard(b) && ValidSquare(target)
    ensures forall s :: s in Attackers(b, target, color) ==>
      ValidSquare(s) && !IsKing(At(b, s)) && !KingTakesIntoCheck(b, s, target)
  {
    var r := Attackers(b, target, color);
    forall s | s in r ensures ValidSquare(s) && !IsKing(At(b, s)) {
      var i :| 0 <= i < |r| && r[i] == s;
      AttackersIff(b, target, color, s);
      CellSquareOfIndex(s);
      if At(b, s).Piece? && At(b, s).kind == King {
        OnlyPawnsAndRooksMove(b, s, At(b, s));
      }
    }
  }

  /** The reasons isKingInCheckMate gives, one per return statement. */
  datatype Reason =
    | NotInCheck
    | KingCanMove
    | CheckerCanBeTaken
    | MultipleCheckers
    | KnightChecker
    | AdjacentChecker
    | CanBlock
    | CannotTakeOrBlock

  /** A piece of colour color, other than the king, on cell n can move onto sq. */
  predicate BlocksAt(b: Board, n: int, color: Color, sq: Square)
    requires ValidBoard(b) && 0 <= n < CellCount
  {
    var p := CellAt(b, n);
    p.Piece? && p.color == color && Name(p.kind) != "K" && sq in LegalSquares(b, CellSquare(n), p)
  }

  /** Some own piece other than the king can move onto one of the squares. */
  predicate Blockable(b: Board, color: Color, between: seq<Square>)
    requires ValidBoard(b)
  {
    exists k, n :: 0 <= k < |between| && 0 <= n < CellCount && BlocksAt(b, n, color, between[k])
  }

  /**
   * The king may step to a legal square where it is no longer in check. The
   * squares are generated for colour color, which the source passes to the
   * generator in place of the piece's own colour.
   */
  predicate KingEscapes(b: Board, kingSquare: Square, king: Occupant, color: Color)
    requires ValidBoard(b) && ValidSquare(kingSquare) && king.Piece?
  {
    exists sq :: sq in LegalSquares(b, kingSquare, king.(color := color)) && ValidSquare(sq)
      && !InCheck(MoveF(b, kingSquare, sq), color)
  }

  /** The single checking piece can be taken, and not only by a king that would stay in check. */
  predicate CheckerTakeable(b: Board, checker: Square, color: Color)
    requires ValidBoard(b) && ValidSquare(checker)
  {
    var takingSquares := Attackers(b, checker, Opposite(color));
    |takingSquares| > 0
    && (|takingSquares| > 1 || !KingTakesIntoCheck(b, takingSquares[0], checker))
  }

  /**
   * isKingInCheckMate as a value: whether the king of colour color is mated,
   * with the reason of the return statement the source reaches.
   */
  function Checkmate(b: Board, color: Color): (r: (bool, Reason))
    requires ValidBoard(b)
  {
    var checkingSquares := CheckingSquares(b, color);
    if |checkingSquares| == 0 then (false, NotInCheck)
    else
      CheckersAreRooks(b, color);
      var kingSquare := KingSquareOrNone(b, color);
      var king := At(b, kingSquare);
      if KingEscapes(b, kingSquare, king, color) then (false, KingCanMove)
      else if |checkingSquares| == 1 && CheckerTakeable(b, checkingSquares[0], color) then (false, CheckerCanBeTaken)
      else BlockVerdict(b, color, kingSquare, checkingSquares)
  }

  /**
   * The last checks of isKingInCheckMate, once neither a king move nor a
   * capture parries the check given by the pieces on checkers.
   */
  function BlockVerdict(b: Board, color: Color, kingSquare: Square, checkers: seq<Square>): (r: (bool, Reason))
    requires ValidBoard(b) && ValidSquare(kingSquare) && |checkers| > 0
    requires ValidSquare(checkers[0]) && At(b, checkers[0]).Piece?
    ensures r.1 in {MultipleCheckers, KnightChecker, AdjacentChecker, CanBlock, CannotTakeOrBlock}
    ensures r.0 <==> r.1 != CanBlock
    ensures r.1 == CanBlock <==>
      && |checkers| == 1 && Name(At(b, checkers[0]).kind) != "N"
      && !AreSquaresAdjacent(checkers[0], kingSquare)
      && Blockable(b, color, SquaresBetween(kingSquare, checkers[0]))
  {
    if |checkers| > 1 then (true, MultipleCheckers)
    else if Name(At(b, checkers[0]).kind) == "N" then (true, KnightChecker)
    else if AreSquaresAdjacent(checkers[0], kingSquare) then (true, AdjacentChecker)
    else if Blockable(b, color, SquaresBetween(kingSquare, checkers[0])) then (false, CanBlock)
    else (true, CannotTakeOrBlock)
  }

  /** The innermost loops of the block search: whether the piece on row i, column j is an own non-king that can move onto sq. */
  method CellBlocks(b: Board, i: int, j: int, ghost n: int, sq: Square, color: Color) returns (found: bool)
    requires ValidBoard(b) && 0 <= i < BoardSize && 0 <= j < BoardSize && n == i * BoardSize + j
    ensures found <==> BlocksAt(b, n, color, sq)
  {
    CellOfRowCol(b, i, j, n);
    found := false;
    if !IsRowColEmpty(b, i, j) {
      var piece := b[i][j];
      if piece.color == color && Name(piece.kind) != "K" {
        var square := SquareForRowCol(i, j);
        var legalSquares := GetLegalSquares(b, square, piece);
        found := Includes(legalSquares, sq);
      }
    }
  }

  /** Some own piece other than the king, on one of the first n cells, can move onto sq. */
  predicate BlockerBefore(b: Board, color: Color, sq: Square, n: int)
    requires ValidBoard(b) && 0 <= n <= CellCount
    decreases n
  {
    n > 0 && (BlockerBefore(b, color, sq, n - 1) || BlocksAt(b, n - 1, color, sq))
  }

  /** BlockerBefore is the bounded search it names. */
  lemma {:induction false} BlockerBeforeIff(b: Board, color: Color, sq: Square, n: int)
    requires ValidBoard(b) && 0 <= n <= CellCount
    ensures BlockerBefore(b, color, sq, n) <==> exists m :: 0 <= m < n && BlocksAt(b, m, color, sq)
    decreases n
  {
    if n > 0 {
      BlockerBeforeIff(b, color, sq, n - 1);
      if !BlockerBefore(b, color, sq, n) {
        forall m | 0 <= m < n ensures !BlocksAt(b, m, color, sq) {
          if m < n - 1 {
            assert !BlocksAt(b, m, color, sq);
          }
        }
      } else if !BlockerBefore(b, color, sq, n - 1) {
        assert BlocksAt(b, n - 1, color, sq);
      }
    }
  }

  /** The block search of isKingInCheckMate: every square between, then every cell in row-major order. */
  method FindBlocker(b: Board, color: Color, between: seq<Square>) returns (found: bool)
    requires ValidBoard(b)
    ensures found <==> Blockable(b, color, between)
  {
    for k := 0 to |between|
      invariant forall k' :: 0 <= k' < k ==> !BlockerBefore(b, color, between[k'], CellCount)
    {
      ghost var n := 0;
      for i := 0 to BoardSize
        invariant n == i * BoardSize
        invariant !BlockerBefore(b, color, between[k], n)
      {
        for j := 0 to BoardSize
          invariant n == i * BoardSize + j
          invariant !BlockerBefore(b, color, between[k], n)
        {
          found := CellBlocks(b, i, j, n, between[k], color);
          if found {
            return;
          }
          n := n + 1;
        }
      }
    }
    forall k', m | 0 <= k' < |between| && 0 <= m < CellCount ensures !BlocksAt(b, m, color, between[k']) {
      BlockerBeforeIff(b, color, between[k'], CellCount);
    }
    return false;
  }

  /**
   * isKingInCheckMate: the checks of the source in its order, each with the
   * reason its return statement gives.
   */
  method IsKingInCheckMate(b: Board, color: Color) returns (mate: bool, reason: Reason)
    requires ValidBoard(b)
    ensures (mate, reason) == Checkmate(b, color)
  {
    var kingInCheck, checkingSquares := IsKingInCheck(b, color);
    if !kingInCheck {
      return false, NotInCheck;
    }
    CheckersAreRooks(b, color);
    var found := GetSquareForPiece(b, color, "K");
    var kingSquare := found.value;
    var king := GetPieceAt(b, kingSquare).value;
    var opponentColor := Opposite(color);
    assert kingSquare == KingSquareOrNone(b, color) && king == At(b, kingSquare);

    var canMove := KingCanMoveOutOfCheck(b, kingSquare, king, color);
    if canMove {
      return false, KingCanMove;
    }

    if |checkingSquares| == 1 {
      var isSquareEnPrise, takingSquares := IsSquareEnPrise(b, checkingSquares[0], opponentColor);
      if isSquareEnPrise {
        MarkedSpec(AttackMap(b, checkingSquares[0], opponentColor), CellCount);
        var viaKing := TakingPieceIsKingMovingToCheck(b, takingSquares[0], checkingSquares[0]);
        if |takingSquares| > 1 || !viaKing {
          assert CheckerTakeable(b, checkingSquares[0], color);
          return false, CheckerCanBeTaken;
        }
      }
      assert !CheckerTakeable(b, checkingSquares[0], color);
    }

    mate, reason := JudgeBlock(b, color, kingSquare, checkingSquares);
  }

  /** The tail of isKingInCheckMate: several checkers, a knight, an adjacent checker, then the block search. */
  method JudgeBlock(b: Board, color: Color, kingSquare: Square, checkingSquares: seq<Square>) returns (mate: bool, reason: Reason)
    requires ValidBoard(b) && ValidSquare(kingSquare) && |checkingSquares| > 0
    requires ValidSquare(checkingSquares[0]) && At(b, checkingSquares[0]).Piece?
    ensures (mate, reason) == BlockVerdict(b, color, kingSquare, checkingSquares)
  {
    if |checkingSquares| > 1 {
      return true, MultipleCheckers;
    }

    var checkingPiece := GetPieceAt(b, checkingSquares[0]).value;
    if Name(checkingPiece.kind) == "N" {
      return true, KnightChecker;
    }

    if Abs(checkingSquares[0].rank - kingSquare.rank) <= 1
      && Abs(FromFile(checkingSquares[0].file) - FromFile(kingSquare.file)) <= 1
    {
      return true, AdjacentChecker;
    }

    var between := GetSquaresBetween(kingSquare, checkingSquares[0]);
    var blocks := FindBlocker(b, color, between);
    if blocks {
      return false, CanBlock;
    }
    return true, CannotTakeOrBlock;
  }

  /** The reason says not in check exactly when the king is not in check, and then there is no mate. */
  lemma NotInCheckReason(b: Board, color: Color)
    requires ValidBoard(b)
    ensures Checkmate(b, color).1 == NotInCheck <==> !InCheck(b, color)
    ensures !InCheck(b, color) ==> !Checkmate(b, color).0
  {
    if InCheck(b, color) {
      CheckersAreRooks(b, color);
    }
  }

  /** The mate flag follows from the reason: the four mating reasons and no other. */
  lemma ReasonDecidesMate(b: Board, color: Color)
    requires ValidBoard(b)
    ensures var (mate, reason) := Checkmate(b, color);
      mate <==> reason in {MultipleCheckers, KnightChecker, AdjacentChecker, CannotTakeOrBlock}
  {
    if InCheck(b, color) {
      CheckersAreRooks(b, color);
    }
  }

  /** The king never escapes: it generates no legal squares. */
  lemma KingNeverMoves(b: Board, color: Color)
    requires ValidBoard(b)
    ensures Checkmate(b, color).1 != KingCanMove
  {
    if InCheck(b, color) {
      CheckersAreRooks(b, color);
      var kingSquare := KingSquareOrNone(b, color);
      KingCannotMove(b, kingSquare, At(b, kingSquare).(color := color));
    }
  }

  /** Knights never give check, since only rooks take: the knight reason is never given. */
  lemma KnightNeverChecks(b: Board, color: Color)
    requires ValidBoard(b)
    ensures Checkmate(b, color).1 != KnightChecker
  {
    if InCheck(b, color) {
      CheckersAreRooks(b, color);
      var checkers := CheckingSquares(b, color);
      assert checkers[0] in checkers;
    }
  }

  /** No taker is a king, so a checker can be taken exactly when some own piece attacks it. */
  lemma CheckerTakeableIff(b: Board, checker: Square, color: Color)
    requires ValidBoard(b) && ValidSquare(checker)
    ensures CheckerTakeable(b, checker, color) <==> |Attackers(b, checker, Opposite(color))| > 0
  {
    var takingSquares := Attackers(b, checker, Opposite(color));
    TakerIsNeverKing(b, checker, Opposite(color));
    if |takingSquares| > 0 {
      assert takingSquares[0] in takingSquares;
    }
  }

  /**
   * When isKingInCheckMate reports mate: the king is in check and, with a
   * single checker, nothing can take it and it is adjacent to the king or no
   * own piece can move between them.
   */
  lemma CheckmateIff(b: Board, color: Color)
    requires ValidBoard(b)
    ensures Checkmate(b, color).0 <==>
      var checkers := CheckingSquares(b, color);
      var kingSquare := KingSquareOrNone(b, color);
      && |checkers| > 0
      && (|checkers| == 1 ==> |Attackers(b, checkers[0], Opposite(color))| == 0)
      && (|checkers| > 1 || AreSquaresAdjacent(checkers[0], kingSquare)
          || (ValidSquare(kingSquare) && ValidSquare(checkers[0])
              && !Blockable(b, color, SquaresBetween(kingSquare, checkers[0]))))
  {
    if InCheck(b, color) {
      CheckersAreRooks(b, color);
      KingNeverMoves(b, color);
      KnightNeverChecks(b, color);
      var checkers := CheckingSquares(b, color);
      assert checkers[0] in checkers;
      CheckerTakeableIff(b, checkers[0], color);
    }
  }
}

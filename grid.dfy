/**
 * The board value of board.go: colours, piece kinds, occupants, squares, the
 * 8x8 grid, coordinate conversions and square geometry (adjacency and the
 * squares strictly between two squares).
 */
module Grid {
  import Utils

  const BoardSize: int := 8
  const Files: string := "ABCDEFGH"

  datatype Color = White | Black
  datatype Kind = Pawn | Rook | Knight | Bishop | Queen | King

  /** The occupant of a square: the undefined gamePiece{color, piece, moved} of board.go;
      its zero value gamePiece{} is Empty. */
  datatype Occupant = Empty | Piece(color: Color, kind: Kind, moved: bool)

  /** A square; the one-letter file string of the source is a char. */
  datatype Square = Square(file: char, rank: int)

  datatype Error = NotFound
  datatype Result<T> = Ok(value: T) | Err(error: Error)

  /** Row 0 is rank 8, column 0 is file A. */
  type Board = seq<seq<Occupant>>

  /** The colour strings the source uses. */
  function ColorName(c: Color): (s: string)
    ensures |s| == 1
  {
    if c == White then "W" else "B"
  }

  function Opposite(c: Color): (o: Color)
    ensures o != c
  {
    if c == White then Black else White
  }

  predicate ValidBoard(b: Board) {
    |b| == BoardSize && forall r :: 0 <= r < |b| ==> |b[r]| == BoardSize
  }

  /** The zero board board{}: every square empty. */
  function EmptyBoard(): (b: Board)
    ensures ValidBoard(b)
    ensures forall r, c :: 0 <= r < BoardSize && 0 <= c < BoardSize ==> b[r][c] == Empty
  {
    seq(BoardSize, _ => seq(BoardSize, _ => Empty))
  }

  /** A file letter: one of the letters of Files (see FromFileIsIndex). */
  predicate ValidFile(f: char) {
    'A' <= f <= 'H'
  }

  predicate ValidSquare(sq: Square) {
    ValidFile(sq.file) && 1 <= sq.rank <= BoardSize
  }

  /** fromFileStr: the position of the file letter in Files, or -1. */
  function FromFile(f: char): (i: int)
    ensures -1 <= i < BoardSize
    ensures i == -1 <==> !ValidFile(f)
  {
    if ValidFile(f) then f as int - 'A' as int else -1
  }

  /** FromFile is strings.Index on Files: -1 for a letter not in it, else its first position. */
  lemma FromFileIsIndex(f: char)
    ensures FromFile(f) == -1 <==> f !in Files
    ensures FromFile(f) >= 0 ==> Files[FromFile(f)] == f && forall k :: 0 <= k < FromFile(f) ==> Files[k] != f
  {
    if f in Files {
      var k :| 0 <= k < |Files| && Files[k] == f;
      assert ValidFile(f);
    }
  }

  /** toFileStr: the file letter of a column; the source panics outside 0..7. */
  function ToFile(i: int): (f: char)
    requires 0 <= i < BoardSize
    ensures ValidFile(f) && FromFile(f) == i
  {
    ('A' as int + i) as char
  }

  /** ToFile is the slice Files[i : i + 1]. */
  lemma ToFileIsSlice(i: int)
    requires 0 <= i < BoardSize
    ensures [ToFile(i)] == Files[i..i + 1]
  {
  }

  lemma FileRoundTrip(i: int)
    requires 0 <= i < BoardSize
    ensures FromFile(ToFile(i)) == i
  {
  }

  /** getRowColForSquare */
  function RowColForSquare(sq: Square): (rc: (int, int)) {
    (BoardSize - sq.rank, FromFile(sq.file))
  }

  /** getSquareForRowCol */
  function SquareForRowCol(row: int, col: int): (sq: Square)
    requires 0 <= col < BoardSize
    ensures 0 <= row < BoardSize ==> ValidSquare(sq)
  {
    Square(ToFile(col), BoardSize - row)
  }

  lemma RowColRoundTrip(row: int, col: int)
    requires 0 <= row < BoardSize && 0 <= col < BoardSize
    ensures RowColForSquare(SquareForRowCol(row, col)) == (row, col)
  {
  }

  lemma SquareRoundTrip(sq: Square)
    requires ValidSquare(sq)
    ensures var (row, col) := RowColForSquare(sq);
      0 <= row < BoardSize && 0 <= col < BoardSize && SquareForRowCol(row, col) == sq
  {
  }

  /** The occupant of a square. */
  function At(b: Board, sq: Square): (o: Occupant)
    requires ValidBoard(b) && ValidSquare(sq)
  {
    b[BoardSize - sq.rank][FromFile(sq.file)]
  }

  /** isRowColEmpty: the cell holds the zero occupant. */
  predicate IsRowColEmpty(b: Board, row: int, col: int)
    requires ValidBoard(b) && 0 <= row < BoardSize && 0 <= col < BoardSize
  {
    b[row][col] == Empty
  }

  /** isSquareEmpty */
  predicate IsSquareEmpty(b: Board, sq: Square)
    requires ValidBoard(b) && ValidSquare(sq)
  {
    var (row, col) := RowColForSquare(sq);
    IsRowColEmpty(b, row, col)
  }

  /** getPieceAt: the occupant, or NotFound for an empty square. */
  function GetPieceAt(b: Board, sq: Square): (r: Result<Occupant>)
    requires ValidBoard(b) && ValidSquare(sq)
    ensures r.Err? <==> At(b, sq) == Empty
    ensures r.Ok? ==> r.value == At(b, sq) && r.value.Piece?
  {
    if IsSquareEmpty(b, sq) then Err(NotFound) else Ok(At(b, sq))
  }

  /** areSquaresEqual: same file and same rank. */
  predicate AreSquaresEqual(sq1: Square, sq2: Square)
    ensures AreSquaresEqual(sq1, sq2) <==> sq1 == sq2
  {
    sq1.file == sq2.file && sq1.rank == sq2.rank
  }

  /** The integer form of math.Abs(float64(x)) on small integers. */
  function Abs(x: int): (a: int)
    ensures a >= 0 && (a == x || a == -x)
  {
    if x < 0 then -x else x
  }

  /** areSquaresAdjacent: rank and file distances both at most one (equal squares included). */
  predicate AreSquaresAdjacent(sq1: Square, sq2: Square) {
    Abs(sq1.rank - sq2.rank) <= 1 && Abs(FromFile(sq1.file) - FromFile(sq2.file)) <= 1
  }

  lemma AdjacentIff(sq1: Square, sq2: Square)
    ensures AreSquaresAdjacent(sq1, sq2) <==>
      -1 <= sq1.rank - sq2.rank <= 1 && -1 <= FromFile(sq1.file) - FromFile(sq2.file) <= 1
  {
  }

  lemma AdjacentSymmetric(sq1: Square, sq2: Square)
    ensures AreSquaresAdjacent(sq1, sq2) == AreSquaresAdjacent(sq2, sq1)
  {
  }

  /** The cases of TestAreSquaresAdjacent in board_test.go. */
  lemma AdjacentExamples()
    ensures AreSquaresAdjacent(Square('A', 2), Square('A', 3))
    ensures AreSquaresAdjacent(Square('A', 3), Square('A', 2))
    ensures AreSquaresAdjacent(Square('A', 2), Square('B', 2))
    ensures AreSquaresAdjacent(Square('B', 2), Square('A', 2))
    ensures AreSquaresAdjacent(Square('A', 2), Square('B', 3))
    ensures AreSquaresAdjacent(Square('B', 3), Square('A', 2))
    ensures !AreSquaresAdjacent(Square('A', 2), Square('A', 4))
    ensures forall sq :: AreSquaresAdjacent(sq, sq)
  {
  }

  /**
   * getSquaresBetween as a value. Vertical and horizontal pairs give the squares
   * strictly between in increasing order; a diagonal pair walks the files away
   * from sq1 while the ranks rise from the lower of the two ranks.
   */
  function SquaresBetween(sq1: Square, sq2: Square): (r: seq<Square>)
    requires ValidSquare(sq1) && ValidSquare(sq2)
    ensures forall k :: 0 <= k < |r| ==> ValidSquare(r[k])
  {
    if AreSquaresEqual(sq1, sq2) || AreSquaresAdjacent(sq1, sq2) then []
    else if sq1.file == sq2.file then VerticalBetween(sq1, sq2)
    else if sq1.rank == sq2.rank then HorizontalBetween(sq1, sq2)
    else if OnDiagonal(sq1, sq2) then DiagonalBetween(sq1, sq2)
    else []
  }

  function MinRank(sq1: Square, sq2: Square): (m: int) {
    if sq1.rank <= sq2.rank then sq1.rank else sq2.rank
  }

  function MaxRank(sq1: Square, sq2: Square): (m: int) {
    if sq1.rank <= sq2.rank then sq2.rank else sq1.rank
  }

  function MinFile(sq1: Square, sq2: Square): (m: int) {
    if FromFile(sq1.file) <= FromFile(sq2.file) then FromFile(sq1.file) else FromFile(sq2.file)
  }

  function MaxFile(sq1: Square, sq2: Square): (m: int) {
    if FromFile(sq1.file) <= FromFile(sq2.file) then FromFile(sq2.file) else FromFile(sq1.file)
  }

  /** Two squares on one diagonal line. */
  predicate OnDiagonal(sq1: Square, sq2: Square) {
    Abs(sq1.rank - sq2.rank) == Abs(FromFile(sq1.file) - FromFile(sq2.file))
  }

  /** Between two squares of one file: sq1's file at every rank strictly between, lowest first. */
  function VerticalBetween(sq1: Square, sq2: Square): (r: seq<Square>)
    requires ValidSquare(sq1) && ValidSquare(sq2) && sq1.rank != sq2.rank
    ensures |r| == MaxRank(sq1, sq2) - MinRank(sq1, sq2) - 1
    ensures forall k :: 0 <= k < |r| ==> r[k] == Square(sq1.file, MinRank(sq1, sq2) + 1 + k) && ValidSquare(r[k])
  {
    var n := MaxRank(sq1, sq2) - MinRank(sq1, sq2) - 1;
    seq(n, k requires 0 <= k < n => Square(sq1.file, MinRank(sq1, sq2) + 1 + k))
  }

  /** Between two squares of one rank: sq1's rank at every column strictly between, leftmost first. */
  function HorizontalBetween(sq1: Square, sq2: Square): (r: seq<Square>)
    requires ValidSquare(sq1) && ValidSquare(sq2) && sq1.file != sq2.file
    ensures |r| == MaxFile(sq1, sq2) - MinFile(sq1, sq2) - 1
    ensures forall k :: 0 <= k < |r| ==> r[k] == Square(ToFile(MinFile(sq1, sq2) + 1 + k), sq1.rank) && ValidSquare(r[k])
  {
    var n := MaxFile(sq1, sq2) - MinFile(sq1, sq2) - 1;
    seq(n, k requires 0 <= k < n => Square(ToFile(MinFile(sq1, sq2) + 1 + k), sq1.rank))
  }

  /** +1 when sq2's file letter is after sq1's, else -1: the column step of the diagonal walk. */
  function Direction(sq1: Square, sq2: Square): (d: int) {
    if sq2.file > sq1.file then 1 else -1
  }

  /**
   * Between two squares of one diagonal: every rank strictly between, lowest
   * first, paired with the column k steps from sq1's towards sq2's at the k-th.
   */
  function DiagonalBetween(sq1: Square, sq2: Square): (r: seq<Square>)
    requires ValidSquare(sq1) && ValidSquare(sq2) && sq1.rank != sq2.rank && OnDiagonal(sq1, sq2)
    ensures |r| == MaxRank(sq1, sq2) - MinRank(sq1, sq2) - 1
    ensures forall k :: 0 <= k < |r| ==>
      r[k] == Square(ToFile(DiagFile(sq1, sq2, k + 1)), MinRank(sq1, sq2) + 1 + k) && ValidSquare(r[k])
  {
    var n := MaxRank(sq1, sq2) - MinRank(sq1, sq2) - 1;
    seq(n, k requires 0 <= k < n => Square(ToFile(DiagFile(sq1, sq2, k + 1)), MinRank(sq1, sq2) + 1 + k))
  }

  /** The column the diagonal walk reaches after count steps from sq1's column. */
  function DiagFile(sq1: Square, sq2: Square, count: int): (i: int)
    requires ValidSquare(sq1) && ValidSquare(sq2) && OnDiagonal(sq1, sq2)
    requires 1 <= count < Abs(sq1.rank - sq2.rank)
    ensures 0 <= i < BoardSize
    ensures var f1, f2 := FromFile(sq1.file), FromFile(sq2.file);
      i == if f2 > f1 then f1 + count else f1 - count
  {
    FromFile(sq1.file) + DiagStep(count, Direction(sq1, sq2))
  }

  /** The signed offset of count steps in direction dir (+1 or -1). */
  function DiagStep(count: int, dir: int): (d: int)
    requires dir == 1 || dir == -1
    ensures d == if dir == 1 then count else -count
  {
    count * dir
  }

  /** getSquaresBetween: the least and greatest rank and column, then the case for the shared file, rank or diagonal. */
  method GetSquaresBetween(sq1: Square, sq2: Square) returns (squares: seq<Square>)
    requires ValidSquare(sq1) && ValidSquare(sq2)
    ensures squares == SquaresBetween(sq1, sq2)
  {
    squares := [];
    if AreSquaresEqual(sq1, sq2) || AreSquaresAdjacent(sq1, sq2) {
      return;
    }

    var ranks, files := [sq1.rank, sq2.rank], [FromFile(sq1.file), FromFile(sq2.file)];
    var minRank := Utils.MinOf(ranks);
    var maxRank := Utils.MaxOf(ranks);
    var minFile := Utils.MinOf(files);
    var maxFile := Utils.MaxOf(files);
    assert ranks[0] == sq1.rank && ranks[1] == sq2.rank;
    assert files[0] == FromFile(sq1.file) && files[1] == FromFile(sq2.file);
    assert minRank == MinRank(sq1, sq2) && maxRank == MaxRank(sq1, sq2);
    assert minFile == MinFile(sq1, sq2) && maxFile == MaxFile(sq1, sq2);

    if sq1.file == sq2.file {
      squares := AppendVertical(sq1, sq2, minRank, maxRank);
    } else if sq1.rank == sq2.rank {
      squares := AppendHorizontal(sq1, sq2, minFile, maxFile);
    } else if maxRank - minRank == maxFile - minFile {
      squares := AppendDiagonal(sq1, sq2, minRank, maxRank);
    }
  }

  /** The same-file case: one square of sq1's file for each rank strictly between the two ranks, lowest first. */
  method AppendVertical(sq1: Square, sq2: Square, minRank: int, maxRank: int) returns (squares: seq<Square>)
    requires ValidSquare(sq1) && ValidSquare(sq2) && sq1.rank != sq2.rank
    requires minRank == MinRank(sq1, sq2) && maxRank == MaxRank(sq1, sq2)
    ensures squares == VerticalBetween(sq1, sq2)
  {
    squares := [];
    var i := minRank + 1;
    while i < maxRank
      invariant minRank + 1 <= i <= maxRank
      invariant |squares| == i - minRank - 1
      invariant forall k :: 0 <= k < |squares| ==> squares[k] == Square(sq1.file, minRank + 1 + k)
    {
      squares := squares + [Square(sq1.file, i)];
      i := i + 1;
    }
    ghost var expected := VerticalBetween(sq1, sq2);
    assert |squares| == |expected| && forall k :: 0 <= k < |squares| ==> squares[k] == expected[k];
  }

  /** The same-rank case: one square of sq1's rank for each column strictly between the two columns, leftmost first. */
  method AppendHorizontal(sq1: Square, sq2: Square, minFile: int, maxFile: int) returns (squares: seq<Square>)
    requires ValidSquare(sq1) && ValidSquare(sq2) && sq1.file != sq2.file
    requires minFile == MinFile(sq1, sq2) && maxFile == MaxFile(sq1, sq2)
    ensures squares == HorizontalBetween(sq1, sq2)
  {
    squares := [];
    var i := minFile + 1;
    while i < maxFile
      invariant minFile + 1 <= i <= maxFile
      invariant |squares| == i - minFile - 1
      invariant forall k :: 0 <= k < |squares| ==> squares[k] == Square(ToFile(minFile + 1 + k), sq1.rank)
    {
      squares := squares + [Square(ToFile(i), sq1.rank)];
      i := i + 1;
    }
    ghost var expected := HorizontalBetween(sq1, sq2);
    assert |squares| == |expected| && forall k :: 0 <= k < |squares| ==> squares[k] == expected[k];
  }

  /**
   * The diagonal case: for each rank strictly between, lowest first, the square
   * whose column lies one more step away from sq1's column, towards sq2's.
   */
  method AppendDiagonal(sq1: Square, sq2: Square, minRank: int, maxRank: int) returns (squares: seq<Square>)
    requires ValidSquare(sq1) && ValidSquare(sq2) && sq1.rank != sq2.rank && OnDiagonal(sq1, sq2)
    requires minRank == MinRank(sq1, sq2) && maxRank == MaxRank(sq1, sq2)
    ensures squares == DiagonalBetween(sq1, sq2)
  {
    squares := [];
    var leftRightDirection: int;
    if sq2.file > sq1.file {
      leftRightDirection := 1;
    } else {
      leftRightDirection := -1;
    }
    assert leftRightDirection == Direction(sq1, sq2);
    var count := 1;
    var i := minRank + 1;
    while i < maxRank
      invariant minRank + 1 <= i <= maxRank
      invariant count == i - minRank
      invariant |squares| == i - minRank - 1
      invariant forall k :: 0 <= k < |squares| ==>
        squares[k] == Square(ToFile(DiagFile(sq1, sq2, k + 1)), minRank + 1 + k)
    {
      squares := squares + [Square(ToFile(FromFile(sq1.file) + DiagStep(count, leftRightDirection)), i)];
      count := count + 1;
      i := i + 1;
    }
    ghost var expected := DiagonalBetween(sq1, sq2);
    assert |squares| == |expected| && forall k :: 0 <= k < |squares| ==> squares[k] == expected[k];
  }

  /** Every square getSquaresBetween lists is on the board. */
  lemma BetweenValid(sq1: Square, sq2: Square)
    requires ValidSquare(sq1) && ValidSquare(sq2)
    ensures forall s :: s in SquaresBetween(sq1, sq2) ==> ValidSquare(s)
  {
  }

  /** Equal, adjacent and non-aligned pairs have nothing between them. */
  lemma BetweenEmptyCases(sq1: Square, sq2: Square)
    requires ValidSquare(sq1) && ValidSquare(sq2)
    ensures sq1 == sq2 ==> SquaresBetween(sq1, sq2) == []
    ensures AreSquaresAdjacent(sq1, sq2) ==> SquaresBetween(sq1, sq2) == []
    ensures sq1.file != sq2.file && sq1.rank != sq2.rank
      && Abs(sq1.rank - sq2.rank) != Abs(FromFile(sq1.file) - FromFile(sq2.file))
      ==> SquaresBetween(sq1, sq2) == []
  {
  }

  /** Same file: exactly the |delta rank| - 1 squares strictly between, by increasing rank. */
  lemma BetweenVertical(sq1: Square, sq2: Square)
    requires ValidSquare(sq1) && ValidSquare(sq2)
    requires sq1.file == sq2.file && sq1 != sq2
    ensures var r := SquaresBetween(sq1, sq2);
      && |r| == Abs(sq1.rank - sq2.rank) - 1
      && (forall s :: s in r <==>
            s.file == sq1.file && (sq1.rank < s.rank < sq2.rank || sq2.rank < s.rank < sq1.rank))
      && (forall i, j :: 0 <= i < j < |r| ==> r[i].rank < r[j].rank)
  {
    var r := SquaresBetween(sq1, sq2);
    var minRank := if sq1.rank <= sq2.rank then sq1.rank else sq2.rank;
    forall s: Square | s.file == sq1.file && (sq1.rank < s.rank < sq2.rank || sq2.rank < s.rank < sq1.rank)
      ensures s in r
    {
      assert r[s.rank - minRank - 1] == s;
    }
  }

  /** Same rank: exactly the |delta file| - 1 squares strictly between, by increasing file. */
  lemma BetweenHorizontal(sq1: Square, sq2: Square)
    requires ValidSquare(sq1) && ValidSquare(sq2)
    requires sq1.rank == sq2.rank && sq1 != sq2
    ensures var r := SquaresBetween(sq1, sq2);
      var f1, f2 := FromFile(sq1.file), FromFile(sq2.file);
      && |r| == Abs(f1 - f2) - 1
      && (forall s :: s in r <==>
            ValidFile(s.file) && s.rank == sq1.rank
            && (f1 < FromFile(s.file) < f2 || f2 < FromFile(s.file) < f1))
      && (forall i, j :: 0 <= i < j < |r| ==> FromFile(r[i].file) < FromFile(r[j].file))
  {
    var r := SquaresBetween(sq1, sq2);
    var f1, f2 := FromFile(sq1.file), FromFile(sq2.file);
    var minFile := if f1 <= f2 then f1 else f2;
    forall s: Square | ValidFile(s.file) && s.rank == sq1.rank
      && (f1 < FromFile(s.file) < f2 || f2 < FromFile(s.file) < f1)
      ensures s in r
    {
      assert r[FromFile(s.file) - minFile - 1] == s;
    }
  }

  /**
   * Diagonal pair: |delta rank| - 1 squares, one per rank strictly between, by
   * increasing rank; when sq1 has the lower rank they are exactly the squares of
   * the connecting diagonal.
   */
  lemma BetweenDiagonal(sq1: Square, sq2: Square)
    requires ValidSquare(sq1) && ValidSquare(sq2)
    requires sq1 != sq2 && Abs(sq1.rank - sq2.rank) == Abs(FromFile(sq1.file) - FromFile(sq2.file))
    ensures var r := SquaresBetween(sq1, sq2);
      && |r| == Abs(sq1.rank - sq2.rank) - 1
      && (forall k :: 0 <= k < |r| ==>
            (sq1.rank < r[k].rank < sq2.rank || sq2.rank < r[k].rank < sq1.rank))
      && (forall i, j :: 0 <= i < j < |r| ==> r[i].rank < r[j].rank)
      && (sq1.rank < sq2.rank ==> forall k :: 0 <= k < |r| ==>
            OnDiagonal(sq1, r[k]) && OnDiagonal(r[k], sq2))
  {
  }

  /** From the higher-ranked square the diagonal walk leaves the diagonal: A4 to D1 gives B2, C3. */
  lemma BetweenDiagonalDownward()
    ensures SquaresBetween(Square('A', 4), Square('D', 1)) == [Square('B', 2), Square('C', 3)]
    ensures !OnDiagonal(Square('A', 4), Square('B', 2))
  {
    var sq1, sq2 := Square('A', 4), Square('D', 1);
    assert FromFile('A') == 0 && FromFile('D') == 3 && FromFile('B') == 1;
    assert !AreSquaresAdjacent(sq1, sq2) && OnDiagonal(sq1, sq2);
    assert SquaresBetween(sq1, sq2) == DiagonalBetween(sq1, sq2);
    var r := DiagonalBetween(sq1, sq2);
    assert MinRank(sq1, sq2) == 1 && MaxRank(sq1, sq2) == 4;
    assert DiagFile(sq1, sq2, 1) == 1 && DiagFile(sq1, sq2, 2) == 2;
    assert ToFile(1) == 'B' && ToFile(2) == 'C';
    assert r[0] == Square('B', 2) && r[1] == Square('C', 3);
  }

  /** The cases of TestGetSquaresBetween in board_test.go. */
  lemma BetweenExamples()
    ensures |SquaresBetween(Square('A', 2), Square('A', 6))| == 3
    ensures |SquaresBetween(Square('A', 2), Square('D', 2))| == 2
    ensures |SquaresBetween(Square('A', 1), Square('H', 8))| == 6
    ensures |SquaresBetween(Square('A', 1), Square('H', 7))| == 0
    ensures |SquaresBetween(Square('A', 1), Square('A', 1))| == 0
  {
  }

  /** areEmptySquaresBetween: false when nothing is between, else whether every listed square is empty. */
  method AreEmptySquaresBetween(b: Board, sq1: Square, sq2: Square) returns (empty: bool)
    requires ValidBoard(b) && ValidSquare(sq1) && ValidSquare(sq2)
    ensures empty <==> (|SquaresBetween(sq1, sq2)| > 0
      && forall s :: s in SquaresBetween(sq1, sq2) ==> IsSquareEmpty(b, s))
  {
    var squares := GetSquaresBetween(sq1, sq2);
    BetweenValid(sq1, sq2);
    if |squares| == 0 {
      return false;
    }

    var n := 0;
    while n < |squares|
      invariant 0 <= n <= |squares|
      invariant forall k :: 0 <= k < n ==> IsSquareEmpty(b, squares[k])
    {
      if !IsSquareEmpty(b, squares[n]) {
        return false;
      }
      n := n + 1;
    }
    return true;
  }

  /**
   * The scan of a generated-square list in isSquareEnPrise, isKingInCheckMate
   * and isMoveLegal: whether some square of the list has the rank and the
   * file of sq, stopping at the first.
   */
  method Includes(squares: seq<Square>, sq: Square) returns (found: bool)
    ensures found <==> sq in squares
  {
    for k := 0 to |squares|
      invariant sq !in squares[..k]
    {
      if squares[k].rank == sq.rank && squares[k].file == sq.file {
        return true;
      }
      assert squares[..k + 1] == squares[..k] + [squares[k]];
    }
    assert squares[..|squares|] == squares;
    return false;
  }
}

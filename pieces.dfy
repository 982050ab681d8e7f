/**
 * Per-kind move generation of pieces.go. Only the pawn (forward steps, no
 * captures) and the rook (four rays) generate squares; the knight, bishop,
 * queen and king generators return nothing.
 */
module Pieces {
  import opened Grid

  /** getName of each piece kind. */
  function Name(k: Kind): (s: string)
    ensures |s| == 1
  {
    match k
    case Pawn => "P"
    case Rook => "R"
    case Knight => "N"
    case Bishop => "B"
    case Queen => "Q"
    case King => "K"
  }

  lemma NameInjective(k1: Kind, k2: Kind)
    ensures Name(k1) == Name(k2) <==> k1 == k2
  {
  }

  /** coloredPiece.String: the colour string followed by the piece name. */
  function PieceString(color: Color, kind: Kind): (s: string)
    ensures |s| == 2 && s[..1] == ColorName(color) && s[1..] == Name(kind)
  {
    ColorName(color) + Name(kind)
  }

  /** Distinct pieces are shown differently. */
  lemma PieceStringInjective(c1: Color, k1: Kind, c2: Color, k2: Kind)
    requires PieceString(c1, k1) == PieceString(c2, k2)
    ensures c1 == c2 && k1 == k2
  {
    assert PieceString(c1, k1)[..1] == PieceString(c2, k2)[..1];
    assert PieceString(c1, k1)[1..] == PieceString(c2, k2)[1..];
    NameInjective(k1, k2);
  }

  /** The offset square lies on the board. */
  predicate InBoard(sq: Square, rankOffset: int, fileOffset: int) {
    1 <= sq.rank + rankOffset <= BoardSize && 0 <= FromFile(sq.file) + fileOffset < BoardSize
  }

  /** The square at the given rank and file offsets from sq. */
  function Shift(sq: Square, rankOffset: int, fileOffset: int): (t: Square)
    requires ValidSquare(sq) && InBoard(sq, rankOffset, fileOffset)
    ensures ValidSquare(t) && t.rank == sq.rank + rankOffset
    ensures FromFile(t.file) == FromFile(sq.file) + fileOffset
  {
    Square(ToFile(FromFile(sq.file) + fileOffset), sq.rank + rankOffset)
  }

  /**
   * appendLegalSquare: the offset square is appended when it is empty, or when
   * it holds a piece of the other colour and captures are allowed; the second
   * result says whether a piece is taken.
   */
  function AppendLegalSquare(squares: seq<Square>, b: Board, color: Color, sq: Square,
                             rankOffset: int, fileOffset: int, canTakeOppositeColorPiece: bool)
    : (r: (bool, bool, seq<Square>))
    requires ValidBoard(b) && ValidSquare(sq) && InBoard(sq, rankOffset, fileOffset)
    ensures var t := Shift(sq, rankOffset, fileOffset);
      && (r.0 <==> IsSquareEmpty(b, t) || (At(b, t).color != color && canTakeOppositeColorPiece))
      && (r.1 <==> r.0 && !IsSquareEmpty(b, t))
      && r.2 == squares + (if r.0 then [t] else [])
  {
    var newSquare := Shift(sq, rankOffset, fileOffset);
    if IsSquareEmpty(b, newSquare) then (true, false, squares + [newSquare])
    else
      var p := At(b, newSquare);
      if p.color != color && canTakeOppositeColorPiece then (true, true, squares + [newSquare])
      else (false, false, squares)
  }

  function PawnDirection(color: Color): (d: int) {
    if color == White then 1 else -1
  }

  function SecondRank(color: Color): (r: int) {
    if color == White then 2 else 7
  }

  /** pawn.getLegalSquares: a single step from ranks 2..7 onto an empty square, then a double step from the second rank. */
  function PawnSquares(b: Board, sq: Square, color: Color): (r: seq<Square>)
    requires ValidBoard(b) && ValidSquare(sq)
  {
    var direction := PawnDirection(color);
    var secondRank := SecondRank(color);
    // The one-square step, offered from ranks 2 to 7 when the square ahead is empty.
    var single := if 2 <= sq.rank <= 7 then AppendLegalSquare([], b, color, sq, 1 * direction, 0, false)
                  else (false, false, []);
    // The two-square step, offered only after the one-square step and only from the pawn's second rank.
    if single.0 && sq.rank == secondRank then AppendLegalSquare(single.2, b, color, sq, 2 * direction, 0, false).2
    else single.2
  }

  /** The pawn's squares: the single step, then possibly the double step, both on empty squares of its file. */
  lemma PawnShape(b: Board, sq: Square, color: Color)
    requires ValidBoard(b) && ValidSquare(sq)
    ensures var r := PawnSquares(b, sq, color);
      var d := PawnDirection(color);
      && |r| <= 2
      && (forall k :: 0 <= k < |r| ==> ValidSquare(r[k]) && r[k].file == sq.file && IsSquareEmpty(b, r[k]))
      && (|r| >= 1 <==> 2 <= sq.rank <= 7 && IsSquareEmpty(b, Shift(sq, d, 0)))
      && (|r| >= 1 ==> r[0] == Shift(sq, d, 0))
      && (|r| == 2 <==> |r| >= 1 && sq.rank == SecondRank(color) && IsSquareEmpty(b, Shift(sq, 2 * d, 0)))
      && (|r| == 2 ==> r[1] == Shift(sq, 2 * d, 0))
  {
  }

  /** The four rays of rook.getLegalSquares, in the order the source walks them. */
  datatype Ray = Up | Down | Right | Left

  /**
   * How many squares the source's loop for a ray visits: up runs while the rank
   * is below BoardSize (so never reaches rank 8), down while it is above 0, right
   * and left to the board's edge.
   */
  function RayLength(sq: Square, ray: Ray): (n: int)
    requires ValidSquare(sq)
  {
    match ray
    case Up => BoardSize - 1 - sq.rank
    case Down => sq.rank - 1
    case Right => BoardSize - 1 - FromFile(sq.file)
    case Left => FromFile(sq.file)
  }

  /** Rank and file offsets of the k-th square of a ray. */
  function RayOffsets(ray: Ray, k: int): (offsets: (int, int)) {
    match ray
    case Up => (k, 0)
    case Down => (-k, 0)
    case Right => (0, k)
    case Left => (0, -k)
  }

  /** The k-th square of a ray, which the loop reaches when k is at most the ray's length. */
  function RayStep(sq: Square, ray: Ray, k: int): (t: Square)
    requires ValidSquare(sq) && 1 <= k <= RayLength(sq, ray)
    ensures ValidSquare(t) && t != sq
    ensures ray == Up || ray == Down ==> t.file == sq.file
    ensures ray == Right || ray == Left ==> t.rank == sq.rank
    ensures ray == Up ==> t.rank == sq.rank + k && t.rank < BoardSize
  {
    var (rankOffset, fileOffset) := RayOffsets(ray, k);
    Shift(sq, rankOffset, fileOffset)
  }

  /** Every square of the list is on the board. */
  predicate OnBoard(path: seq<Square>) {
    forall k :: 0 <= k < |path| ==> ValidSquare(path[k])
  }

  /** The squares a ray's loop visits when nothing stops it, nearest first. */
  function RayPath(sq: Square, ray: Ray): (p: seq<Square>)
    requires ValidSquare(sq)
    ensures |p| == if RayLength(sq, ray) > 0 then RayLength(sq, ray) else 0
    ensures forall k :: 0 <= k < |p| ==> p[k] == RayStep(sq, ray, k + 1)
    ensures OnBoard(p)
  {
    if RayLength(sq, ray) <= 0 then []
    else seq(RayLength(sq, ray), k requires 0 <= k < RayLength(sq, ray) => RayStep(sq, ray, k + 1))
  }

  /**
   * A ray loop over its path: empty squares are taken and the walk goes on; a
   * piece of the other colour is taken and ends the walk; a piece of the
   * rook's own colour ends it untaken.
   */
  function Scan(b: Board, path: seq<Square>, color: Color): (r: seq<Square>)
    requires ValidBoard(b) && OnBoard(path)
    ensures |r| <= |path|
    decreases |path|
  {
    if path == [] then []
    else
      var t := path[0];
      if IsSquareEmpty(b, t) then [t] + Scan(b, path[1..], color)
      else if At(b, t).color != color then [t]
      else []
  }

  /** What a walk takes is a prefix of its path. */
  lemma {:induction false} ScanPrefix(b: Board, path: seq<Square>, color: Color)
    requires ValidBoard(b) && OnBoard(path)
    ensures var r := Scan(b, path, color); forall i :: 0 <= i < |r| ==> r[i] == path[i]
    decreases |path|
  {
    if path != [] && IsSquareEmpty(b, path[0]) {
      ScanPrefix(b, path[1..], color);
    }
  }

  /**
   * Every square taken but the last is empty, and the last is empty or holds a
   * piece of the other colour.
   */
  lemma {:induction false} ScanCells(b: Board, path: seq<Square>, color: Color)
    requires ValidBoard(b) && OnBoard(path)
    ensures var n := |Scan(b, path, color)|;
      forall i :: 0 <= i < n ==> IsSquareEmpty(b, path[i]) || (i == n - 1 && At(b, path[i]).color != color)
    decreases |path|
  {
    if path != [] && IsSquareEmpty(b, path[0]) {
      ScanCells(b, path[1..], color);
      var n := |Scan(b, path, color)|;
      forall i | 1 <= i < n
        ensures IsSquareEmpty(b, path[i]) || (i == n - 1 && At(b, path[i]).color != color)
      {
        assert path[i] == path[1..][i - 1];
      }
    }
  }

  /**
   * A walk that ends before its path does ends on a capture, or just before a
   * piece of the walker's own colour.
   */
  lemma {:induction false} ScanStops(b: Board, path: seq<Square>, color: Color)
    requires ValidBoard(b) && OnBoard(path)
    ensures var n := |Scan(b, path, color)|;
      n < |path| ==>
        (n > 0 && !IsSquareEmpty(b, path[n - 1]))
        || (!IsSquareEmpty(b, path[n]) && At(b, path[n]).color == color)
    decreases |path|
  {
    if path != [] && IsSquareEmpty(b, path[0]) {
      ScanStops(b, path[1..], color);
      var n := |Scan(b, path[1..], color)|;
      if n < |path| - 1 {
        assert path[n + 1] == path[1..][n];
        if n > 0 {
          assert path[n] == path[1..][n - 1];
        }
      }
    }
  }

  /** On an empty board a walk takes its whole path. */
  lemma {:induction false} ScanEmptyBoard(path: seq<Square>, color: Color)
    requires OnBoard(path)
    ensures Scan(EmptyBoard(), path, color) == path
    decreases |path|
  {
    if path != [] {
      ScanEmptyBoard(path[1..], color);
      assert [path[0]] + path[1..] == path;
    }
  }

  /**
   * A walk takes a stretch of empty squares at the start of its path whole and
   * goes on from the square after it.
   */
  lemma {:induction false} ScanThrough(b: Board, path: seq<Square>, color: Color, n: int)
    requires ValidBoard(b) && OnBoard(path) && 0 <= n <= |path|
    requires forall j :: 0 <= j < n ==> IsSquareEmpty(b, path[j])
    ensures Scan(b, path, color) == path[..n] + Scan(b, path[n..], color)
    decreases n
  {
    if n == 0 {
      assert path[0..] == path;
    } else {
      var tail := path[1..];
      assert IsSquareEmpty(b, path[0]);
      forall j | 0 <= j < n - 1 ensures IsSquareEmpty(b, tail[j]) {
        assert tail[j] == path[j + 1];
      }
      ScanThrough(b, tail, color, n - 1);
      assert tail[n - 1..] == path[n..];
      assert [path[0]] + tail[..n - 1] == path[..n];
      calc {
        Scan(b, path, color);
        [path[0]] + Scan(b, tail, color);
        [path[0]] + (tail[..n - 1] + Scan(b, path[n..], color));
        ([path[0]] + tail[..n - 1]) + Scan(b, path[n..], color);
      }
    }
  }

  /**
   * A walk over an empty stretch that meets a piece takes the stretch, and the
   * piece's square when the piece is of the other colour.
   */
  lemma ScanStopsAt(b: Board, path: seq<Square>, color: Color, n: int)
    requires ValidBoard(b) && OnBoard(path) && 0 <= n < |path|
    requires forall j :: 0 <= j < n ==> IsSquareEmpty(b, path[j])
    requires !IsSquareEmpty(b, path[n])
    ensures Scan(b, path, color) == path[..n] + (if At(b, path[n]).color != color then [path[n]] else [])
  {
    ScanThrough(b, path, color, n);
    assert path[n..][0] == path[n];
  }

  /**
   * One turn of a ray loop that has so far met only empty squares: when
   * appendLegalSquare on the n-th square of the path lets the loop go on, the
   * squares gathered are the path up to that square, all empty; when it stops
   * the loop, they are everything the walk takes.
   */
  lemma WalkStep(prefix: seq<Square>, squares: seq<Square>, b: Board, color: Color, path: seq<Square>, n: int,
                 sq: Square, rankOffset: int, fileOffset: int)
    requires ValidBoard(b) && OnBoard(path) && 0 <= n < |path|
    requires squares == prefix + path[..n]
    requires forall j :: 0 <= j < n ==> IsSquareEmpty(b, path[j])
    requires ValidSquare(sq) && InBoard(sq, rankOffset, fileOffset)
    requires path[n] == Shift(sq, rankOffset, fileOffset)
    ensures var res := AppendLegalSquare(squares, b, color, sq, rankOffset, fileOffset, true);
      if res.0 && !res.1 then
        && res.2 == prefix + path[..n + 1]
        && forall j :: 0 <= j <= n ==> IsSquareEmpty(b, path[j])
      else res.2 == prefix + Scan(b, path, color)
  {
    var res := AppendLegalSquare(squares, b, color, sq, rankOffset, fileOffset, true);
    if res.0 && !res.1 {
      assert path[..n + 1] == path[..n] + [path[n]];
    } else {
      ScanStopsAt(b, path, color, n);
    }
  }

  /** The squares of one ray of the rook on sq. */
  function RaySquares(b: Board, sq: Square, color: Color, ray: Ray): (r: seq<Square>)
    requires ValidBoard(b) && ValidSquare(sq)
  {
    Scan(b, RayPath(sq, ray), color)
  }

  /** rook.getLegalSquares as a value: up, down, right, left. */
  function RookSquares(b: Board, sq: Square, color: Color): (r: seq<Square>)
    requires ValidBoard(b) && ValidSquare(sq)
  {
    RaySquares(b, sq, color, Up) + RaySquares(b, sq, color, Down)
    + RaySquares(b, sq, color, Right) + RaySquares(b, sq, color, Left)
  }

  /** The i-th square of a ray is the ray's (i + 1)-th step, empty or holding a piece of the other colour. */
  lemma RayMember(b: Board, sq: Square, color: Color, ray: Ray, i: int)
    requires ValidBoard(b) && ValidSquare(sq) && 0 <= i < |RaySquares(b, sq, color, ray)|
    ensures 1 <= i + 1 <= RayLength(sq, ray)
    ensures RaySquares(b, sq, color, ray)[i] == RayStep(sq, ray, i + 1)
    ensures IsSquareEmpty(b, RayStep(sq, ray, i + 1)) || At(b, RayStep(sq, ray, i + 1)).color != color
  {
    var path := RayPath(sq, ray);
    ScanPrefix(b, path, color);
    ScanCells(b, path, color);
    assert path[i] == RayStep(sq, ray, i + 1);
  }

  /**
   * The squares of one ray keep to the rook's file (up, down) or rank (right,
   * left), differ from the rook's square, are empty or hold a piece of the
   * other colour, and the upward ray never reaches rank 8.
   */
  lemma RayMembers(b: Board, sq: Square, color: Color, ray: Ray)
    requires ValidBoard(b) && ValidSquare(sq)
    ensures forall s :: s in RaySquares(b, sq, color, ray) ==>
      && ValidSquare(s) && s != sq
      && (ray == Up || ray == Down ==> s.file == sq.file)
      && (ray == Right || ray == Left ==> s.rank == sq.rank)
      && (ray == Up ==> s.rank < BoardSize)
      && (IsSquareEmpty(b, s) || At(b, s).color != color)
  {
    var r := RaySquares(b, sq, color, ray);
    forall s | s in r
      ensures ValidSquare(s) && s != sq
      ensures ray == Up || ray == Down ==> s.file == sq.file
      ensures ray == Right || ray == Left ==> s.rank == sq.rank
      ensures ray == Up ==> s.rank < BoardSize
      ensures IsSquareEmpty(b, s) || At(b, s).color != color
    {
      var i :| 0 <= i < |r| && r[i] == s;
      RayMember(b, sq, color, ray, i);
    }
  }

  /**
   * Every rook square shares the rook's rank or file, is a different square,
   * and is empty or holds a piece of the other colour; the upward ray never
   * reaches rank 8.
   */
  lemma RookShape(b: Board, sq: Square, color: Color)
    requires ValidBoard(b) && ValidSquare(sq)
    ensures forall s :: s in RookSquares(b, sq, color) ==>
      && ValidSquare(s) && s != sq
      && (s.file == sq.file || s.rank == sq.rank)
      && (IsSquareEmpty(b, s) || At(b, s).color != color)
    ensures forall s :: s in RaySquares(b, sq, color, Up) ==> s.rank < BoardSize
  {
    RayMembers(b, sq, color, Up);
    RayMembers(b, sq, color, Down);
    RayMembers(b, sq, color, Right);
    RayMembers(b, sq, color, Left);
  }

  /** On an empty board each ray runs as far as the source's loop for it goes. */
  lemma RayOnEmptyBoard(sq: Square, color: Color, ray: Ray)
    requires ValidSquare(sq)
    ensures RaySquares(EmptyBoard(), sq, color, ray) == RayPath(sq, ray)
  {
    ScanEmptyBoard(RayPath(sq, ray), color);
  }

  /** The downward ray can reach rank 1: a rook on A8 of an empty board gets A1. */
  lemma DownRayReachesRankOne()
    ensures Square('A', 1) in RaySquares(EmptyBoard(), Square('A', 8), White, Down)
  {
    var sq := Square('A', 8);
    RayOnEmptyBoard(sq, White, Down);
    var r := RaySquares(EmptyBoard(), sq, White, Down);
    assert r[6] == RayStep(sq, Down, 7);
  }

  /** The upward ray stops at rank 7: a rook on A1 of an empty board gets A2 to A7 and no more. */
  lemma UpRayStopsBelowRankEight()
    ensures |RaySquares(EmptyBoard(), Square('A', 1), White, Up)| == 6
    ensures Square('A', 8) !in RaySquares(EmptyBoard(), Square('A', 1), White, Up)
  {
    RayOnEmptyBoard(Square('A', 1), White, Up);
    RayMembers(EmptyBoard(), Square('A', 1), White, Up);
  }

  /** rook.getLegalSquares: the four ray loops, up, down, right, left. */
  method RookLegalSquares(b: Board, sq: Square, color: Color) returns (squares: seq<Square>)
    requires ValidBoard(b) && ValidSquare(sq)
    ensures squares == RookSquares(b, sq, color)
  {
    squares := WalkUp([], b, sq, color, RayPath(sq, Up));
    assert squares == RaySquares(b, sq, color, Up);
    squares := WalkDown(squares, b, sq, color, RayPath(sq, Down));
    squares := WalkRight(squares, b, sq, color, RayPath(sq, Right));
    squares := WalkLeft(squares, b, sq, color, RayPath(sq, Left));
  }

  /**
   * The upward ray: each rank above the rook's up to rank 7 (the loop stops below BoardSize). The ghost path lists the squares the loop visits.
   */
  method WalkUp(prefix: seq<Square>, b: Board, sq: Square, color: Color, ghost path: seq<Square>)
    returns (squares: seq<Square>)
    requires ValidBoard(b) && ValidSquare(sq) && OnBoard(path)
    requires |path| == if sq.rank < BoardSize then BoardSize - 1 - sq.rank else 0
    requires forall n :: 0 <= n < |path| ==> path[n] == Shift(sq, n + 1, 0)
    ensures squares == prefix + Scan(b, path, color)
  {
    squares := prefix;
    var i := sq.rank + 1;
    while i < BoardSize
      invariant 0 <= i - sq.rank - 1 <= |path|
      invariant squares == prefix + path[..i - sq.rank - 1]
      invariant forall j :: 0 <= j < i - sq.rank - 1 ==> IsSquareEmpty(b, path[j])
    {
      assert path[i - sq.rank - 1] == Shift(sq, i - sq.rank, 0);
      WalkStep(prefix, squares, b, color, path, i - sq.rank - 1, sq, i - sq.rank, 0);
      var res := AppendLegalSquare(squares, b, color, sq, i - sq.rank, 0, true);
      var appended, willTakePiece := res.0, res.1;
      squares := res.2;
      if !appended || (appended && willTakePiece) {
        return;
      }
      i := i + 1;
    }
    ScanThrough(b, path, color, |path|);
    assert path[|path|..] == [];
  }

  /**
   * The downward ray: each rank below the rook's down to rank 1. The ghost path lists the squares the loop visits.
   */
  method WalkDown(prefix: seq<Square>, b: Board, sq: Square, color: Color, ghost path: seq<Square>)
    returns (squares: seq<Square>)
    requires ValidBoard(b) && ValidSquare(sq) && OnBoard(path)
    requires |path| == sq.rank - 1
    requires forall n :: 0 <= n < |path| ==> path[n] == Shift(sq, -(n + 1), 0)
    ensures squares == prefix + Scan(b, path, color)
  {
    squares := prefix;
    var i := sq.rank - 1;
    while i > 0
      invariant 0 <= sq.rank - i - 1 <= |path|
      invariant squares == prefix + path[..sq.rank - i - 1]
      invariant forall j :: 0 <= j < sq.rank - i - 1 ==> IsSquareEmpty(b, path[j])
    {
      assert path[sq.rank - i - 1] == Shift(sq, i - sq.rank, 0);
      WalkStep(prefix, squares, b, color, path, sq.rank - i - 1, sq, i - sq.rank, 0);
      var res := AppendLegalSquare(squares, b, color, sq, i - sq.rank, 0, true);
      var appended, willTakePiece := res.0, res.1;
      squares := res.2;
      if !appended || (appended && willTakePiece) {
        return;
      }
      i := i - 1;
    }
    ScanThrough(b, path, color, |path|);
    assert path[|path|..] == [];
  }

  /**
   * The rightward ray: each column right of the rook's up to file H. The ghost path lists the squares the loop visits.
   */
  method WalkRight(prefix: seq<Square>, b: Board, sq: Square, color: Color, ghost path: seq<Square>)
    returns (squares: seq<Square>)
    requires ValidBoard(b) && ValidSquare(sq) && OnBoard(path)
    requires |path| == BoardSize - 1 - FromFile(sq.file)
    requires forall n :: 0 <= n < |path| ==> path[n] == Shift(sq, 0, n + 1)
    ensures squares == prefix + Scan(b, path, color)
  {
    squares := prefix;
    var fileNumber := FromFile(sq.file);
    var i := fileNumber + 1;
    while i < BoardSize
      invariant 0 <= i - fileNumber - 1 <= |path|
      invariant squares == prefix + path[..i - fileNumber - 1]
      invariant forall j :: 0 <= j < i - fileNumber - 1 ==> IsSquareEmpty(b, path[j])
    {
      assert path[i - fileNumber - 1] == Shift(sq, 0, i - fileNumber);
      WalkStep(prefix, squares, b, color, path, i - fileNumber - 1, sq, 0, i - fileNumber);
      var res := AppendLegalSquare(squares, b, color, sq, 0, i - fileNumber, true);
      var appended, willTakePiece := res.0, res.1;
      squares := res.2;
      if !appended || (appended && willTakePiece) {
        return;
      }
      i := i + 1;
    }
    ScanThrough(b, path, color, |path|);
    assert path[|path|..] == [];
  }

  /**
   * The leftward ray: each column left of the rook's down to file A. The ghost path lists the squares the loop visits.
   */
  method WalkLeft(prefix: seq<Square>, b: Board, sq: Square, color: Color, ghost path: seq<Square>)
    returns (squares: seq<Square>)
    requires ValidBoard(b) && ValidSquare(sq) && OnBoard(path)
    requires |path| == FromFile(sq.file)
    requires forall n :: 0 <= n < |path| ==> path[n] == Shift(sq, 0, -(n + 1))
    ensures squares == prefix + Scan(b, path, color)
  {
    squares := prefix;
    var fileNumber := FromFile(sq.file);
    var i := fileNumber - 1;
    while i >= 0
      invariant 0 <= fileNumber - i - 1 <= |path|
      invariant squares == prefix + path[..fileNumber - i - 1]
      invariant forall j :: 0 <= j < fileNumber - i - 1 ==> IsSquareEmpty(b, path[j])
    {
      assert path[fileNumber - i - 1] == Shift(sq, 0, i - fileNumber);
      WalkStep(prefix, squares, b, color, path, fileNumber - i - 1, sq, 0, i - fileNumber);
      var res := AppendLegalSquare(squares, b, color, sq, 0, i - fileNumber, true);
      var appended, willTakePiece := res.0, res.1;
      squares := res.2;
      if !appended || (appended && willTakePiece) {
        return;
      }
      i := i - 1;
    }
    ScanThrough(b, path, color, |path|);
    assert path[|path|..] == [];
  }

  /**
   * getLegalSquares of a board occupant, dispatched on its kind. The moved flag
   * board.go passes as a fourth argument plays no part; the knight, bishop,
   * queen and king generators of pieces.go return the empty list.
   */
  function LegalSquares(b: Board, sq: Square, p: Occupant): (squares: seq<Square>)
    requires ValidBoard(b) && ValidSquare(sq) && p.Piece?
  {
    match p.kind
    case Pawn => PawnSquares(b, sq, p.color)
    case Rook => RookSquares(b, sq, p.color)
    case Knight => []
    case Bishop => []
    case Queen => []
    case King => []
  }

  /** The same dispatch, running the rook's loops. */
  method GetLegalSquares(b: Board, sq: Square, p: Occupant) returns (squares: seq<Square>)
    requires ValidBoard(b) && ValidSquare(sq) && p.Piece?
    ensures squares == LegalSquares(b, sq, p)
  {
    if p.kind == Rook {
      squares := RookLegalSquares(b, sq, p.color);
    } else {
      squares := LegalSquares(b, sq, p);
    }
  }

  /** Only pawns and rooks ever have squares to go to. */
  lemma OnlyPawnsAndRooksMove(b: Board, sq: Square, p: Occupant)
    requires ValidBoard(b) && ValidSquare(sq) && p.Piece?
    requires p.kind != Pawn && p.kind != Rook
    ensures LegalSquares(b, sq, p) == []
  {
  }

  /**
   * Every generated square is on the board, differs from the origin and is
   * empty or holds a piece of the other colour; a pawn's squares are all empty.
   */
  lemma LegalSquaresShape(b: Board, sq: Square, p: Occupant)
    requires ValidBoard(b) && ValidSquare(sq) && p.Piece?
    ensures forall s :: s in LegalSquares(b, sq, p) ==>
      && ValidSquare(s) && s != sq
      && (IsSquareEmpty(b, s) || (At(b, s).color != p.color && p.kind == Rook))
  {
    if p.kind == Pawn {
      PawnShape(b, sq, p.color);
    } else if p.kind == Rook {
      RookShape(b, sq, p.color);
    }
  }
}

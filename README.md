# GoChess position engine in Dafny

This project models the position engine of a small Go chess program. The model covers:

- the 8×8 board and its coordinates (file letters `A`–`H`, ranks 1–8, row = 8 − rank);
- square geometry: equality, adjacency and the squares strictly between two squares;
- setting up, clearing and moving pieces on the board in place, including the rook's relocation when a king castles;
- the pseudo-legal move generators of the six piece kinds;
- the attack query `isSquareEnPrise`, the check test and the ordered checkmate decision;
- the helpers `minOf` and `maxOf`, and the two main-program helpers `isMoveLegal` and `switchColor`.

The model follows the code as written, including the places where it departs from chess. Only the pawn and the rook generate moves. The pawn never captures. The rook's upward ray stops at rank 7. The `moved` flag is never set on the board. The king-takes test looks at the board before the move, so its destination plays no part. The diagonal between-squares are correct only when walking upwards from `sq1`. Lemmas state each of these outright.

## Structure

- `utils.dfy` (module `Utils`) holds `minOf`/`maxOf` as loops over a non-empty sequence.
- `grid.dfy` (module `Grid`) holds colours, kinds, occupants, squares and the board value `seq<seq<Occupant>>`. It also has the coordinate conversions, adjacency, `getSquaresBetween` (a function plus the looping method proved equal to it) and `areEmptySquaresBetween`. It ends with `Includes`, the rank-and-file search over a square list that several loops of the source repeat.
- `pieces.dfy` (module `Pieces`) holds `getName`, `String`, `appendLegalSquare` and the pawn generator. The rook generator comes twice: as a function over ray paths and as the four `break`-terminated loops, which are proved equal to it. The four generators that are always empty are here too.
- `position.dfy` (module `Position`) holds the functional `MoveF` / `RookMoveF` (`movePiece` / `moveCastledRook` on a board value, mutually recursive) with their lemmas. It also has the class `ChessBoard` over an `array2<Occupant>`, whose methods `init`, `clear`, `initPawns`, `initPieces`, `setSquareEmpty`, `movePiece` and `moveCastledRook` update the array in place. Each method is proved to produce the corresponding functional board.
- `check.dfy` (module `Check`) holds the attack, check and checkmate queries. Each query is a function on the board value. Each of the source's nested loops is a method proved to compute that function.
- `game.dfy` (module `Game`) holds `isMoveLegal` and `switchColor`.
- `scenarios.dfy` (module `Scenarios`) holds concrete positions taken from the repository's tests: the move counts of pawns and rooks, and the starting position not being check.

The board is visited in row-major order, row 0 (rank 8) first, as the source's loops do. Cell `n` is row `n / 8`, column `n % 8`. The what-if boards of the source (`tempBoard := b`, a Go array value copy) are board values passed to `MoveF`.

## Model

| member | source | states |
|---|---|---|
| Utils.MinOf | utils.go:3-13 | needs a non-empty input; returns an element of the input that is ≤ every element |
| Utils.MaxOf | utils.go:15-25 | needs a non-empty input; returns an element of the input that is ≥ every element |
| Grid.FromFile | board.go:358-360 | the column index lies in −1..7 and is −1 exactly for a letter outside `A`–`H` |
| Grid.FromFileIsIndex | board.go:358-360 | the column index is `strings.Index` on `"ABCDEFGH"`: −1 for a letter not in it, else the first position holding it |
| Grid.ToFile | board.go:362-364 | for a column 0..7 the letter is a file letter whose column index is that column |
| Grid.ToFileIsSlice | board.go:362-364 | the letter is the one-character slice `Files[i:i+1]` |
| Grid.FileRoundTrip | board.go:358-364 | `fromFileStr(toFileStr(i)) == i` for 0 ≤ i < 8 |
| Grid.SquareForRowCol | board.go:354-356 | a row and column on the board give a square on the board |
| Grid.RowColForSquare | board.go:350-352 | a square gives row 8 − rank and the index of its file; the round-trip lemmas below state that it inverts `SquareForRowCol` on the board |
| Grid.RowColRoundTrip | board.go:350-356 | `getRowColForSquare(getSquareForRowCol(r, c)) == (r, c)` on the board |
| Grid.SquareRoundTrip | board.go:350-356 | a square on the board round-trips through its row and column |
| Grid.IsRowColEmpty | board.go:57-59 | true exactly when the cell holds the zero occupant `Empty` |
| Grid.IsSquareEmpty | board.go:53-55 | true exactly when the cell at the square's row and column is empty |
| Grid.GetPieceAt | board.go:61-68 | an error exactly when the square is empty, otherwise the piece standing there |
| Grid.AreSquaresEqual | board.go:70-72 | true exactly when file and rank agree, i.e. the squares are equal |
| Grid.Abs | board.go:75-76 | the absolute value: non-negative and ±x (the source's `math.Abs` on small integers) |
| Grid.AreSquaresAdjacent | board.go:74-77 | both the rank distance and the column distance are at most one, equal squares included; `AdjacentIff`, `AdjacentSymmetric` and `AdjacentExamples` state this |
| Grid.AdjacentIff | board.go:74-77 | adjacent exactly when the rank distance and the file distance are both at most 1 |
| Grid.AdjacentSymmetric | board.go:74-77 | adjacency is symmetric |
| Grid.AdjacentExamples | board.go:74-77 | vertical, horizontal and diagonal neighbours and a square with itself are adjacent; A2 and A4 are not |
| Grid.SquaresBetween | board.go:79-116 | every square listed between two board squares is on the board |
| Grid.VerticalBetween | board.go:90-94 | rank distance − 1 squares on sq1's file, ranks increasing from just above the lower rank |
| Grid.HorizontalBetween | board.go:95-99 | file distance − 1 squares on sq1's rank, columns increasing from just right of the lower column |
| Grid.DiagonalBetween | board.go:100-112 | rank distance − 1 squares, ranks increasing, columns walking from sq1's column towards sq2's |
| Grid.GetSquaresBetween | board.go:79-116 | the looping method returns exactly `SquaresBetween` |
| Grid.AppendVertical | board.go:90-94 | the vertical loop appends exactly `VerticalBetween` |
| Grid.AppendHorizontal | board.go:95-99 | the horizontal loop appends exactly `HorizontalBetween` |
| Grid.AppendDiagonal | board.go:100-112 | the diagonal loop appends exactly `DiagonalBetween` |
| Grid.BetweenValid | board.go:79-116 | every listed square is on the board |
| Grid.BetweenEmptyCases | board.go:81-83 | nothing lies between equal squares, adjacent squares or squares on no common line |
| Grid.BetweenVertical | board.go:90-94 | on a common file: exactly the squares of that file with rank strictly between, |Δrank| − 1 of them, in increasing rank order |
| Grid.BetweenHorizontal | board.go:95-99 | on a common rank: exactly the squares of that rank with file strictly between, |Δfile| − 1 of them, in increasing file order |
| Grid.BetweenDiagonal | board.go:100-112 | on a diagonal: |Δrank| − 1 squares with ranks strictly between, in increasing order, and on the connecting diagonal when sq1.rank < sq2.rank |
| Grid.BetweenDiagonalDownward | board.go:100-112 | from A4 to D1 the code lists B2 and C3, and B2 is not on A4's diagonal |
| Grid.BetweenExamples | board.go:79-116 | A2–A6 has 3 squares between, A2–D2 has 2, A1–H8 has 6, A1–H7 and A1–A1 have none |
| Grid.AreEmptySquaresBetween | board.go:118-131 | false when nothing is between; otherwise true exactly when every listed square is empty |
| Grid.Includes | board.go:259-264 | the search reports true exactly when the square, compared by rank and file, is in the list |
| Pieces.Name | pieces.go:17-22 | each kind's name is one letter |
| Pieces.NameInjective | pieces.go:17-22 | different kinds have different names (P, R, N, B, Q, K) |
| Pieces.PieceString | pieces.go:130-132 | the two-letter text is the colour letter followed by the kind's name |
| Pieces.PieceStringInjective | pieces.go:130-132 | the text determines the colour and the kind |
| Pieces.Shift | pieces.go:112 | the offset square is on the board, offset by exactly the rank and column offsets |
| Pieces.AppendLegalSquare | pieces.go:111-123 | appended exactly when the offset square is empty or holds the other colour and captures are allowed; a capture exactly when appended onto an occupied square; the list grows by that one square exactly when appended |
| Pieces.PawnSquares | pieces.go:24-49 | the single step from ranks 2 to 7 onto an empty square, then the double step from the second rank when the single one was offered; `PawnShape` and the scenario counts state what it yields |
| Pieces.PawnShape | pieces.go:24-49 | at most 2 squares, all empty and on the pawn's file; the single step exists exactly from ranks 2–7 onto an empty square; the double step exists exactly after it from the second rank onto an empty square (direction +1/rank 2 for white, −1/rank 7 for black) |
| Pieces.RayStep | pieces.go:55-86 | a ray's k-th square is on the board, differs from the rook's square and stays on its file or rank; the upward ray stays below BoardSize |
| Pieces.RayPath | pieces.go:55-86 | a ray's path has the length the source's loop bounds give, its k-th entry being the k-th step |
| Pieces.ScanCells | pieces.go:56-60 | every square a ray takes is empty, except that the last may hold a piece of the other colour |
| Pieces.ScanStops | pieces.go:56-60 | a ray ends early only on a capture or just before a piece of the rook's own colour |
| Pieces.ScanEmptyBoard | pieces.go:111-115 | on an empty board a ray takes its whole path |
| Pieces.RayMembers | pieces.go:51-89 | every square of a ray is on the board, not the rook's square, on its file (vertical) or rank (horizontal), below rank 8 (up), and empty or of the other colour |
| Pieces.RookSquares | pieces.go:51-89 | the up, down, right and left ray scans concatenated in that order; `RookShape` states the squares' shape and `RookLegalSquares` ties the source's loops to it |
| Pieces.RookShape | pieces.go:51-89 | every rook square shares its rank or file, is empty or holds the other colour, and the upward ray never reaches rank 8 |
| Pieces.RayOnEmptyBoard | pieces.go:51-89 | on an empty board each ray is its full path |
| Pieces.DownRayReachesRankOne | pieces.go:63-69 | the downward ray from A8 reaches A1 |
| Pieces.UpRayStopsBelowRankEight | pieces.go:55-61 | the upward ray from A1 on an empty board has 6 squares and misses A8 |
| Pieces.RookLegalSquares | pieces.go:51-89 | the four `break`-terminated loops return exactly `RookSquares` |
| Pieces.WalkUp | pieces.go:55-61 | the upward loop appends exactly the scan of the upward path |
| Pieces.WalkDown | pieces.go:63-69 | the downward loop appends exactly the scan of the downward path |
| Pieces.WalkRight | pieces.go:71-78 | the rightward loop appends exactly the scan of the rightward path |
| Pieces.WalkLeft | pieces.go:80-86 | the leftward loop appends exactly the scan of the leftward path |
| Pieces.LegalSquares | pieces.go:24-109 | the pawn and rook generators by kind, nothing for the other four kinds; `OnlyPawnsAndRooksMove` and `LegalSquaresShape` state this |
| Pieces.GetLegalSquares | pieces.go:24-109 | the dispatch on the kind returns exactly `LegalSquares` |
| Pieces.OnlyPawnsAndRooksMove | pieces.go:91-109 | knights, bishops, queens and kings generate no squares |
| Pieces.LegalSquaresShape | pieces.go:24-123 | every generated square is on the board, differs from the origin, and is empty or (for a rook only) holds the other colour |
| Position.SetCell | board.go:164-166 | the board stays 8×8, the one cell changes and every other cell is unchanged |
| Position.BackRank | board.go:42-51 | eight unmoved pieces of the colour, with the king in column 4 only |
| Position.PawnRank | board.go:35-40 | eight unmoved pawns of the colour |
| Position.InitialBoard | board.go:20-25 | the starting position is an 8×8 board |
| Position.MoveF | board.go:133-162 | a move on a board value gives an 8×8 board |
| Position.RookMoveF | board.go:150-162 | the castled rook's move on a board value gives an 8×8 board |
| Position.IsCastling | board.go:146-148 | a king moved exactly two columns; `MoveSimple` and `MoveCastles` state the board each case yields |
| Position.MoveSimple | board.go:133-144 | without castling, `to` holds the former `from` occupant with its moved flag unchanged, `from` is empty and every other cell is unchanged |
| Position.MoveOntoItself | board.go:133-139 | moving a square onto itself empties it |
| Position.MoveCastles | board.go:141-162 | when a king moves two columns, on its row or onto another, and neither starts in nor lands on the corner column 7 (when its new column is > 4, else column 0) of its starting row, and no king stands there: the king lands on the destination, the occupant of that corner moves to the new column − 1 (or + 1) on the starting row, the two vacated cells are empty and every other cell is unchanged |
| Position.CastleOffRank | board.go:141-162 | a king moved E1 to G2 takes the H1 rook to F1 |
| Position.MoveRoundTrip | board.go:133-144 | a non-castling move onto an empty square is undone by the move back |
| Position.InitialNoneMoved | board.go:20-51 | no piece of the starting position is marked moved |
| Position.MoveKeepsNoneMoved | board.go:136-139 | moves never set the moved flag on the board, even with castling |
| Position.RookMoveKeepsNoneMoved | board.go:150-162 | the castled rook's move never sets the moved flag either |
| Position.ChessBoard.Cells | board.go:18 | the board value read off the array, cell by cell |
| Position.ChessBoard.constructor | board.go:18 | a fresh board is empty |
| Position.ChessBoard.SetSquareEmpty | board.go:164-166 | the new board is the old one with that cell emptied |
| Position.ChessBoard.Clear | board.go:27-33 | the new board is empty |
| Position.ChessBoard.InitPawns | board.go:35-40 | row 1 becomes black pawns and row 6 white pawns, the rest is unchanged |
| Position.ChessBoard.InitPieces | board.go:42-51 | the row becomes the colour's back rank, the rest is unchanged |
| Position.ChessBoard.Init | board.go:20-25 | the new board is the starting position |
| Position.ChessBoard.MovePiece | board.go:133-144 | the new board is `MoveF` of the old one |
| Position.ChessBoard.MoveCastledRook | board.go:150-162 | the new board is `RookMoveF` of the old one |
| Check.CellSquareOfIndex | board.go:350-356 | a square's row-major cell number leads back to the square |
| Check.MarkedSpec | board.go:251-268 | the collected list holds a cell exactly when it is marked, each once, in increasing row-major order |
| Check.Attackers | board.go:248-275 | the squares, in row-major order, of the pieces not of `color` that can take the target; `MarkedSpec` and `AttackersIff` state this |
| Check.AttackersIff | board.go:252-268 | a square is listed as taking the target exactly when it holds a piece of the other colour whose generated squares include the target |
| Check.AttackersOfOccupiedAreRooks | board.go:252-268 | a piece standing on the target can only be taken by rooks of the colour opposite to it and to `color` |
| Check.CellTakes | board.go:254-264 | one cell of the scan: true exactly when that cell's piece takes the target |
| Check.IsSquareEnPrise | board.go:248-275 | the list is exactly the taking squares in row-major order, and the flag is true exactly when the list is non-empty |
| Check.FirstKing | board.go:305-315 | the first king of the colour from cell n on, and none before it |
| Check.KingSquare | board.go:305-318 | the first king of the colour in row-major order, or `NotFound`, as `KingSquareSpec` states |
| Check.KingSquareSpec | board.go:305-318 | NotFound exactly when the colour has no king; otherwise the square of the first such king in row-major order |
| Check.GetSquareForPiece | board.go:305-318 | the nested loops return exactly `KingSquare`, whatever the name argument |
| Check.InCheck | board.go:168-174 | some square takes the colour's king square; `CheckersAreRooks` and `NoKingNoCheck` state what check then implies |
| Check.IsKingInCheck | board.go:168-174 | the checking list is the list of squares taking the king's square, and the flag says it is non-empty |
| Check.NoKingNoCheck | board.go:168-174 | without a king of the colour, there is no check |
| Check.CheckersAreRooks | board.go:168-174 | in check, the king exists and stands on its square, and every checker is a rook of the other colour |
| Check.KingCanMoveOutOfCheck | board.go:277-291 | true exactly when some square generated for the king with colour `color` (the argument, as line 278 passes it), after the move on a copy, leaves the king out of check |
| Check.KingCannotMove | pieces.go:106-109 | the king generates no squares |
| Check.KingTakesIntoCheck | board.go:293-303 | the taker is a king and the board before the capture is in check for its colour; `KingTakesIgnoresDestination` and `TakerIsNeverKing` state its consequences |
| Check.TakingPieceIsKingMovingToCheck | board.go:293-303 | true exactly when the taker is a king and the original board (not the copy after the move) is in check for its colour |
| Check.KingTakesIgnoresDestination | board.go:293-303 | the verdict is the same whatever square is taken on |
| Check.TakerIsNeverKing | board.go:293-303 | no square taking a target holds a king, so this test is false for every taker |
| Check.BlockVerdict | board.go:207-245 | returns one of the five blocking-stage reasons; the mate flag is true exactly when the verdict is not a block; a block exactly when there is one non-knight, non-adjacent checker and some own non-king piece reaches a square between it and the king |
| Check.CellBlocks | board.go:230-238 | one cell of the block scan: true exactly when an own non-king piece there reaches the square |
| Check.BlockerBeforeIff | board.go:228-242 | the cells scanned so far hold a blocker exactly when one of them blocks |
| Check.FindBlocker | board.go:227-243 | the four nested loops find a blocker exactly when some own non-king piece reaches a listed square |
| Check.Checkmate | board.go:176-246 | the verdict and reason of the first return the source reaches; `CheckmateIff`, `ReasonDecidesMate` and `NotInCheckReason` state them in closed form |
| Check.IsKingInCheckMate | board.go:176-246 | the method returns exactly the verdict and reason of `Checkmate`, the ordered decision of the source |
| Check.JudgeBlock | board.go:207-245 | the method's tail returns exactly `BlockVerdict` |
| Check.NotInCheckReason | board.go:177-181 | the reason is "not in check" exactly when the king is not in check, and then there is no mate |
| Check.ReasonDecidesMate | board.go:176-246 | mate exactly for the reasons several checkers, knight checker, adjacent checker and cannot take or block |
| Check.KingNeverMoves | board.go:193-196 | the "king can move" exit is never taken, since kings generate no squares |
| Check.KnightNeverChecks | board.go:213-217 | the knight exit is never taken, since every checker is a rook |
| Check.CheckerTakeableIff | board.go:198-205 | the checker can be taken exactly when some square takes it, since a king is never the taker |
| Check.CheckmateIff | board.go:176-246 | mate exactly when in check, a single checker cannot be taken, and there are several checkers, or the checker is adjacent, or no own non-king piece reaches a square between |
| Game.MoveLegal | main.go:91-100 | the destination is among the generated squares; `LegalMoveShape` and `OnlyPawnsAndRooksHaveLegalMoves` state its consequences |
| Game.IsMoveLegal | main.go:91-100 | true exactly when the destination is among the piece's generated squares; false whenever there are none |
| Game.LegalMoveShape | main.go:91-100 | a legal destination is on the board, not the origin, and empty or (rook only) of the other colour |
| Game.OnlyPawnsAndRooksHaveLegalMoves | main.go:91-100 | only pawns and rooks have legal moves |
| Game.SwitchColor | main.go:102-108 | the result is `"W"` or `"B"`, and `"B"` exactly for `"W"` |
| Game.SwitchColorIsOpposite | main.go:102-108 | on the colour strings the switch gives the opposite colour |
| Game.SwitchColorInvolution | main.go:102-108 | switching twice returns `"W"` and `"B"` unchanged |
| Scenarios.RookOnB4 | pieces_test.go:80 | the starting position with the A1 rook moved to B4 is a board |
| Scenarios.PawnOnH5 | pieces_test.go:91 | the starting position with the H7 pawn moved to H5 is a board |
| Scenarios.PawnCounts | pieces_test.go:16-46 | in the starting position the E2 and E7 pawns have two squares each, and pawns placed on E3 and E6 have one |
| Scenarios.BlockedPawn | pieces_test.go:48-55 | with a piece moved from E7 to E3, the E2 pawn has no square |
| Scenarios.CornerRookBoxedIn | pieces_test.go:68-74 | a corner rook of the starting position, blocked by its own pawn and knight, has no square |
| Scenarios.CornerRooksBoxedIn | pieces_test.go:68-74 | the four rooks of the starting position have no square |
| Scenarios.RookOnB4Up | pieces_test.go:76-77 | above B4 the rook has exactly B5, B6 and B7, and B7 holds the black pawn it takes |
| Scenarios.RookOnB4Down | pieces_test.go:76-78 | below B4 the rook has exactly B3, and the white pawn on B2 stops it |
| Scenarios.RookOnB4Rank | pieces_test.go:76-79 | along rank 4 the rook gets its whole path each way, six squares to the right and one to the left |
| Scenarios.RookOnB4Squares | pieces_test.go:76-86 | a white rook moved from A1 to B4 has 11 squares |
| Scenarios.RookOnH8Squares | pieces_test.go:89-97 | after H7 to H5, the black H8 rook has exactly the squares H7 and H6 |
| Scenarios.InitialRooks | board.go:42-51 | the only rooks of the starting position stand on A1, H1, A8 and H8 |
| Scenarios.InitialNotInCheck | board_test.go:82-91 | neither colour is in check in the starting position |

## Left out

- Console output: `board.print` and `printRankSeparator` write to the terminal.
- The interactive loop `main` and the input parser `getSquareFromInput` are standard input handling built on library calls (`strconv.Atoi`, `strings.ToUpper`, `utf8`). As written, `main` also uses the two-result `isKingInCheckMate` as a single boolean.
- Occupant type: `board.go` stores a `gamePiece{color, piece, moved}` that board.go, pieces.go, main.go and utils.go never declare, and it calls a four-argument `getLegalSquares`. The model has one occupant record `Piece(color, kind, moved)` plus `Empty` (the zero `gamePiece{}`). Generation ignores `moved`, as the three-argument generators of `pieces.go` do.
- Colours are the enum `White`/`Black` inside the board. The source's colour strings appear only in `ColorName`, `PieceString` and `SwitchColor`, which takes any string as `switchColor` does.
- Files are one character rather than a one-letter Go string. `fromFileStr` of an empty or longer string (`strings.Index` semantics on such strings) is not modelled. The square `square{}` that `getSquareForPiece` returns without a king is `Square(' ', 0)`.
- Out-of-range coordinates: `toFileStr` panics and array indexing fails outside 0..7. The model makes in-range squares, rows and columns a precondition instead.
- Grid.GetPieceAt: the source returns `gamePiece{}` with an error for an empty square; the model returns `Err(NotFound)` and no piece.
- Pieces.Name: calling `getName` on the empty occupant would panic in Go (a nil interface), so the model defines names on kinds only.
- Reason strings: the messages of `isKingInCheckMate` and the `fmt.Errorf` text of `getSquareForPiece` are the `Reason` tags and the `NotFound` error. The blocking message, which names the blocking piece and its square, is the tag `CanBlock` without those details.
- `math.Abs(float64(...))` is modelled as integer absolute value; its arguments are small integers, so nothing is lost.
- Check.CellTakes, Check.CellBlocks, Check.FindBlocker, Check.JudgeBlock, Grid.Includes: the source writes these loops inline inside `isSquareEnPrise`, `isKingInCheckMate` and `isMoveLegal`. The model gives them their own methods so that each loop is proved once. The order of the search, the early `return` and the `break` are kept.
- Check.KingCanMoveOutOfCheck, Check.TakingPieceIsKingMovingToCheck: the `tempBoard := b` copies are board values given to `MoveF`. The in-place `movePiece` on a copy is the same function, by `ChessBoard.MovePiece`'s contract.
- Position.MoveCastles: the cases it excludes (the king starting in the corner column, landing on the corner of its starting row, or a king standing in that corner) make the rook move a second castling or move the king itself; `MoveF` still models them as the source does, but no lemma describes their outcome.
- Position.MoveF, Position.RookMoveF, Position.ChessBoard.MovePiece, Position.ChessBoard.MoveCastledRook: `isCastling` calls `getName` on the moved occupant (board.go:141, 147), so the source panics when the origin square, or the castling corner, is empty. The model moves `Empty` and carries on.
- Check.TakingPieceIsKingMovingToCheck: `getName` on an empty taking square (board.go:294-295) would panic; the model answers false.
- Rules the code does not contain are not invented: knight, bishop, queen and king moves, pawn captures, en passant, promotion, castling generation and a move counter. Test expectations that the code contradicts (bishop and queen move counts, a queen check, checkmate scenarios) are not proved.

# Xiangqi engine core in Dafny

This project models the core of a Chinese chess (Xiangqi) engine written in
Rust, and proves properties of that model. It covers:

- the board: a 9 × 10 grid of pieces with cached king squares, a Zobrist hash,
  a 64-bit bitboard mirror and a result cache;
- the move rules of the seven piece kinds, check, move safety, checkmate and
  stalemate;
- the game manager (`Ruler`): it creates games, seats players, plays and
  takes back moves, and settles the game status after a move;
- the command language: a lexer and a recursive-descent parser produce an
  AST, and `Engine` runs the AST against the game manager and renders an
  `EngineResult` as text;
- the second, word-based command parser (`CommandParser` in
  `src/parser/mod.rs`).

Each source file takes its own form in the model:

- Objects whose methods update their fields are classes:
  - `Board` keeps its grid in an `array` of 90 squares, indexed file × 10 + rank;
  - `Bitboard`, `BoardCache`, `Game`, `Ruler`, `Lexer`, `Parser` and `Engine`
    are classes too.
- Each such method is proved against a specification function over values:
  - `Rules` holds the move rules, check, `AfterMove`, `AfterSet`, `MoveSafe`,
    checkmate and stalemate;
  - `GameRules` holds `Join`, `Move` and `Undo` over a `GameView`;
  - `Lexers` holds `Scan`, `StepAt` and `Tokens`;
  - `Parsers` holds `ParseAt` over the token stream.
- The lemmas about those functions live in `rule_facts.dfy`, `move_facts.dfy`,
  `game_rules.dfy`, `lexer_facts.dfy` and `parser_facts.dfy`.
- The purely functional parts are functions and lemmas:
  - the word-based parser (`Commands`);
  - the Zobrist hash (`Zobrist`);
  - the rendering of results (`Engines.Render`).

Representation choices:

- A `u64` bitboard mask and a `u64` Zobrist value are each a `seq<bool>` of
  length 64, with bit i at index i. Bitwise OR, AND-NOT and XOR are then
  pointwise.
- `Position` keeps the source's packed byte, `(x << 4) | y` truncated to 8
  bits. `x()` and `y()` are its high and low nibble, so `New(16, 0)` equals
  `New(0, 0)` (`Positions.FileSixteenWraps`).
- Every random Zobrist table is a parameter `z` that satisfies `z.Valid()`.
  This covers the ones drawn by `Board::new` and by `Ruler::create_game`.

## Model

| member | source | states |
|---|---|---|
| Pieces.Default | src/core/piece.rs:31-37 | the default piece has kind None and colour None |
| Pieces.TypeIndex | src/core/piece.rs:42-53 | the table index of a piece kind is below 8, and it is 7 exactly for None |
| Pieces.ColorIndex | src/core/piece.rs:57-63 | the table index of a colour is below 3: 0 exactly for None, 1 exactly for Red |
| Pieces.TypeAt | src/core/piece.rs:42-53 | every index below 8 is the index of some piece kind (the inverse of the kind index) |
| Pieces.ColorAt | src/core/piece.rs:57-63 | every index below 3 is the index of some colour (the inverse of the colour index) |
| Pieces.TypeIndexInjective | src/core/piece.rs:42-53 | distinct piece kinds have distinct table indexes |
| Pieces.ColorIndexInjective | src/core/piece.rs:57-63 | distinct colours have distinct table indexes |
| Pieces.Opponent | src/core/ruler.rs:161-165 | the opponent of Red or Black is a real colour and differs from it |
| Positions.New | src/core/position.rs:9-11 | for a file and rank below 16 the packed byte is 16·x + y, and x() and y() give them back |
| Positions.NewIsOr | src/core/position.rs:9-11 | the packed byte is always the bitwise OR of (x·16 mod 256) and y |
| Positions.PackFacts | src/core/position.rs:9-11 | that OR fits in a byte, and for y < 16 it is 16·(x mod 16) + y |
| Positions.Position.X | src/core/position.rs:13-15 | the file read from the packed byte is below 16 |
| Positions.Position.Y | src/core/position.rs:17-19 | the rank read from the packed byte is below 16 |
| Positions.NewInjective | src/core/position.rs:9-19 | for nibble-sized parts, two positions are equal exactly when their files and ranks are |
| Positions.NewValid | src/core/position.rs:21-23 | for nibble-sized parts, is_valid holds exactly when x < 9 and y < 10 |
| Positions.NewOfParts | src/core/position.rs:9-19 | building a position from its own x() and y() gives it back |
| Positions.NewDropsHighFileBits | src/core/position.rs:9-11 | the shift drops the file's high bits: New(x, y) == New(x mod 16, y) |
| Positions.NewRankOverflow | src/core/position.rs:9-19 | a rank of 16 or more spills into the file: x() is x OR (y / 16) and y() is y mod 16 |
| Positions.FileSixteenWraps | src/core/position.rs:9-11 | file 16 wraps to file 0 |
| Positions.BitOrDisjoint | src/core/position.rs:9-11 | OR of a multiple of 2^n with a number below 2^n is their sum |
| Positions.BitOrBound | src/core/position.rs:9-11 | OR of two numbers below 2^n is below 2^n |
| Grids.Cell | src/core/board.rs:127-133 | the flat index of a square is below 90, and its quotient and remainder by 10 are the file and the rank |
| Grids.PosOf | src/core/board.rs:115-117 | the position of a flat index is valid, and its file and rank are the quotient and remainder by 10 |
| Grids.GetPiece | src/core/board.rs:127-133 | get_piece gives the default piece off the board and the stored square on it |
| Grids.Place | src/core/board.rs:135-140 | after writing a valid square it holds the piece and every other square is unchanged; writing off the board changes nothing |
| Grids.CellInjective | src/core/board.rs:127-133 | distinct valid positions occupy distinct squares |
| Bitboards.PosToIndex | src/core/bitboard.rs:47-49 | the bit index x + 9y of a valid position is below 90 |
| Bitboards.IndexToPos | src/core/bitboard.rs:52-54 | for an index below 90 the position is valid, with file index mod 9 and rank index / 9 |
| Bitboards.IndexToPosRoundTrip | src/core/bitboard.rs:47-54 | index_to_pos inverts pos_to_index on valid positions |
| Bitboards.SlotsAgree | src/core/bitboard.rs:72-88 | the bitboard's own kind and colour slot tables agree with the piece index tables |
| Bitboards.BlackPalaceHasNoBit | src/core/bitboard.rs:35-43 | no black palace square has an index below 64, so the black palace mask stays empty |
| Bitboards.Bitboard.constructor | src/core/bitboard.rs:14-20 | a new bitboard has all kind, colour and palace masks empty |
| Bitboards.Bitboard.Clone | src/core/bitboard.rs:4-9 | the derived clone is a fresh bitboard with its own three arrays, holding the same kind, colour and palace masks |
| Bitboards.Bitboard.Reset | src/core/bitboard.rs:14-20 | re-initialising empties every mask |
| Bitboards.Bitboard.InitSpecialPositions | src/core/bitboard.rs:24-44 | every palace bit is ORed with membership in the red or black palace rectangle, where the bit index is below 64 |
| Bitboards.Bitboard.OrRectangle | src/core/bitboard.rs:26-33 | one palace loop ORs exactly the bits of its file and rank rectangle into its own mask and leaves the other mask alone |
| Bitboards.Bitboard.SetPiece | src/core/bitboard.rs:57-92 | the kind and colour masks become SetKind/SetColor of the old masks: the square's bit is cleared everywhere, then set for a non-empty piece |
| Bitboards.Bitboard.HasPiece | src/core/bitboard.rs:95-115 | has_piece reads bit x + 9y of kind mask t, false for a bit index of 64 or more; on masks that mirror the grid it agrees with the grid (MirrorHasPiece) |
| Bitboards.Bitboard.HasColor | src/core/bitboard.rs:118-133 | has_color reads bit x + 9y of colour mask c, false for a bit index of 64 or more; on mirroring masks it agrees with the grid (MirrorHasColor) |
| Bitboards.Bitboard.IsInPalace | src/core/bitboard.rs:136-151 | is_in_palace reads bit x + 9y of the palace mask of c; its exact extent is PalaceExact |
| Bitboards.KindMasks | src/core/bitboard.rs:6 | bit i of kind mask k is set exactly when index i's square holds a non-empty piece of kind k |
| Bitboards.ColorMasks | src/core/bitboard.rs:7 | bit i of colour mask k is set exactly when index i's square holds a non-empty piece of colour k |
| Bitboards.PalaceMasks | src/core/bitboard.rs:24-44 | the palace masks have exactly the palace squares' bits set |
| Bitboards.MirrorHasPiece | src/core/bitboard.rs:95-115 | on masks that mirror the grid, has_piece answers exactly whether the square holds that kind |
| Bitboards.MirrorHasColor | src/core/bitboard.rs:118-133 | on masks that mirror the grid, has_color answers exactly whether the square holds a piece of that colour |
| Bitboards.QueriesBeyondBits | src/core/bitboard.rs:95-151 | for a bit index of 64 or more, has_piece, has_color and is_in_palace are false |
| Bitboards.PalaceExact | src/core/bitboard.rs:136-151 | is_in_palace holds for Red exactly on files 3–5 of ranks 0–2, never for Black (its bits are beyond 64) and never for None |
| Bitboards.KindMasksPlace | src/core/bitboard.rs:57-92 | the kind masks of a grid with one square written are SetKind of the old masks |
| Bitboards.ColorMasksPlace | src/core/bitboard.rs:57-92 | the colour masks of a grid with one square written are SetColor of the old masks |
| Bitboards.CellOfBit | src/core/bitboard.rs:47-49 | bit i names a valid position's square exactly when i is its bit index |
| Zobrist.Xor | src/core/zobrist.rs:47 | XOR of two 64-bit words is pointwise inequality |
| Zobrist.XorZero | src/core/zobrist.rs:35 | zero is the XOR identity |
| Zobrist.XorCancel | src/core/zobrist.rs:56-77 | XOR-ing the same word twice cancels |
| Zobrist.Calculate | src/core/zobrist.rs:34-54 | the scan over files and ranks returns Hash: the XOR of the table entries of every occupied square |
| Zobrist.ScanStep | src/core/zobrist.rs:37-50 | one step of the scan XORs in the square's entry when it is occupied, and nothing when it is empty |
| Zobrist.Hash | src/core/zobrist.rs:34-54 | the reference hash: the XOR over all 90 cells of the table entry of each occupied one; Calculate computes it and HashPoint, HashEmpty and HashOnlyOccupied characterise it |
| Zobrist.Update | src/core/zobrist.rs:56-77 | the incremental hash: XOR the mover out of from and into to and the captured piece out of to; it is its own inverse (UpdateSelfInverse) and agrees with Hash (UpdateRefinesHash) |
| Zobrist.UpdateSelfInverse | src/core/zobrist.rs:56-77 | applying update twice with the same move gives the original hash back |
| Zobrist.HashEmpty | src/core/zobrist.rs:34-54 | the empty grid hashes to zero |
| Zobrist.HashOnlyOccupied | src/core/zobrist.rs:42-48 | the hash depends only on the occupied squares and their pieces |
| Zobrist.HashPoint | src/core/zobrist.rs:34-54 | writing one square changes the hash by XOR-ing out its old term and XOR-ing in its new one |
| Zobrist.HashBeforePoint | src/core/zobrist.rs:34-54 | writing a square does not change the hash of the squares before it |
| Zobrist.UpdateRefinesHash | src/core/zobrist.rs:56-77 | for a real move of a non-empty piece, the incremental update equals the full hash of the board after the move |
| BoardCaches.BoardCache.constructor | src/core/board_cache.rs:23-29 | a new cache is empty |
| BoardCaches.BoardCache.CacheLegalMoves | src/core/board_cache.rs:32-34 | the moves are stored under (from, colour); every other entry and the other caches are unchanged |
| BoardCaches.BoardCache.GetCachedLegalMoves | src/core/board_cache.rs:37-39 | the result is present exactly when the key is cached, and then it is the cached list |
| BoardCaches.BoardCache.CacheCheckStatus | src/core/board_cache.rs:42-44 | the status is stored for the colour; every other colour's answer and the other caches are unchanged |
| BoardCaches.BoardCache.GetCachedCheckStatus | src/core/board_cache.rs:47-49 | the result is present exactly when the colour is cached, and then it is the cached status |
| BoardCaches.BoardCache.CacheHash | src/core/board_cache.rs:52-54 | the hash becomes the cached one and the other caches are unchanged |
| BoardCaches.BoardCache.GetCachedHash | src/core/board_cache.rs:57-59 | the result is present exactly when a hash is cached, and then it is that hash |
| BoardCaches.BoardCache.Clear | src/core/board_cache.rs:62-66 | all three caches become empty |
| Rules.Dist | src/core/board.rs:228-229 | the absolute difference: a + d == b or b + d == a |
| Rules.CountLine | src/core/board.rs:383-399 | the count of occupied squares on a line segment is at most its length |
| Rules.IsMoveValid | src/core/board.rs:190-224 | the guard (both squares valid, a piece of the mover's colour on from, no own piece on to) and the per-kind rule; its meaning per kind is stated by the RuleFacts lemmas |
| Rules.InCheck | src/core/board.rs:405-451 | a colour is in check when some opposing piece, seen in the colour masks, can move onto its cached king square; InCheckMeaning restates it square by square |
| Rules.AfterMove | src/core/board.rs:160-182 | make_move's effect on a board state: from emptied, the mover on to, kings rescanned when a king moved or was taken, the hash updated incrementally; AfterMoveGrid and AfterMoveKeepsHash state its effect |
| Rules.AfterSet | src/core/board.rs:143-158 | set_piece's effect: off the board nothing changes, otherwise the square is written, kings rescanned when a king is placed, and the hash recomputed |
| Rules.MoveSafe | src/core/board.rs:455-496 | a valid move after which the mover is not in check |
| Rules.HasLegalMoves | src/core/board.rs:499-522 | some piece of the colour has a safe move; HasLegalMovesMeaning restates it over positions |
| Rules.IsCheckmate | src/core/board.rs:526-534 | in check with no legal move |
| Rules.IsStalemate | src/core/board.rs:537-545 | not in check with no legal move |
| Boards.Board.Blank | src/core/board.rs:29-43 | Board::default: an empty grid, no kings, hash zero, an empty cache, and bitboard masks that mirror the empty grid with the palace initialised |
| Boards.Board.constructor | src/core/board.rs:47-57 | Board::new: the opening position, both kings found at (4,0) and (4,9), the full hash of that grid, and that hash cached |
| Boards.Board.Initialize | src/core/board.rs:60-103 | the 32 writes place the opening position, keep the bitboard in step, and leave the king squares the scan would find |
| Boards.Board.UpdateKingPositions | src/core/board.rs:108-111 | both cached king squares become what find_king returns on the current grid |
| Boards.Board.FindKing | src/core/board.rs:114-125 | the result is FindKing of the grid |
| MoveFacts.FindKingSound | src/core/board.rs:114-125 | a found square is valid and holds that colour's king, and no earlier square in scan order does; None means no square does |
| MoveFacts.FindKingInStable | src/core/board.rs:114-125 | once the scan has found a king, scanning further returns the same square |
| Boards.Board.GetPiece | src/core/board.rs:127-133 | the result is the grid's piece, or the default piece off the board |
| Boards.Board.SetPieceSync | src/core/board.rs:135-140 | the grid becomes Place of the old grid and the bitboard still mirrors it; nothing else changes |
| Boards.Board.SetPiece | src/core/board.rs:143-158 | the board state becomes AfterSet (the square written, kings rescanned when a king is placed, the hash recomputed), and the cache is cleared and given the new hash; off the board nothing changes |
| Boards.Board.MakeMove | src/core/board.rs:160-182 | the board state becomes AfterMove (from emptied, the mover on to, kings rescanned when a king moves or is taken, the hash updated incrementally), and the cache is cleared and given the new hash |
| Boards.Board.GetHash | src/core/board.rs:185-187 | the result is the current hash |
| Boards.Board.IsMoveValid | src/core/board.rs:190-224 | the result is the move rule IsMoveValid of the grid |
| Boards.Board.IsAdvisorMoveValid | src/core/board.rs:227-238 | the result is the advisor rule: one diagonal step into the mover's palace |
| Boards.Board.IsKingMoveValid | src/core/board.rs:241-253 | the result is the king rule: one orthogonal step into the mover's palace |
| Boards.Board.IsElephantMoveValid | src/core/board.rs:255-279 | the result is the elephant rule: two diagonal steps, an empty eye, and not across the river |
| Boards.Board.IsHorseMoveValid | src/core/board.rs:282-307 | the result is the horse rule: an L-shaped jump whose leg is empty |
| Boards.Board.IsChariotMoveValid | src/core/board.rs:310-318 | the result is the chariot rule: a straight line with nothing in between |
| Boards.Board.IsCannonMoveValid | src/core/board.rs:321-341 | the result is the cannon rule: a straight line with no screen when moving, and exactly one screen when capturing |
| Boards.Board.IsPawnMoveValid | src/core/board.rs:344-358 | the result is the pawn rule |
| Boards.Board.IsPawnCrossedRiver | src/core/board.rs:361-367 | the result is the river rule for the colour |
| Boards.Board.IsPathClear | src/core/board.rs:370-372 | the result says whether the path count is zero |
| Boards.Board.CountPiecesOnPath | src/core/board.rs:375-402 | the result is the number of occupied squares strictly between from and to on their common file or rank, and 0 when they share neither |
| Boards.Board.IsInCheck | src/core/board.rs:405-451 | a cached answer for the colour is returned as is; otherwise the result is InCheck: some opposing piece on a square with a bit can move onto the cached king square |
| Boards.Board.IsMoveSafe | src/core/board.rs:455-496 | the result is MoveSafe (valid, and the mover's king not in check afterwards); the board state is restored, and the bitboard is rebuilt |
| Boards.Board.RebuildBitboard | src/core/board.rs:479-490 | after the rebuild the bitboard masks mirror the grid again and the palace masks are initialised |
| Boards.Board.Clone | src/core/board.rs:500 | the clone has a state and cache equal to the original's, in fresh objects |
| Boards.Board.HasLegalMoves | src/core/board.rs:499-522 | the result is HasLegalMoves: some piece of the colour has a safe move |
| Boards.Board.IsCheckmate | src/core/board.rs:526-534 | in check (by the cached answer or the rule) and no legal move; with no cached answer, exactly the checkmate rule |
| Boards.Board.IsStalemate | src/core/board.rs:537-545 | not in check and no legal move; with no cached answer, exactly the stalemate rule |
| Boards.MasksAgree | src/core/bitboard.rs:57-92 | grids that agree on their occupied squares have the same kind and colour masks |
| Boards.OpeningEnds | src/core/board.rs:60-103 | the staged opening placement starts from the empty grid and ends at the opening position |
| RuleFacts.MoveGuards | src/core/board.rs:190-212 | a valid move starts on a valid square holding a piece of the mover's colour, and does not land on one of the mover's own pieces; no piece moves to its own square |
| RuleFacts.PalacePieces | src/core/board.rs:227-253 | a valid king or advisor move is Red's, lands in the red palace, and is a one-step orthogonal (king) or diagonal (advisor) step |
| RuleFacts.RedPalaceStep | src/core/board.rs:227-253 | conversely, such a step by a red king or advisor into the red palace is valid |
| RuleFacts.ElephantRule | src/core/board.rs:255-279 | an elephant move is valid exactly when it is two steps diagonally, its eye is empty and it stays on its own side of the river |
| RuleFacts.HorseRule | src/core/board.rs:282-307 | a horse move is valid exactly when it is (2,1) with an empty file leg or (1,2) with an empty rank leg |
| RuleFacts.PawnRule | src/core/board.rs:344-367 | a pawn move is valid exactly when it is one step forward on its own file; the sideways step the river check seems to allow is always rejected by the direction test |
| RuleFacts.CountLineZero | src/core/board.rs:383-399 | the count on a line is zero exactly when every square on it is empty |
| RuleFacts.CountLineOne | src/core/board.rs:383-399 | the count on a line is one exactly when exactly one square on it is occupied |
| RuleFacts.PathZero | src/core/board.rs:370-402 | on a common file or rank, the path count is zero exactly when no valid square strictly between is occupied |
| RuleFacts.PathOne | src/core/board.rs:375-402 | on a common file or rank, the path count is one exactly when exactly one square strictly between is occupied |
| RuleFacts.ChariotRule | src/core/board.rs:310-318 | a chariot move is valid exactly when it is a straight line with no piece in between |
| RuleFacts.CannonRule | src/core/board.rs:321-341 | a cannon move is valid exactly when it is straight with no piece in between onto an empty square, or exactly one in between onto an occupied square |
| MoveFacts.AfterMoveGrid | src/core/board.rs:160-166 | after a move, from is empty, to holds the mover, and every other square is unchanged; a move onto its own square changes nothing |
| MoveFacts.AfterMoveRestore | src/core/board.rs:473-474 | writing the original pieces back on from and to restores the grid |
| MoveFacts.AfterMoveKeepsHash | src/core/board.rs:172-178 | when the hash was the full hash of the grid before a move, it still is afterwards |
| MoveFacts.AfterMoveKeepsKings | src/core/board.rs:167-170 | if the cached king squares were the scan's answer before a move, they still are afterwards |
| MoveFacts.NonKingWrites | src/core/board.rs:167-170 | moves that neither move nor take a king do not change where kings stand |
| MoveFacts.InCheckMeaning | src/core/board.rs:405-451 | a colour is in check exactly when it has a king square and some opposing piece, on a square with a bit, can move there validly |
| MoveFacts.HasLegalMovesMeaning | src/core/board.rs:499-522 | there are legal moves exactly when some pair of valid squares is a safe move |
| MoveFacts.EndConditionsExclusive | src/core/board.rs:526-545 | exactly one of: legal moves exist, checkmate, stalemate |
| MoveFacts.InitialKings | src/core/board.rs:66-86 | in the opening position the red king is found at (4,0) and the black king at (4,9) |
| MoveFacts.InitialChariotBlocked | src/core/board.rs:62-79 | in the opening position a red corner chariot cannot jump its own pawn |
| MoveFacts.InitialPawnScreens | src/core/board.rs:75-79 | in the opening position each even file has a red pawn between ranks 1 and 3 |
| MoveFacts.InitialHorseMove | src/core/board.rs:63 | the red horse at (1,0) may open to (2,2) |
| MoveFacts.InitialCannonCapture | src/core/board.rs:72 | the red cannon at (1,2) may capture the black horse at (1,9) over one screen |
| GameRules.WinFor | src/core/ruler.rs:151-157 | the status for a winner is RedWon for Red and BlackWon for Black, and Playing exactly for None |
| GameRules.Join | src/core/ruler.rs:87-107 | add_player_to_game on one game: refused with two players seated or the colour taken, else the player is appended; JoinKeepsSeating states it |
| GameRules.StatusAfter | src/core/ruler.rs:151-173 | the status after a move: a captured king gives the mover's win, then checkmate of the opponent gives the mover's win and stalemate a draw, overriding the capture; MoveStatus states the result |
| GameRules.Move | src/core/ruler.rs:111-184 | make_move on one game; MoveAccepted, MoveEffect, MoveStatus and MoveKeepsGameOk state when it is accepted and what it does |
| GameRules.Undo | src/core/ruler.rs:198-235 | undo_move on one game; UndoKeepsGameOk and UndoAfterMove state when it succeeds and that it takes back a move |
| GameRules.NewGameOk | src/core/ruler.rs:64-79 | a new game keeps the game invariant (seating, a side to move, the full hash) and has its kings cached |
| GameRules.JoinKeepsSeating | src/core/ruler.rs:87-107 | joining succeeds exactly when fewer than two players sit and none has the colour; on success the player is appended, on failure nothing changes; the invariant is kept |
| GameRules.MoveAccepted | src/core/ruler.rs:111-130 | a move is accepted exactly when the game is playing and the move is safe for the side to move; a refused move changes nothing |
| GameRules.MoveEffect | src/core/ruler.rs:132-178 | an accepted move empties from and puts the mover on to, leaves every other square, appends its record, passes the turn and keeps the players |
| GameRules.MoveStatus | src/core/ruler.rs:151-173 | after an accepted move the status is a win for the mover, a stalemate, or playing; checkmate of the opponent gives the mover's win, stalemate gives Stalemate, and capturing a king gives the mover's win unless the opponent is stalemated; Stalemate is declared only on a stalemate; play goes on exactly when no king was taken and the opponent is neither mated nor stalemated |
| GameRules.MoveKeepsGameOk | src/core/ruler.rs:111-184 | every move result keeps the game invariant |
| GameRules.UndoKeepsGameOk | src/core/ruler.rs:198-235 | undo succeeds exactly when there is history, and it keeps the game invariant |
| GameRules.UndoAfterMove | src/core/ruler.rs:198-235 | undoing an accepted move restores the grid, the hash, the history, the players, the turn and the status |
| Games.Game.constructor | src/core/ruler.rs:68-75 | a new game's view is NewGame: the opening board, no players, Playing, Red to move, no history |
| Games.Game.AddPlayer | src/core/ruler.rs:89-103 | the result and the new view are Join of the old view |
| Games.Game.MakeMove | src/core/ruler.rs:113-180 | the result and the new view are Move of the old view |
| Games.Game.Apply | src/core/ruler.rs:133-149 | returns the captured piece; the board becomes AfterMove and the record is appended |
| Games.Game.Settle | src/core/ruler.rs:151-178 | the status becomes StatusAfter the capture and the end checks, and the turn passes to the opponent |
| Games.Game.UndoMove | src/core/ruler.rs:199-231 | the result and the new view are Undo of the old view |
| Games.OwnedAdd | src/core/ruler.rs:64-79 | filing a new game under the next id keeps the manager's ownership structure and uses an id not yet taken |
| Games.Ruler.constructor | src/core/ruler.rs:56-61 | a new manager has no games and next id 1 |
| Games.Ruler.CreateGame | src/core/ruler.rs:64-79 | the id returned is the old next id, which was not taken; the next id increments; the new game is a fresh NewGame, and no object of any other game changes |
| Games.Ruler.GetGame | src/core/ruler.rs:82-84 | the result is present exactly when the id is filed, and then it is that game |
| Games.Ruler.AddPlayerToGame | src/core/ruler.rs:87-107 | a missing id fails; otherwise the result and the new view are Join of that game's old view; the ids filed, the next id and the objects of every other game are unchanged |
| Games.Ruler.MakeMove | src/core/ruler.rs:111-184 | a missing id fails; otherwise the result and the new view are Move of that game's old view; the ids filed, the next id and the objects of every other game are unchanged |
| Games.Ruler.RemoveGame | src/core/ruler.rs:188-190 | the result says whether the id was filed, and the id is removed |
| Games.Ruler.UndoMove | src/core/ruler.rs:198-235 | a missing id fails; otherwise the result and the new view are Undo of that game's old view; the ids filed, the next id and the objects of every other game are unchanged |
| Text.ToUpper | src/parser/lexer.rs:166 | to_uppercase on ASCII keeps the letter, digit and whitespace classes, leaves no lower-case letter, and fixes everything except lower-case letters |
| Text.Upper | src/parser/lexer.rs:166 | upper-casing a string keeps its length and upper-cases each character |
| Text.UpperIdempotent | src/parser/mod.rs:59 | upper-casing twice is upper-casing once |
| Text.SpaceEnd | src/parser/lexer.rs:78-82 | the first non-whitespace position at or after i: everything skipped is whitespace |
| Text.Trim | src/parser/lexer.rs:55 | trim is a middle slice, what it strips is whitespace, and neither end of the result is whitespace |
| Text.TrimIdempotent | src/parser/mod.rs:52 | trimming twice is trimming once |
| Text.TrimUnchanged | src/parser/mod.rs:52 | a string with non-whitespace ends is its own trim |
| Text.WordEnd | src/parser/mod.rs:53 | the end of the first word: no whitespace before it, whitespace or the end at it |
| Text.Words | src/parser/mod.rs:53 | split_whitespace: the maximal whitespace-free runs in order; WordsAreWords and WordsOfUnwords state it |
| Text.WordsAreWords | src/parser/mod.rs:53 | every piece split_whitespace returns is non-empty and free of whitespace |
| Text.WordsOfUnwords | src/parser/mod.rs:53 | splitting words joined by single spaces gives the words back |
| Text.UnwordsEnds | src/parser/mod.rs:52-53 | words joined by spaces start with the first word's first character and end with the last word's last character |
| Text.Decimal | src/lib.rs:33-41 | the decimal rendering of n is a non-empty digit string whose value is n, without a leading zero |
| Text.DigitOf | src/parser/lexer.rs:85-91 | the digit of a value below ten is a digit with that value |
| Lexers.SkipFrom | src/parser/lexer.rs:78-82 | skip_whitespace stops at the first non-whitespace position (or the end) |
| Lexers.DigitsEnd | src/parser/lexer.rs:85-91 | the digit run ends at the first non-digit position (or the end) |
| Lexers.AlnumEnd | src/parser/lexer.rs:95-101 | the identifier run ends at the first non-alphanumeric position (or the end) |
| Lexers.CoordinateAt | src/parser/lexer.rs:104-138 | read_coordinate at p: "(x,y)" gives the pair truncated to u8 and the position after ")", a missing part gives up where it stopped, and an overflowing number is the panic; ScanCoordinate and LeftParenSwallows state it |
| Lexers.WordToken | src/parser/lexer.rs:166-178 | an upper-cased word becomes a keyword, Red, Black, or an identifier holding the word |
| Lexers.Scan | src/parser/lexer.rs:141-188 | one next_token from p: the position never moves back, moves forward on every token but Eof, and stays within the input plus one |
| Lexers.Tokens | src/parser/lexer.rs:191-201 | tokenize's list holds no Eof |
| Lexers.StepNext | src/parser/lexer.rs:141-188 | call k + 1 of next_token scans from where call k stopped |
| Lexers.ValueOfSlice | src/parser/lexer.rs:90 | parse of the slice s[p..q] is the value accumulated digit by digit over p..q |
| Lexers.UpperOfSlice | src/parser/lexer.rs:166 | to_uppercase of s[p..q] is the upper-casing accumulated over p..q |
| Lexers.Lexer.constructor | src/parser/lexer.rs:53-62 | the input is the trimmed source and reading starts at position 0 |
| Lexers.Lexer.ReadChar | src/parser/lexer.rs:66-75 | position takes the old read position, read position advances by one, and ch is the character there or '\0' past the end |
| Lexers.Lexer.SkipWhitespace | src/parser/lexer.rs:78-82 | position becomes SkipFrom of the old position |
| Lexers.Lexer.ReadNumber | src/parser/lexer.rs:85-91 | position becomes the end of the digit run, and the result is its value |
| Lexers.Lexer.ReadIdentifier | src/parser/lexer.rs:95-101 | position becomes the end of the alphanumeric run, and the result is the slice it covered |
| Lexers.Lexer.ReadCoordinate | src/parser/lexer.rs:104-138 | on a well-formed "(x,y)" the result is the pair truncated to u8 with the position after ')'; otherwise None, with the position where reading stopped |
| Lexers.Lexer.NextToken | src/parser/lexer.rs:141-188 | the token and new position are Scan of the old position |
| Lexers.Lexer.NextStep | src/parser/lexer.rs:141-188 | the token is the next step of the lexer's token stream |
| Lexers.Lexer.Tokenize | src/parser/lexer.rs:191-201 | the list is Tokens from the old position |
| LexerFacts.ScanSpelled | src/parser/lexer.rs:141-188 | a token written at p and followed by a delimiter scans back as that token, consuming its width |
| LexerFacts.NameSpelled | src/parser/lexer.rs:166-178 | the spelling of a keyword, colour or upper-case identifier reads back as that token |
| LexerFacts.ScanNumber | src/parser/lexer.rs:162-164 | a decimal number followed by a non-digit scans as that number |
| LexerFacts.ScanCoordinate | src/parser/lexer.rs:145-149 | "(x,y)" scans as Coordinate(x, y) over its whole width |
| LexerFacts.ScanPunctuation | src/parser/lexer.rs:145-161 | '(' not followed by a digit, ')' and ',' scan as their punctuation tokens |
| LexerFacts.EndIsEof | src/parser/lexer.rs:180 | at or past the end, next_token returns Eof without moving |
| LexerFacts.ScanSkips | src/parser/lexer.rs:142 | leading whitespace does not change the token scanned |
| LexerFacts.OverflowStays | src/parser/lexer.rs:90 | once a number overflows, every later call does too |
| LexerFacts.EofForever | src/parser/lexer.rs:180 | once at the end, every later call returns Eof |
| LexerFacts.TokenizeSpelled | src/parser/lexer.rs:191-201 | tokenize of spellable tokens joined by spaces gives the tokens back |
| LexerFacts.StepAtSpelled | src/parser/lexer.rs:141-188 | call k of next_token over such text returns token k, then Eof |
| LexerFacts.LeftParenSwallows | src/parser/lexer.rs:145-152 | a failed coordinate read consumes one character more: "(x)" lexes to LeftParen, RightParen without the x |
| LexerFacts.UnknownIsEof | src/parser/lexer.rs:181-184 | an unknown character reads as Eof: "#GET" tokenizes to nothing, though a later call would read GET |
| Parsers.Parser.constructor | src/parser/parser.rs:15-25 | the parser's lexer is over the trimmed command, its token stream is the one of that text, and no token is consumed yet |
| Parsers.Parser.NextToken | src/parser/parser.rs:28-31 | one more token is consumed |
| Parsers.Parser.ExpectKeyword | src/parser/parser.rs:44-56 | succeeds exactly when the current token is that keyword, and then consumes it |
| Parsers.Parser.ParseColor | src/parser/parser.rs:59-71 | Red or Black is consumed and returned; anything else gives None and consumes nothing |
| Parsers.Parser.ParseNumber | src/parser/parser.rs:74-83 | a number token is consumed and returned; anything else fails and consumes nothing |
| Parsers.Parser.ParseIdentifier | src/parser/parser.rs:86-95 | an identifier token is consumed and returned; anything else fails and consumes nothing |
| Parsers.Parser.ParseCoordinate | src/parser/parser.rs:98-107 | a coordinate token is consumed and returned; anything else fails and consumes nothing |
| Parsers.Parser.ParseCreateGame | src/parser/parser.rs:110-120 | the node and tokens consumed are CreateGameAt of the stream |
| Parsers.Parser.ParseJoinGame | src/parser/parser.rs:123-141 | the node and tokens consumed are JoinGameAt of the stream |
| Parsers.Parser.ParseMove | src/parser/parser.rs:144-172 | the node and tokens consumed are MoveAt of the stream |
| Parsers.Parser.ParseUndo | src/parser/parser.rs:175-189 | the node and tokens consumed are UndoAt of the stream |
| Parsers.Parser.ParseGetGame | src/parser/parser.rs:192-206 | the node and tokens consumed are GetGameAt of the stream |
| Parsers.Parser.Parse | src/parser/parser.rs:209-248 | the node and tokens consumed are ParseAt of the stream |
| Parsers.ParseAt | src/parser/parser.rs:209-248 | parse on a token stream: dispatch on the current keyword to the command parsers, Invalid otherwise; ParseIff and ParsedCommand characterise it |
| Parsers.Parse | src/lib.rs:60-63 | the command a string denotes: ParseAt at the start of the token stream of the trimmed string; ParseCommandText is its round trip |
| ParserFacts.ParseIff | src/parser/parser.rs:209-248 | parse returns a command exactly when that command's token sequence stands at the current position |
| ParserFacts.ParseCommandTokens | src/parser/parser.rs:209-248 | a command's tokens parse as the command and consume exactly those tokens |
| ParserFacts.ParsedCommand | src/parser/parser.rs:209-248 | whatever parses as a command is that command's tokens, all of them consumed |
| ParserFacts.ParseStart | src/parser/parser.rs:210-247 | only CREATE, JOIN, GAME, UNDO and GET start a command; any other token gives Invalid and consumes nothing |
| ParserFacts.ParseBounds | src/parser/parser.rs:209-248 | parse consumes at most seven tokens and looks at most one token beyond those |
| ParserFacts.ParseLocal | src/parser/parser.rs:209-248 | tokens beyond the ones parse looks at do not change its result |
| ParserFacts.ParseCommandText | src/parser/parser.rs:209-248 | the text of a command's tokens lexes without overflow and parses back to the command |
| Commands.Unsigned | src/parser/mod.rs:76 | from_str reads a number exactly when the word, without one leading '+', is a non-empty digit string whose value is below the bound, and then it is that value |
| Commands.ParseU32 | src/parser/mod.rs:76 | u32 parsing is Unsigned with bound 2^32 |
| Commands.ParseU8 | src/parser/mod.rs:208-216 | u8 parsing is Unsigned with bound 256 |
| Commands.ParseDecimal | src/parser/mod.rs:76 | the decimal rendering of a u32 or u8 parses back to it, and a leading '+' gives the same result |
| Commands.ParseRejects | src/parser/mod.rs:76 | the empty word, "+", a leading '-' and values beyond the bound are rejected |
| Commands.StripParens | src/parser/mod.rs:199 | trim_matches of parentheses is a middle slice, what it strips is parentheses, and neither end of the result is one |
| Commands.StripParensAround | src/parser/mod.rs:199 | stripping the parentheses around a text without parentheses at its ends gives the text |
| Commands.CommaAt | src/parser/mod.rs:202 | the next comma at or after i, or the end |
| Commands.BeforeComma | src/parser/mod.rs:202 | the text before that comma has no comma |
| Commands.SplitJoin | src/parser/mod.rs:202 | splitting on commas and joining with commas gives the text back |
| Commands.SplitCommaFree | src/parser/mod.rs:202 | no piece of the split contains a comma |
| Commands.SplitTwo | src/parser/mod.rs:202 | two comma-free parts joined by a comma split into exactly those two |
| Commands.ParseCoordinates | src/parser/mod.rs:197-219 | a coordinate word is read exactly when stripping parentheses and splitting on commas gives two parts that both parse as u8, and then it is those two values |
| Commands.ParseCoordinateWord | src/parser/mod.rs:197-219 | "(x,y)" written in decimal reads back as (x, y) |
| Commands.ColorWord | src/parser/mod.rs:82-86 | a colour word is read as Red or Black only |
| Commands.ColorWordName | src/parser/mod.rs:82-86 | "RED" and "BLACK" read back as their colours |
| Commands.MoveCommand | src/parser/mod.rs:70-122 | parse_move_command gives a Move or Invalid |
| Commands.CreateGameCommand | src/parser/mod.rs:125-131 | parse_create_game_command gives CreateGame or Invalid |
| Commands.JoinGameCommand | src/parser/mod.rs:134-160 | parse_join_game_command gives a JoinGame or Invalid |
| Commands.GetGameCommand | src/parser/mod.rs:163-177 | parse_get_game_command gives a GetGame or Invalid |
| Commands.UndoCommand | src/parser/mod.rs:180-194 | parse_undo_command gives an Undo or Invalid |
| Commands.MoveCommandIff | src/parser/mod.rs:70-122 | after a GAME word, the words give a move exactly when they spell it: at least nine words, the id, colour, MOVE, from, TO and to in places 1–6 |
| Commands.CreateGameCommandIff | src/parser/mod.rs:125-131 | after CREATE, the words give CreateGame exactly when they are two words, the second GAME |
| Commands.JoinGameCommandIff | src/parser/mod.rs:134-160 | after JOIN, the words give a join exactly when they are five words: GAME, the id, the name as written, the colour |
| Commands.GetGameCommandIff | src/parser/mod.rs:163-177 | after GET, the words give a query exactly when they are three words: GAME and the id |
| Commands.UndoCommandIff | src/parser/mod.rs:180-194 | after UNDO, the words give an undo exactly when they are three words: GAME and the id |
| Commands.KeywordsDistinct | src/parser/mod.rs:59-65 | no word upper-cases to two different command keywords |
| Commands.CommandOfWords | src/parser/mod.rs:55-66 | the dispatch on the upper-cased first word; CommandOfWordsIff states it |
| Commands.ParseCommand | src/parser/mod.rs:51-67 | CommandParser::parse: the words of the trimmed input, dispatched; ParseCommandIff and ParseCommandWords state it |
| Commands.CommandOfWordsIff | src/parser/mod.rs:51-67 | the dispatch on the first word gives a command exactly when the words spell it |
| Commands.ParseCommandIff | src/parser/mod.rs:51-67 | parse gives a command exactly when the trimmed, whitespace-split input spells it |
| Commands.ParseCommandInvalid | src/parser/mod.rs:51-67 | parse gives Invalid exactly when the words spell no command, in particular for empty input and for an unknown first word |
| Commands.SpellsCommandWords | src/parser/mod.rs:51-194 | the canonical words of a command, followed by extra words, spell it exactly when a move has at least two extra words and any other command none |
| Commands.OtherWordsRead | src/parser/mod.rs:125-194 | the canonical words of a create, join, query or undo spell that command |
| Commands.MoveWordsRead | src/parser/mod.rs:70-122 | the seven canonical words of a move read, place by place, as GAME, its id, colour, MOVE, from, TO and to |
| Commands.SpellsMoveWords | src/parser/mod.rs:70-122 | those seven words plus extra words spell the move exactly when there are at least two extra words |
| Commands.CommandWordsAreWords | src/parser/mod.rs:53 | each canonical word is a whitespace-free non-empty word |
| Commands.ParseCommandWords | src/parser/mod.rs:51-194 | the canonical text of a command, with any extra words, parses back to the command exactly when a move has at least two extra words and any other command none |
| Commands.SplitUnwords | src/parser/mod.rs:52-53 | words joined by spaces need no trimming and split back into the same words |
| Commands.SevenWordMoveInvalid | src/parser/mod.rs:11-73 | the move form documented in the source's comment has seven words, and the code turns it into Invalid |
| Engines.Fields | src/lib.rs:30-45 | the first word of a rendered result is its tag |
| Engines.Tag | src/lib.rs:32-42 | the fixed tag of each result kind |
| Engines.Render | src/lib.rs:30-45 | Display: the tag, the decimal id and for a status the status name, one space apart; DecodeRender and RenderInjective state that it loses nothing |
| Engines.RenderFields | src/lib.rs:30-45 | the Display text is the result's fields joined by single spaces |
| Engines.FieldsAreWords | src/lib.rs:30-45 | every field of a rendered result is a whitespace-free non-empty word |
| Engines.DecodeFields | src/lib.rs:30-45 | the fields identify the result: INVALID_COMMAND alone, or a tag with the game id, plus the status for GAME_STATUS |
| Engines.DecodeRender | src/lib.rs:30-45 | decoding the Display text of any result gives the result back |
| Engines.RenderInjective | src/lib.rs:30-45 | distinct results have distinct Display texts |
| Engines.Engine.constructor | src/lib.rs:53-57 | a new engine's manager has no games and next id 1 |
| Engines.Engine.ExecuteAst | src/lib.rs:72-110 | Executed holds: CreateGame files a fresh NewGame under the old next id; join, move and undo report exactly the manager's result (JoinFailed, MoveFailed, UndoFailed for a missing id) and keep the ids filed and the next id; every command keeps each other game, its objects and its view; GetGame reports the status or GameNotFound and changes nothing; Invalid gives InvalidCommand |
| Engines.Engine.ExecuteCreate | src/lib.rs:74-77 | the CreateGame case of Executed |
| Engines.Engine.ExecuteJoin | src/lib.rs:78-84 | the JoinGame case of Executed |
| Engines.Engine.ExecuteMove | src/lib.rs:85-91 | the Move case of Executed |
| Engines.Engine.ExecuteUndo | src/lib.rs:92-98 | the Undo case of Executed |
| Engines.KeptViews | src/lib.rs:72-110 | the games a command leaves untouched are still valid and show the views they had before it |
| Engines.Engine.Parse | src/lib.rs:60-63 | the node is the parse of the command's token stream |
| Engines.Engine.Execute | src/lib.rs:66-69 | Executed holds for the parse of the command |

## Left out

- The FFI layer is not modelled: the `extern "C"` functions of `src/lib.rs`, the C header and the C tests. `Engine::get_game_manager`, `get_game_manager_mut`, `create_game_manager`, `create_board` and `parse_command` are not modelled either; they are plain accessors or forwarders.
- Random numbers: `ZobristHash::new` draws its table from a random generator, and the model takes the table as the parameter `z`. `Board::new` and `Ruler::create_game` draw one internally, so `Games.Ruler.CreateGame` and `Engines.Engine.ExecuteAst` take it as a parameter too.
- `Ruler::get_all_games` is not modelled: it returns references in the order of a hash map, which is unspecified.
- `Parser::expect_token` is not modelled: no parsing function calls it.
- Serialisation (`serde`) and `Debug` formatting are left out, except the `{:?}` of a game status that Display prints.
- Text is ASCII only: `to_uppercase`, `is_whitespace` and `is_alphanumeric` are modelled on ASCII characters. The byte-indexed slicing of the lexer is treated as character indexing, which agrees on ASCII text.
- Lexers.Lexer.ReadNumber, Lexers.Lexer.NextToken, Lexers.Lexer.ReadCoordinate and Lexers.Lexer.Tokenize: `read_number`'s `parse().unwrap()` panics on a digit run beyond `u32::MAX`, so these methods require the digit runs they read not to overflow. For Tokenize that is every digit run in the rest of the input (`Tokens(input, position).Some?`).
- Parsers.Parser.constructor and the parse methods of `Parser` require `Fits`: the tokens they read, and the two the parser holds ahead, lex without that panic.
- Engines.Engine.Execute and Engines.Engine.Parse require `Parsable`: every call of `next_token` that the parser makes does not overflow in `read_number`. `Parser::new` calls it twice and each token consumed calls it once more, so that is `used + 2` calls, where `used` is the number of tokens `ParseAt` consumes. This is exactly the condition under which the source does not panic.
- Games.Ruler.CreateGame, Engines.Engine.ExecuteAst and Engines.Engine.ExecuteCreate require `next_game_id < u32::MAX`, because `next_game_id += 1` panics in a debug build on overflow; wrap-around in a release build is not modelled.
- Boards.Board.MakeMove requires both squares to be on the board: `ZobristHash::update` (called from `Board::make_move`) indexes the Zobrist table by the raw coordinates, which panics off the board. Every caller checks `is_move_valid` first, which refuses such squares.
- Boards.Board.IsMoveSafe: `self.bitboard = Bitboard::new()` is modelled as resetting the same bitboard object in place, not as allocating a new one.
- Helpers that the source does not have, added to keep proofs small:
  - in `Board`: RebuildBitboard, RecordFile, PlaceBackRank, PlaceCannons, PlacePawns, CountOnLine, SafeMoveFrom and ResetCache;
  - in `Ruler`: File;
  - in `Game`: Apply and Settle;
  - in `Lexer`: NextStep.
  - in `Engine`: ExecuteCreate, ExecuteJoin, ExecuteMove and ExecuteUndo, one per state-changing arm of `execute_ast`.

  Each one is a contiguous piece of a source function, cited in the Model table where it carries a property.
- `Option<Color>` from `parse_color` is modelled as `Color`, with `Color.None` standing for `None`. `Option<ASTNode>` results are modelled as `ASTNode`, with `Invalid` standing for `None`. The parser maps both the same way.
- The `_ => return false` arms of `make_move` and `undo_move` on a side to move of `None` are modelled by GameRules.Move and GameRules.Undo. The Games.Game methods leave them out, because they require `GameOk`, which keeps the side to move a real colour.
- GameRules.UndoAfterMove does not state that the cached king squares come back. When a king moved, the first `set_piece` of `undo_move` rescans while a king of that colour still stands on `to`. The rescan may then record `to`, which the second write empties. The model keeps this behaviour (`Rules.AfterSet`).
- The word-based `CommandParser` in `src/parser/mod.rs` is modelled in full, but `Engine` does not use it. The engine parses with the token-based `Parser`, as the source does.
- The ASTNode enum of `src/parser/ast.rs` is the datatype `Parsers.ASTNode`.

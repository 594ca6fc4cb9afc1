/**
  The PyTorch `ChessDataset` of the Python prototype: games as lists of SAN strings are replayed
  with python-chess, and every legal move yields one position row and one move row. A SAN string
  the board rejects ends its game; the pairs collected before it are kept. The encoder functions
  agree cell for cell with those of the Rust model on the same board view and the same squares;
  which squares each side takes for a move is up to its `from` and `to` oracles.
*/
module PyDataset {
  import opened Wrappers
  import opened Features
  import opened Dataset

  /**
    python-chess, left uninterpreted: the starting position, `parse_san` (None where it raises
    `ValueError`), `is_legal`, `push`, the pieces of a board and the squares of a move.
  */
  datatype PyRules<!Board, !Move> = PyRules(
    start: Board,
    parseSan: (Board, string) -> Option<Move>,
    isLegal: (Board, Move) -> bool,
    push: (Board, Move) -> Board,
    view: Board -> BoardView,
    from: Move -> Square,
    to: Move -> Square)

  /** `torch.stack` of an empty list raises. */
  datatype StackError = EmptyStack

  /** `piece.symbol()`: upper case for white, lower case for black. */
  function Symbol(p: Piece): char
  {
    var c := match p.role
             case Pawn => 'P'
             case Knight => 'N'
             case Bishop => 'B'
             case Rook => 'R'
             case Queen => 'Q'
             case King => 'K';
    if p.color == White then c else (c as int + 32) as char
  }

  /** The `piece_idx` table of `board_to_tensor`. */
  const PieceIdx: map<char, nat> := map[
    'P' := 0, 'N' := 1, 'B' := 2, 'R' := 3, 'Q' := 4, 'K' := 5,
    'p' := 6, 'n' := 7, 'b' := 8, 'r' := 9, 'q' := 10, 'k' := 11]

  /** Every piece symbol is in the table, and the table puts it on the plane the Rust encoder uses. */
  lemma SymbolPlane(p: Piece)
    ensures Symbol(p) in PieceIdx && PieceIdx[Symbol(p)] == Plane(p)
  {
  }

  /** The table is exactly the twelve piece symbols: distinct pieces have distinct symbols. */
  lemma SymbolInjective(p: Piece, q: Piece)
    ensures Symbol(p) == Symbol(q) <==> p == q
  {
    SymbolPlane(p);
    SymbolPlane(q);
    PlaneBijective(p, q);
  }

  /** The loop over `chess.SQUARES` from `sq` on: `divmod(square, 8)` gives the row and column. */
  function PySquares(t: seq<int>, board: BoardView, sq: nat): (r: seq<int>)
    requires |t| == PositionCells && sq <= 64
    ensures |r| == PositionCells
    decreases 64 - sq
  {
    if sq == 64 then t
    else
      var next := (match board[sq]
                   case None => t
                   case Some(pc) =>
                     SymbolPlane(pc);
                     t[Cell(PieceIdx[Symbol(pc)], sq / 8, sq % 8) := 1]);
      PySquares(next, board, sq + 1)
  }

  /** `board_to_tensor`: a zero (12, 8, 8) tensor with the cell of each piece set. */
  function PyBoardTensor(board: BoardView): (t: seq<int>)
    ensures |t| == PositionCells
  {
    PySquares(Zeros(PositionCells), board, 0)
  }

  lemma {:induction false} PySquaresAgree(t: seq<int>, board: BoardView, sq: nat)
    requires |t| == PositionCells && sq <= 64
    ensures PySquares(t, board, sq) == FillSquares(t, board, sq)
    decreases 64 - sq
  {
    if sq < 64 {
      match board[sq]
      case None =>
        PySquaresAgree(t, board, sq + 1);
      case Some(pc) =>
        SymbolPlane(pc);
        PySquaresAgree(t[Cell(Plane(pc), Rank(sq), File(sq)) := 1], board, sq + 1);
    }
  }

  /** The Python and Rust board encodings are the same tensor. */
  lemma PyBoardTensorAgrees(board: BoardView)
    ensures PyBoardTensor(board) == PositionTensor(board)
  {
    PySquaresAgree(Zeros(PositionCells), board, 0);
  }

  /** `move_to_tensor`: a zero vector of 64 * 64 cells with cell `source * 64 + destination` set. */
  function PyMoveTensor(source: Square, destination: Square): (t: seq<int>)
    ensures |t| == MoveCells
  {
    Zeros(MoveCells)[source * 64 + destination := 1]
  }

  /** The Python move encoding is the Rust one, whose checked arithmetic cannot overflow on squares. */
  lemma PyMoveTensorAgrees(source: Square, destination: Square)
    ensures PyMoveTensor(source, destination) == MoveTensor(source, destination)
  {
  }

  /** Where the replay of one game's SAN strings ends: the pairs, the board, whether it broke off. */
  datatype Run<Board, Move> = Run(pairs: seq<Pair<Board, Move>>, board: Board, broken: bool)

  /**
    Reference semantics of the inner loop: a SAN string that does not parse breaks the game; an
    illegal move is passed over; a legal one is recorded with the board it is played from.
  */
  function GameRun<B, M>(R: PyRules<B, M>, board: B, sans: seq<string>): (r: Run<B, M>)
    ensures |r.pairs| <= |sans|
    ensures forall i :: 0 <= i < |r.pairs| ==> R.isLegal(r.pairs[i].board, r.pairs[i].mv)
    decreases |sans|
  {
    if |sans| == 0 then Run([], board, false)
    else
      match R.parseSan(board, sans[0])
      case None => Run([], board, true)
      case Some(m) =>
        if R.isLegal(board, m) then
          var rest := GameRun(R, R.push(board, m), sans[1..]);
          Run([Pair(board, m)] + rest.pairs, rest.board, rest.broken)
        else GameRun(R, board, sans[1..])
  }

  /** Replaying `a + b` is replaying `a` and, unless that broke off, continuing with `b`. */
  lemma {:induction false} GameRunAppend<B, M>(R: PyRules<B, M>, board: B, a: seq<string>, b: seq<string>)
    ensures var ra := GameRun(R, board, a);
            GameRun(R, board, a + b) ==
              if ra.broken then ra
              else
                var rb := GameRun(R, ra.board, b);
                Run(ra.pairs + rb.pairs, rb.board, rb.broken)
    decreases |a|
  {
    if |a| == 0 {
      assert a + b == b;
      assert [] + GameRun(R, board, b).pairs == GameRun(R, board, b).pairs;
    } else {
      assert (a + b)[0] == a[0] && (a + b)[1..] == a[1..] + b;
      match R.parseSan(board, a[0])
      case None =>
      case Some(m) =>
        if R.isLegal(board, m) {
          GameRunAppend(R, R.push(board, m), a[1..], b);
          var ra' := GameRun(R, R.push(board, m), a[1..]);
          if !ra'.broken {
            var rb := GameRun(R, ra'.board, b);
            assert [Pair(board, m)] + (ra'.pairs + rb.pairs) == [Pair(board, m)] + ra'.pairs + rb.pairs;
          }
        } else {
          GameRunAppend(R, board, a[1..], b);
        }
    }
  }

  /** More SAN strings never take pairs away: the pairs collected before a break are kept. */
  lemma GameRunKeepsPrefix<B, M>(R: PyRules<B, M>, board: B, a: seq<string>, b: seq<string>)
    ensures GameRun(R, board, a).pairs <= GameRun(R, board, a + b).pairs
    ensures GameRun(R, board, a).broken ==> GameRun(R, board, a + b) == GameRun(R, board, a)
  {
    GameRunAppend(R, board, a, b);
  }

  /** The pairs of all games, each replayed from a fresh board. */
  function AllPairs<B, M>(R: PyRules<B, M>, games: seq<seq<string>>): seq<Pair<B, M>>
    decreases |games|
  {
    if |games| == 0 then [] else GameRun(R, R.start, games[0]).pairs + AllPairs(R, games[1..])
  }

  /** Games are independent: the pairs of two lists of games are the pairs of each, concatenated. */
  lemma {:induction false} AllPairsAppend<B, M>(R: PyRules<B, M>, a: seq<seq<string>>, b: seq<seq<string>>)
    ensures AllPairs(R, a + b) == AllPairs(R, a) + AllPairs(R, b)
    decreases |a|
  {
    if |a| == 0 {
      assert a + b == b;
    } else {
      assert (a + b)[0] == a[0] && (a + b)[1..] == a[1..] + b;
      AllPairsAppend(R, a[1..], b);
      assert GameRun(R, R.start, a[0]).pairs + (AllPairs(R, a[1..]) + AllPairs(R, b))
          == GameRun(R, R.start, a[0]).pairs + AllPairs(R, a[1..]) + AllPairs(R, b);
    }
  }

  /** `rows` holds exactly the encodings of `items` by `enc`, one each, in order. */
  ghost predicate Encoded<X, Y>(items: seq<X>, rows: seq<Y>, enc: X -> Y)
  {
    |rows| == |items| && forall i :: 0 <= i < |items| ==> rows[i] == enc(items[i])
  }

  lemma EncodedExtend<X, Y>(items: seq<X>, rows: seq<Y>, enc: X -> Y, p: X)
    requires Encoded(items, rows, enc)
    ensures Encoded(items + [p], rows + [enc(p)], enc)
  {
  }

  /** The position row of a pair under `board_to_tensor`. */
  function PyPositionRow<B, M>(R: PyRules<B, M>): Pair<B, M> -> seq<int>
  {
    (p: Pair<B, M>) => PyBoardTensor(R.view(p.board))
  }

  /** The move row of a pair under `move_to_tensor`. */
  function PyMoveRow<B, M>(R: PyRules<B, M>): Pair<B, M> -> seq<int>
  {
    (p: Pair<B, M>) => PyMoveTensor(R.from(p.mv), R.to(p.mv))
  }

  /** Both lists of rows encode `pairs`. */
  ghost predicate Encodes<B, M>(R: PyRules<B, M>, pairs: seq<Pair<B, M>>, pos: seq<seq<int>>, movs: seq<seq<int>>)
  {
    Encoded(pairs, pos, PyPositionRow(R)) && Encoded(pairs, movs, PyMoveRow(R))
  }

  /** One more SAN string of a game that has not broken off. */
  lemma GameRunStep<B, M>(R: PyRules<B, M>, game: seq<string>, j: nat, done: seq<Pair<B, M>>, board: B)
    requires j < |game|
    requires GameRun(R, R.start, game[..j]) == Run(done, board, false)
    ensures R.parseSan(board, game[j]).None? ==> GameRun(R, R.start, game).pairs == done
    ensures R.parseSan(board, game[j]).Some? && R.isLegal(board, R.parseSan(board, game[j]).value) ==>
              var m := R.parseSan(board, game[j]).value;
              GameRun(R, R.start, game[..j + 1]) == Run(done + [Pair(board, m)], R.push(board, m), false)
    ensures R.parseSan(board, game[j]).Some? && !R.isLegal(board, R.parseSan(board, game[j]).value) ==>
              GameRun(R, R.start, game[..j + 1]) == Run(done, board, false)
  {
    assert game[..j + 1] == game[..j] + [game[j]];
    GameRunAppend(R, R.start, game[..j], [game[j]]);
    assert [game[j]][1..] == [];
    if R.parseSan(board, game[j]).None? {
      GameRunKeepsPrefix(R, R.start, game[..j + 1], game[j + 1..]);
      assert game[..j + 1] + game[j + 1..] == game;
    }
  }

  /** The inner loop over the SAN strings of one game, appending to `pos` and `movs`. */
  method AppendGame<B, M>(R: PyRules<B, M>, game: seq<string>, ghost acc: seq<Pair<B, M>>, pos: seq<seq<int>>, movs: seq<seq<int>>)
    returns (pos': seq<seq<int>>, movs': seq<seq<int>>)
    requires Encodes(R, acc, pos, movs)
    ensures Encodes(R, acc + GameRun(R, R.start, game).pairs, pos', movs')
  {
    pos', movs' := pos, movs;
    var board := R.start;
    ghost var done: seq<Pair<B, M>> := [];
    assert game[..0] == [];
    assert acc + [] == acc;
    var j := 0;
    while j < |game|
      invariant j <= |game|
      invariant GameRun(R, R.start, game[..j]) == Run(done, board, false)
      invariant Encodes(R, acc + done, pos', movs')
    {
      GameRunStep(R, game, j, done, board);
      var move := R.parseSan(board, game[j]);
      if move.None? {
        return;
      }
      if R.isLegal(board, move.value) {
        var p := Pair(board, move.value);
        EncodedExtend(acc + done, pos', PyPositionRow(R), p);
        EncodedExtend(acc + done, movs', PyMoveRow(R), p);
        assert acc + done + [p] == acc + (done + [p]);
        pos' := pos' + [PyBoardTensor(R.view(board))];
        movs' := movs' + [PyMoveTensor(R.from(move.value), R.to(move.value))];
        board := R.push(board, move.value);
        done := done + [p];
      }
      j := j + 1;
    }
    assert game[..j] == game;
  }

  /**
    `process_games`: the rows are the encodings of the pairs of all games, in order; stacking
    fails exactly when no game yielded a pair.
  */
  method ProcessGames<B, M>(R: PyRules<B, M>, games: seq<seq<string>>) returns (r: Result<Tensors, StackError>)
    ensures r.Err? <==> |AllPairs(R, games)| == 0
    ensures r.Ok? ==>
              && |r.value.positions| == |AllPairs(R, games)| && |r.value.moves| == |AllPairs(R, games)|
              && (forall i :: 0 <= i < |AllPairs(R, games)| ==>
                    r.value.positions[i] == PyBoardTensor(R.view(AllPairs(R, games)[i].board)))
              && (forall i :: 0 <= i < |AllPairs(R, games)| ==>
                    r.value.moves[i] == PyMoveTensor(R.from(AllPairs(R, games)[i].mv), R.to(AllPairs(R, games)[i].mv)))
  {
    var pos: seq<seq<int>> := [];
    var movs: seq<seq<int>> := [];
    assert games[..0] == [];
    var g := 0;
    while g < |games|
      invariant g <= |games|
      invariant Encodes(R, AllPairs(R, games[..g]), pos, movs)
    {
      pos, movs := AppendGame(R, games[g], AllPairs(R, games[..g]), pos, movs);
      assert games[..g + 1] == games[..g] + [games[g]];
      AllPairsAppend(R, games[..g], [games[g]]);
      assert AllPairs(R, [games[g]]) == GameRun(R, R.start, games[g]).pairs + AllPairs(R, []);
      g := g + 1;
    }
    assert games[..g] == games;
    if |pos| == 0 {
      return Err(EmptyStack);
    }
    EncodesRows(R, AllPairs(R, games), pos, movs);
    r := Ok(Tensors(pos, movs));
  }

  /** What `Encodes` says row by row. */
  lemma EncodesRows<B, M>(R: PyRules<B, M>, pairs: seq<Pair<B, M>>, pos: seq<seq<int>>, movs: seq<seq<int>>)
    requires Encodes(R, pairs, pos, movs)
    ensures |pos| == |pairs| && |movs| == |pairs|
    ensures forall i :: 0 <= i < |pairs| ==> pos[i] == PyBoardTensor(R.view(pairs[i].board))
    ensures forall i :: 0 <= i < |pairs| ==> movs[i] == PyMoveTensor(R.from(pairs[i].mv), R.to(pairs[i].mv))
  {
  }

  /** Both implementations encode a pair to the same rows. */
  lemma SameRowsAsRust<B, M>(R: PyRules<B, M>, pairs: seq<Pair<B, M>>, pos: seq<seq<int>>, movs: seq<seq<int>>)
    requires Encodes(R, pairs, pos, movs)
    ensures forall i :: 0 <= i < |pairs| ==> pos[i] == PositionTensor(R.view(pairs[i].board))
    ensures forall i :: 0 <= i < |pairs| ==> movs[i] == MoveTensor(R.from(pairs[i].mv), R.to(pairs[i].mv))
  {
    forall i | 0 <= i < |pairs|
      ensures pos[i] == PositionTensor(R.view(pairs[i].board))
      ensures movs[i] == MoveTensor(R.from(pairs[i].mv), R.to(pairs[i].mv))
    {
      PyBoardTensorAgrees(R.view(pairs[i].board));
      PyMoveTensorAgrees(R.from(pairs[i].mv), R.to(pairs[i].mv));
    }
  }
}

/**
  `Dataset::process_games` of the gamma_chess model: the games of a chunk, as UCI strings, are
  replayed from the starting position and every legal move yields one row of the position array
  (the board before the move) and one row of the move array. Both arrays are preallocated with one
  row per move string; rows of skipped moves stay zero at the end.
*/
module Dataset {
  import opened Wrappers
  import opened Features
  import opened Proto

  /**
    The chess layer, left uninterpreted: the starting position, UCI parsing, resolution of a UCI
    move on a board, the legality test, playing a move without checks, the pieces of a board and
    the squares a move leaves and reaches.
  */
  datatype UciRules<!Board, !Uci, !Move> = UciRules(
    start: Board,
    parseUci: string -> Option<Uci>,
    toMove: (Uci, Board) -> Option<Move>,
    isLegal: (Board, Move) -> bool,
    playUnchecked: (Board, Move) -> Board,
    view: Board -> BoardView,
    from: Move -> Square,
    to: Move -> Square)

  /** The errors that abort the whole data set. */
  datatype EncodeError = InvalidUciMove | InvalidChessMove

  /** A training pair before encoding: the board a move was played from, and the move. */
  datatype Pair<Board, Move> = Pair(board: Board, mv: Move)

  /** The two arrays: one 768-cell row per position, one 4096-cell row per move. */
  datatype Tensors = Tensors(positions: seq<seq<int>>, moves: seq<seq<int>>)

  /** Number of move strings over all games: the number of rows allocated. */
  function TotalMoves(games: seq<ChessGame>): nat
    decreases |games|
  {
    if |games| == 0 then 0 else TotalMoves(games[..|games| - 1]) + |games[|games| - 1].moves|
  }

  lemma TotalMovesSnoc(games: seq<ChessGame>, g: nat)
    requires g < |games|
    ensures TotalMoves(games[..g + 1]) == TotalMoves(games[..g]) + |games[g].moves|
  {
    assert games[..g + 1][..g] == games[..g];
  }

  lemma {:induction false} TotalMovesPrefix(games: seq<ChessGame>, g: nat)
    requires g <= |games|
    ensures TotalMoves(games[..g]) <= TotalMoves(games)
    decreases |games| - g
  {
    if g < |games| {
      TotalMovesSnoc(games, g);
      TotalMovesPrefix(games, g + 1);
    } else {
      assert games[..g] == games;
    }
  }

  function Prepend<P>(acc: seq<P>, r: Result<seq<P>, EncodeError>): Result<seq<P>, EncodeError>
  {
    match r
    case Ok(ps) => Ok(acc + ps)
    case Err(e) => Err(e)
  }

  lemma PrependNothing<P>(r: Result<seq<P>, EncodeError>)
    ensures Prepend([], r) == r
  {
    if r.Ok? {
      assert [] + r.value == r.value;
    }
  }

  /**
    Reference semantics of the fill loop: the pairs produced from `board` by the remaining move
    strings of the current game and then by the remaining games, each from a fresh board. An
    unparsable UCI string or an unresolvable move is an error for everything; an illegal move is
    skipped and leaves the board as it was.
  */
  function Pairs<B, U, M>(R: UciRules<B, U, M>, board: B, moves: seq<string>, games: seq<ChessGame>): (r: Result<seq<Pair<B, M>>, EncodeError>)
    ensures r.Ok? ==> |r.value| <= |moves| + TotalMoves(games)
    ensures r.Ok? ==> forall i :: 0 <= i < |r.value| ==> R.isLegal(r.value[i].board, r.value[i].mv)
    decreases |games|, |moves|
  {
    if |moves| == 0 then
      if |games| == 0 then Ok([])
      else
        TotalMovesSnoc(games, 0);
        assert games[..1] == [games[0]];
        TotalMovesPrefixSuffix(games);
        Pairs(R, R.start, games[0].moves, games[1..])
    else
      match R.parseUci(moves[0])
      case None => Err(InvalidUciMove)
      case Some(u) =>
        match R.toMove(u, board)
        case None => Err(InvalidChessMove)
        case Some(m) =>
          if R.isLegal(board, m) then Prepend([Pair(board, m)], Pairs(R, R.playUnchecked(board, m), moves[1..], games))
          else Pairs(R, board, moves[1..], games)
  }

  /** One step of the reference on a non-empty list of move strings. */
  lemma PairsUnfold<B, U, M>(R: UciRules<B, U, M>, board: B, moves: seq<string>, games: seq<ChessGame>)
    requires |moves| > 0
    ensures R.parseUci(moves[0]).None? ==> Pairs(R, board, moves, games) == Err(InvalidUciMove)
    ensures R.parseUci(moves[0]).Some? && R.toMove(R.parseUci(moves[0]).value, board).None? ==>
              Pairs(R, board, moves, games) == Err(InvalidChessMove)
    ensures R.parseUci(moves[0]).Some? && R.toMove(R.parseUci(moves[0]).value, board).Some? ==>
              var m := R.toMove(R.parseUci(moves[0]).value, board).value;
              Pairs(R, board, moves, games) ==
                if R.isLegal(board, m) then Prepend([Pair(board, m)], Pairs(R, R.playUnchecked(board, m), moves[1..], games))
                else Pairs(R, board, moves[1..], games)
  {
  }

  lemma PrependAssoc<P>(acc: seq<P>, p: P, r: Result<seq<P>, EncodeError>)
    ensures Prepend(acc, Prepend([p], r)) == Prepend(acc + [p], r)
  {
    if r.Ok? {
      assert acc + ([p] + r.value) == acc + [p] + r.value;
    }
  }

  /** Filling the next row with the encoding of one more item keeps the rows in step with the items. */
  lemma RowsExtend<X, Y>(acc: seq<X>, rows: seq<Y>, enc: X -> Y, zero: Y, p: X)
    requires Rows(acc, rows, enc, zero)
    requires |acc| < |rows|
    ensures Rows(acc + [p], rows[|acc| := enc(p)], enc, zero)
  {
  }

  /** Dropping the first game removes exactly its moves from the total. */
  lemma {:induction false} TotalMovesPrefixSuffix(games: seq<ChessGame>)
    requires |games| > 0
    ensures TotalMoves(games) == |games[0].moves| + TotalMoves(games[1..])
    decreases |games|
  {
    var n := |games| - 1;
    if n > 0 {
      assert games[..n][1..] == games[1..][..n - 1];
      assert games[..n][0] == games[0];
      TotalMovesPrefixSuffix(games[..n]);
    }
  }

  /** The pairs of a list of games, each game replayed from the starting position. */
  function EncodedPairs<B, U, M>(R: UciRules<B, U, M>, games: seq<ChessGame>): Result<seq<Pair<B, M>>, EncodeError>
  {
    Pairs(R, R.start, [], games)
  }

  /** Rows below `|acc|` encode the items of `acc` by `enc`; the rest are still `zero`. */
  ghost predicate Rows<X, Y>(acc: seq<X>, rows: seq<Y>, enc: X -> Y, zero: Y)
  {
    && |acc| <= |rows|
    && (forall i :: 0 <= i < |acc| ==> rows[i] == enc(acc[i]))
    && (forall i :: |acc| <= i < |rows| ==> rows[i] == zero)
  }

  /** The row of the position array for a pair: the board before the move. */
  function PositionRow<B, U, M>(R: UciRules<B, U, M>): Pair<B, M> -> seq<int>
  {
    (p: Pair<B, M>) => PositionTensor(R.view(p.board))
  }

  /** The row of the move array for a pair: the move's squares. */
  function MoveRow<B, U, M>(R: UciRules<B, U, M>): Pair<B, M> -> seq<int>
  {
    (p: Pair<B, M>) => MoveTensor(R.from(p.mv), R.to(p.mv))
  }

  /** The preallocated arrays and the two row counters of the fill loop. */
  datatype Fill = Fill(positions: seq<seq<int>>, moves: seq<seq<int>>, positionIndex: nat, moveIndex: nat)

  /** The fill state agrees with the pairs `acc` produced so far. */
  ghost predicate FillMatches<B, U, M>(R: UciRules<B, U, M>, acc: seq<Pair<B, M>>, f: Fill)
  {
    FillAgrees(acc, f, PositionRow(R), MoveRow(R), Zeros(PositionCells), Zeros(MoveCells))
  }

  /** Both counters stand at `|acc|` and both arrays hold the rows of `acc`, zero beyond. */
  ghost predicate FillAgrees<X>(acc: seq<X>, f: Fill, position: X -> seq<int>, move: X -> seq<int>, zeroPosition: seq<int>, zeroMove: seq<int>)
  {
    && f.positionIndex == f.moveIndex == |acc|
    && |f.positions| == |f.moves|
    && Rows(acc, f.positions, position, zeroPosition)
    && Rows(acc, f.moves, move, zeroMove)
  }

  /** Writing the rows of one more item at both counters and advancing them keeps the fill in step. */
  lemma FillExtend<X>(acc: seq<X>, f: Fill, position: X -> seq<int>, move: X -> seq<int>, zeroPosition: seq<int>, zeroMove: seq<int>, p: X)
    requires FillAgrees(acc, f, position, move, zeroPosition, zeroMove)
    requires |acc| < |f.positions|
    ensures FillAgrees(acc + [p], Fill(f.positions[f.positionIndex := position(p)], f.moves[f.moveIndex := move(p)],
                                       f.positionIndex + 1, f.moveIndex + 1),
                       position, move, zeroPosition, zeroMove)
  {
    RowsExtend(acc, f.positions, position, zeroPosition, p);
    RowsExtend(acc, f.moves, move, zeroMove, p);
  }

  /** The reference step the fill loop takes at move string `j` of a game, with `acc` already produced. */
  lemma PairsStep<B, U, M>(R: UciRules<B, U, M>, acc: seq<Pair<B, M>>, board: B, ms: seq<string>, j: nat, later: seq<ChessGame>)
    requires j < |ms|
    ensures R.parseUci(ms[j]).None? ==> Prepend(acc, Pairs(R, board, ms[j..], later)) == Err(InvalidUciMove)
    ensures R.parseUci(ms[j]).Some? && R.toMove(R.parseUci(ms[j]).value, board).None? ==>
              Prepend(acc, Pairs(R, board, ms[j..], later)) == Err(InvalidChessMove)
    ensures R.parseUci(ms[j]).Some? && R.toMove(R.parseUci(ms[j]).value, board).Some? ==>
              var m := R.toMove(R.parseUci(ms[j]).value, board).value;
              Prepend(acc, Pairs(R, board, ms[j..], later)) ==
                if R.isLegal(board, m) then Prepend(acc + [Pair(board, m)], Pairs(R, R.playUnchecked(board, m), ms[j + 1..], later))
                else Prepend(acc, Pairs(R, board, ms[j + 1..], later))
  {
    assert ms[j..][0] == ms[j] && ms[j..][1..] == ms[j + 1..];
    PairsUnfold(R, board, ms[j..], later);
    var u := R.parseUci(ms[j]);
    if u.Some? && R.toMove(u.value, board).Some? {
      var m := R.toMove(u.value, board).value;
      if R.isLegal(board, m) {
        PrependAssoc(acc, Pair(board, m), Pairs(R, R.playUnchecked(board, m), ms[j + 1..], later));
      }
    }
  }

  /** Writing the encodings of one more pair into the next row of both arrays. */
  method PushPair<B, U, M>(R: UciRules<B, U, M>, ghost acc: seq<Pair<B, M>>, f: Fill, p: Pair<B, M>) returns (f': Fill)
    requires FillMatches(R, acc, f)
    requires |acc| < |f.positions|
    ensures FillMatches(R, acc + [p], f')
    ensures |f'.positions| == |f.positions|
  {
    FillExtend(acc, f, PositionRow(R), MoveRow(R), Zeros(PositionCells), Zeros(MoveCells), p);
    f' := Fill(f.positions[f.positionIndex := PositionRow(R)(p)], f.moves[f.moveIndex := MoveRow(R)(p)],
               f.positionIndex + 1, f.moveIndex + 1);
  }

  /**
    The inner loop of `process_games` over the move strings of one game, replayed from the
    starting position; `later` are the games still to come.
  */
  method FillGame<B, U, M>(R: UciRules<B, U, M>, ms: seq<string>, ghost later: seq<ChessGame>, ghost acc: seq<Pair<B, M>>, f: Fill)
    returns (r: Result<Fill, EncodeError>, ghost acc': seq<Pair<B, M>>)
    requires FillMatches(R, acc, f)
    requires |acc| + |ms| <= |f.positions|
    ensures r.Err? ==> Prepend(acc, Pairs(R, R.start, ms, later)) == Err(r.error)
    ensures r.Ok? ==>
              && Prepend(acc, Pairs(R, R.start, ms, later)) == Prepend(acc', Pairs(R, R.start, [], later))
              && FillMatches(R, acc', r.value)
              && |r.value.positions| == |f.positions|
              && |acc'| <= |acc| + |ms|
  {
    var fill := f;
    var board := R.start;
    acc' := acc;
    assert ms[0..] == ms;
    var j := 0;
    while j < |ms|
      invariant j <= |ms|
      invariant |acc| <= |acc'| <= |acc| + j
      invariant FillMatches(R, acc', fill)
      invariant |fill.positions| == |f.positions|
      invariant Prepend(acc, Pairs(R, R.start, ms, later)) == Prepend(acc', Pairs(R, board, ms[j..], later))
    {
      PairsStep(R, acc', board, ms, j, later);
      var uci := R.parseUci(ms[j]);
      if uci.None? {
        return Err(InvalidUciMove), acc';
      }
      var chessMove := R.toMove(uci.value, board);
      if chessMove.None? {
        return Err(InvalidChessMove), acc';
      }
      var m := chessMove.value;
      if R.isLegal(board, m) {
        fill := PushPair(R, acc', fill, Pair(board, m));
        acc' := acc' + [Pair(board, m)];
        board := R.playUnchecked(board, m);
      }
      j := j + 1;
    }
    r := Ok(fill);
  }

  /**
    `process_games`: the position and move counters advance together; row `i` of the position
    array encodes the board before the `i`-th legal move and row `i` of the move array encodes
    that move. Rows past the last legal move stay zero.
  */
  method ProcessGames<B, U, M>(R: UciRules<B, U, M>, games: seq<ChessGame>) returns (r: Result<Tensors, EncodeError>)
    ensures r.Ok? <==> EncodedPairs(R, games).Ok?
    ensures r.Err? ==> r.error == EncodedPairs(R, games).error
    ensures r.Ok? ==>
              var ps := EncodedPairs(R, games).value;
              && |r.value.positions| == TotalMoves(games)
              && |r.value.moves| == TotalMoves(games)
              && |ps| <= TotalMoves(games)
              && (forall i :: 0 <= i < |ps| ==> r.value.positions[i] == PositionTensor(R.view(ps[i].board)))
              && (forall i :: 0 <= i < |ps| ==> r.value.moves[i] == MoveTensor(R.from(ps[i].mv), R.to(ps[i].mv)))
              && (forall i :: |ps| <= i < TotalMoves(games) ==> r.value.positions[i] == Zeros(PositionCells))
              && (forall i :: |ps| <= i < TotalMoves(games) ==> r.value.moves[i] == Zeros(MoveCells))
  {
    var total := TotalMoves(games);
    var f := Fill(seq(total, _ => Zeros(PositionCells)), seq(total, _ => Zeros(MoveCells)), 0, 0);
    ghost var acc: seq<Pair<B, M>> := [];
    assert games[..0] == [] && games[0..] == games;
    PrependNothing(Pairs(R, R.start, [], games));
    var g := 0;
    while g < |games|
      invariant g <= |games|
      invariant |f.positions| == total
      invariant |acc| <= TotalMoves(games[..g])
      invariant FillMatches(R, acc, f)
      invariant EncodedPairs(R, games) == Prepend(acc, Pairs(R, R.start, [], games[g..]))
    {
      assert games[g..][0] == games[g] && games[g..][1..] == games[g + 1..];
      TotalMovesSnoc(games, g);
      TotalMovesPrefix(games, g + 1);
      var res;
      res, acc := FillGame(R, games[g].moves, games[g + 1..], acc, f);
      if res.Err? {
        return Err(res.error);
      }
      f := res.value;
      g := g + 1;
    }
    assert games[..g] == games;
    assert acc + [] == acc;
    r := Ok(Tensors(f.positions, f.moves));
  }
}

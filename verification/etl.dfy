/**
  The validating game replayer (`MyVisitor` of the gamma_chess crate) and the chunk reader that
  drives it. Every SAN token of a game is parsed, resolved against the current board and played;
  the first failure discards the whole game. Accepted games are kept as lists of UCI strings.
*/
module Etl {
  import opened Wrappers
  import opened Corpus

  /**
    The chess and notation layer, left uninterpreted: the standard starting position, SAN parsing
    (section 8.2.3 of the PGN standard), resolution of a SAN move on a board, playing a move, and
    the UCI rendering of a move.
  */
  datatype SanRules<!Board, !San, !Move> = SanRules(
    start: Board,
    parseSan: string -> Option<San>,
    toMove: (San, Board) -> Option<Move>,
    play: (Board, Move) -> Option<Board>,
    uci: Move -> string)

  /** Why a game was dropped. */
  datatype DiscardReason = UnparsableSan | UnconvertibleSan | UnplayableMove

  /** The fate of one game under replay. */
  datatype GameOutcome = Accepted(moves: seq<string>) | Discarded(reason: DiscardReason)

  /** One successfully replayed move: its UCI text and the board after it. */
  datatype Played<Board> = Played(uci: string, next: Board)

  /** Reference semantics of one SAN token on a board. */
  function MoveOf<B, S, M>(R: SanRules<B, S, M>, board: B, token: string): Result<Played<B>, DiscardReason>
  {
    match R.parseSan(token)
    case None => Err(UnparsableSan)
    case Some(san) =>
      match R.toMove(san, board)
      case None => Err(UnconvertibleSan)
      case Some(m) =>
        match R.play(board, m)
        case None => Err(UnplayableMove)
        case Some(b) => Ok(Played(R.uci(m), b))
  }

  /** Reference semantics of a whole game: all moves in UCI form, or the first reason to drop it. */
  function Replay<B, S, M>(R: SanRules<B, S, M>, board: B, tokens: seq<string>): GameOutcome
    decreases |tokens|
  {
    if |tokens| == 0 then Accepted([])
    else
      match MoveOf(R, board, tokens[0])
      case Err(e) => Discarded(e)
      case Ok(p) =>
        match Replay(R, p.next, tokens[1..])
        case Discarded(e) => Discarded(e)
        case Accepted(ms) => Accepted([p.uci] + ms)
  }

  /** What one game contributes to the output: its moves if it replays from the starting position, nothing otherwise. */
  function Contribution<B, S, M>(R: SanRules<B, S, M>, tokens: seq<string>): seq<seq<string>>
  {
    match Replay(R, R.start, tokens)
    case Accepted(ms) => [ms]
    case Discarded(_) => []
  }

  /** The accepted games of a stream, in stream order. */
  function AcceptedGames<B, S, M>(R: SanRules<B, S, M>, games: seq<seq<string>>): seq<seq<string>>
    decreases |games|
  {
    if |games| == 0 then [] else Contribution(R, games[0]) + AcceptedGames(R, games[1..])
  }

  lemma {:induction false} AcceptedGamesAppend<B, S, M>(R: SanRules<B, S, M>, a: seq<seq<string>>, b: seq<seq<string>>)
    ensures AcceptedGames(R, a + b) == AcceptedGames(R, a) + AcceptedGames(R, b)
    decreases |a|
  {
    if |a| == 0 {
      assert a + b == b;
    } else {
      assert (a + b)[1..] == a[1..] + b;
      AcceptedGamesAppend(R, a[1..], b);
    }
  }

  /** A discarded game contributes nothing, and the games around it contribute what they would without it. */
  lemma DiscardedGameIsolated<B, S, M>(R: SanRules<B, S, M>, before: seq<seq<string>>, game: seq<string>, after: seq<seq<string>>)
    requires Replay(R, R.start, game).Discarded?
    ensures AcceptedGames(R, before + [game] + after) == AcceptedGames(R, before) + AcceptedGames(R, after)
  {
    var single := [game];
    assert single[1..] == [];
    assert Contribution(R, game) == [];
    assert AcceptedGames(R, single) == Contribution(R, single[0]) + AcceptedGames(R, single[1..]);
    AcceptedGamesAppend(R, before + single, after);
    AcceptedGamesAppend(R, before, single);
    assert AcceptedGames(R, before) + [] == AcceptedGames(R, before);
  }

  /** The visitor state: finished games, the moves of the game in progress, its board, the quota and the skip flag. */
  datatype Visitor<Board> = Visitor(
    games: seq<seq<string>>,
    current: seq<string>,
    board: Board,
    maxGames: nat,
    skip: bool)

  function New<B, S, M>(R: SanRules<B, S, M>, maxGames: nat): Visitor<B>
  {
    Visitor([], [], R.start, maxGames, false)
  }

  predicate IsDone<B>(v: Visitor<B>)
  {
    |v.games| >= v.maxGames
  }

  function SkipGame<B>(v: Visitor<B>): Visitor<B>
  {
    v.(current := [], skip := true)
  }

  /** `begin_game`: a fresh move list, the starting position, and the skip flag cleared. */
  function BeginGame<B, S, M>(R: SanRules<B, S, M>, v: Visitor<B>): (r: Visitor<B>)
    ensures r.current == [] && r.board == R.start && !r.skip
    ensures r.games == v.games && r.maxGames == v.maxGames
  {
    v.(current := [], board := R.start, skip := false)
  }

  /**
    `san`: the UCI text is pushed as soon as the SAN resolves to a move, and the list is cleared
    again if playing that move fails.
  */
  function San<B, S, M>(R: SanRules<B, S, M>, v: Visitor<B>, token: string): (r: Visitor<B>)
    ensures v.skip ==> r == v
    ensures !v.skip ==> r.games == v.games && r.maxGames == v.maxGames
    ensures !v.skip && MoveOf(R, v.board, token).Ok? ==>
              var p := MoveOf(R, v.board, token).value;
              r.current == v.current + [p.uci] && r.board == p.next && !r.skip
    ensures !v.skip && MoveOf(R, v.board, token).Err? ==> r.current == [] && r.skip
  {
    if v.skip then v
    else
      match R.parseSan(token)
      case None => SkipGame(v)
      case Some(san) =>
        match R.toMove(san, v.board)
        case None => SkipGame(v)
        case Some(m) =>
          var pushed := v.(current := v.current + [R.uci(m)]);
          match R.play(v.board, m)
          case Some(b) => pushed.(board := b)
          case None => SkipGame(pushed)
  }

  /** `end_game`: the finished move list becomes one game unless the game was skipped. */
  function EndGame<B>(v: Visitor<B>): (r: Visitor<B>)
    ensures r.games == if v.skip then v.games else v.games + [v.current]
    ensures r.maxGames == v.maxGames
    ensures !v.skip ==> r.current == []
  {
    if v.skip then v else v.(games := v.games + [v.current], current := [])
  }

  /** Feeds the SAN tokens of one movetext to the visitor, in order. */
  function SanAll<B, S, M>(R: SanRules<B, S, M>, v: Visitor<B>, tokens: seq<string>): Visitor<B>
    decreases |tokens|
  {
    if |tokens| == 0 then v else SanAll(R, San(R, v, tokens[0]), tokens[1..])
  }

  /** Token by token, the visitor agrees with the reference replay: it accumulates exactly the accepted moves, or ends skipped with an empty list. */
  lemma {:induction false} SanAllReplays<B, S, M>(R: SanRules<B, S, M>, v: Visitor<B>, tokens: seq<string>)
    ensures v.skip ==> SanAll(R, v, tokens) == v
    ensures SanAll(R, v, tokens).games == v.games && SanAll(R, v, tokens).maxGames == v.maxGames
    ensures !v.skip && Replay(R, v.board, tokens).Accepted? ==>
              !SanAll(R, v, tokens).skip &&
              SanAll(R, v, tokens).current == v.current + Replay(R, v.board, tokens).moves
    ensures !v.skip && Replay(R, v.board, tokens).Discarded? ==>
              SanAll(R, v, tokens).skip && SanAll(R, v, tokens).current == []
    decreases |tokens|
  {
    if |tokens| > 0 {
      var v1 := San(R, v, tokens[0]);
      SanAllReplays(R, v1, tokens[1..]);
      if !v.skip && MoveOf(R, v.board, tokens[0]).Ok? && Replay(R, v.board, tokens).Accepted? {
        var p := MoveOf(R, v.board, tokens[0]).value;
        assert v1.current + Replay(R, p.next, tokens[1..]).moves
            == v.current + ([p.uci] + Replay(R, p.next, tokens[1..]).moves);
      }
    } else {
      assert v.current + [] == v.current;
    }
  }

  /**
    One game read by `read_game`: `begin_game`, every SAN token, `end_game`. The game is
    appended exactly when every token replays; a discarded game leaves the collected games as
    they were.
  */
  function VisitGame<B, S, M>(R: SanRules<B, S, M>, v: Visitor<B>, tokens: seq<string>): (r: Visitor<B>)
    ensures r.maxGames == v.maxGames
    ensures r.games == v.games + Contribution(R, tokens)
  {
    var b := BeginGame(R, v);
    SanAllReplays(R, b, tokens);
    var w := SanAll(R, b, tokens);
    assert Replay(R, R.start, tokens).Accepted? ==> w.current == Replay(R, R.start, tokens).moves;
    assert v.games + [] == v.games;
    EndGame(w)
  }

  /** The driver loop: read games until the quota is met or the stream ends. */
  function ReadLoop<B, S, M>(R: SanRules<B, S, M>, v: Visitor<B>, games: seq<seq<string>>): Visitor<B>
    decreases |games|
  {
    if |games| == 0 then v
    else
      var v1 := VisitGame(R, v, games[0]);
      if IsDone(v1) then v1 else ReadLoop(R, v1, games[1..])
  }

  lemma TakeAppend<T>(a: seq<T>, b: seq<T>, n: nat)
    requires |a| <= n
    ensures Take(a + b, n) == a + Take(b, n - |a|)
  {
    if n - |a| <= |b| {
      assert (a + b)[..n] == a + b[..n - |a|];
    }
  }

  /**
    Below its quota, the loop appends exactly the first accepted games of the stream, up to the
    quota: discarded games never count toward it.
  */
  lemma {:induction false} ReadLoopTakesAccepted<B, S, M>(R: SanRules<B, S, M>, v: Visitor<B>, games: seq<seq<string>>)
    requires |v.games| < v.maxGames
    ensures ReadLoop(R, v, games).games == v.games + Take(AcceptedGames(R, games), v.maxGames - |v.games|)
    decreases |games|
  {
    if |games| == 0 {
      assert v.games + [] == v.games;
    } else {
      var n := v.maxGames - |v.games|;
      var v1 := VisitGame(R, v, games[0]);
      var rest := AcceptedGames(R, games[1..]);
      var head := Contribution(R, games[0]);
      assert v1.games == v.games + head && v1.maxGames == v.maxGames;
      assert |head| <= 1;
      assert AcceptedGames(R, games) == head + rest;
      TakeAppend(head, rest, n);
      if IsDone(v1) {
        assert ReadLoop(R, v, games) == v1;
        assert |head| == n;
        assert Take(rest, 0) == [];
        assert head + [] == head;
      } else {
        assert ReadLoop(R, v, games) == ReadLoop(R, v1, games[1..]);
        ReadLoopTakesAccepted(R, v1, games[1..]);
        assert v.games + head + Take(rest, n - |head|) == v.games + (head + Take(rest, n - |head|));
      }
    }
  }

  /** The reasons `read_games_in_chunk` fails. */
  datatype ChunkError = InvalidStartIndex

  /**
    `read_games_in_chunk`: look up the offset of game `startIndex`, seek the corpus there and
    collect up to `chunkSize` accepted games. `tokenize` stands for the PGN reader: the SAN
    tokens of each game it delivers from a byte stream, in order.
  */
  function ReadGamesInChunk<B, S, M>(
    R: SanRules<B, S, M>,
    index: seq<nat>,
    corpus: seq<Byte>,
    tokenize: seq<Byte> -> seq<seq<string>>,
    startIndex: nat,
    chunkSize: nat): (r: Result<seq<seq<string>>, ChunkError>)
    ensures r.Err? <==> startIndex >= |index|
    ensures r.Err? ==> r.error == InvalidStartIndex
    ensures r.Ok? && chunkSize >= 1 ==>
              r.value == Take(AcceptedGames(R, tokenize(Seek(corpus, index[startIndex]))), chunkSize)
    ensures r.Ok? && chunkSize == 0 ==>
              r.value == AcceptedGames(R, Take(tokenize(Seek(corpus, index[startIndex])), 1))
  {
    match Lookup(index, startIndex)
    case None => Err(InvalidStartIndex)
    case Some(offset) =>
      var games := tokenize(Seek(corpus, offset));
      var v := New(R, chunkSize);
      if chunkSize >= 1 then
        ReadLoopTakesAccepted(R, v, games);
        assert [] + Take(AcceptedGames(R, games), chunkSize) == Take(AcceptedGames(R, games), chunkSize);
        Ok(ReadLoop(R, v, games).games)
      else
        assert |games| > 0 ==> AcceptedGames(R, games[..1]) == AcceptedGames(R, [games[0]]);
        Ok(ReadLoop(R, v, games).games)
  }
}

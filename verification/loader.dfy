/**
  The non-validating game reader of the data-loader crate: its visitor keeps every SAN token of
  every game, unchecked, and its chunk reader collects games until the quota is met.
*/
module Loader {
  import opened Wrappers
  import opened Corpus

  /** The visitor state: finished games, the tokens of the game in progress, and the quota. */
  datatype Visitor<T> = Visitor(games: seq<seq<T>>, current: seq<T>, maxGames: nat)

  function New<T>(maxGames: nat): Visitor<T>
  {
    Visitor([], [], maxGames)
  }

  predicate IsDone<T>(v: Visitor<T>)
  {
    |v.games| >= v.maxGames
  }

  function BeginGame<T>(v: Visitor<T>): Visitor<T>
  {
    v.(current := [])
  }

  function San<T>(v: Visitor<T>, token: T): Visitor<T>
  {
    v.(current := v.current + [token])
  }

  function EndGame<T>(v: Visitor<T>): Visitor<T>
  {
    v.(games := v.games + [v.current], current := [])
  }

  /** Feeds the tokens of one movetext to the visitor, in order. */
  function SanAll<T>(v: Visitor<T>, tokens: seq<T>): Visitor<T>
    decreases |tokens|
  {
    if |tokens| == 0 then v else SanAll(San(v, tokens[0]), tokens[1..])
  }

  /** Every token is appended, in order, and nothing else changes. */
  lemma {:induction false} SanAllAppends<T>(v: Visitor<T>, tokens: seq<T>)
    ensures SanAll(v, tokens) == v.(current := v.current + tokens)
    decreases |tokens|
  {
    if |tokens| == 0 {
      assert v.current + tokens == v.current;
    } else {
      SanAllAppends(San(v, tokens[0]), tokens[1..]);
      assert v.current + [tokens[0]] + tokens[1..] == v.current + tokens;
    }
  }

  /** One game read by `read_game`: it is always appended, token for token, and the move list is left empty. */
  function VisitGame<T>(v: Visitor<T>, tokens: seq<T>): (r: Visitor<T>)
    ensures r.games == v.games + [tokens]
    ensures r.current == [] && r.maxGames == v.maxGames
  {
    SanAllAppends(BeginGame(v), tokens);
    assert [] + tokens == tokens;
    EndGame(SanAll(BeginGame(v), tokens))
  }

  /** The driver loop: read games until the quota is met or the stream ends. */
  function ReadLoop<T>(v: Visitor<T>, games: seq<seq<T>>): Visitor<T>
    decreases |games|
  {
    if |games| == 0 then v
    else
      var v1 := VisitGame(v, games[0]);
      if IsDone(v1) then v1 else ReadLoop(v1, games[1..])
  }

  /** Below its quota, the loop appends the next games of the stream until the quota is met. */
  lemma {:induction false} ReadLoopTakes<T>(v: Visitor<T>, games: seq<seq<T>>)
    requires |v.games| < v.maxGames
    ensures ReadLoop(v, games).games == v.games + Take(games, v.maxGames - |v.games|)
    decreases |games|
  {
    if |games| == 0 {
      assert v.games + [] == v.games;
    } else {
      var v1 := VisitGame(v, games[0]);
      assert games == [games[0]] + games[1..];
      if !IsDone(v1) {
        ReadLoopTakes(v1, games[1..]);
        var n := v.maxGames - |v.games|;
        if n <= |games| {
          assert games[..n] == [games[0]] + games[1..][..n - 1];
        }
      }
    }
  }

  /** The reasons `read_games_in_chunk` fails. */
  datatype ChunkError = InvalidStartIndex

  /**
    `read_games_in_chunk`: look up the offset of game `startIndex`, seek the corpus there and
    collect the next `chunkSize` games. `tokenize` stands for the PGN reader: the SAN tokens of
    each game it delivers from a byte stream, in order.
  */
  function ReadGamesInChunk<T>(
    index: seq<nat>,
    corpus: seq<Byte>,
    tokenize: seq<Byte> -> seq<seq<T>>,
    startIndex: nat,
    chunkSize: nat): (r: Result<seq<seq<T>>, ChunkError>)
    ensures r.Err? <==> startIndex >= |index|
    ensures r.Err? ==> r.error == InvalidStartIndex
    ensures r.Ok? ==>
              var games := tokenize(Seek(corpus, index[startIndex]));
              r.value == Take(games, if chunkSize == 0 then 1 else chunkSize)
  {
    match Lookup(index, startIndex)
    case None => Err(InvalidStartIndex)
    case Some(offset) =>
      var games := tokenize(Seek(corpus, offset));
      var v := New(chunkSize);
      if chunkSize >= 1 then
        ReadLoopTakes(v, games);
        assert [] + Take(games, chunkSize) == Take(games, chunkSize);
        Ok(ReadLoop(v, games).games)
      else
        assert |games| > 0 ==> games[..1] == [games[0]];
        Ok(ReadLoop(v, games).games)
  }

  /** On a stream holding at least `chunkSize` games, a chunk of exactly `chunkSize` games comes back. */
  lemma FullChunk<T>(index: seq<nat>, corpus: seq<Byte>, tokenize: seq<Byte> -> seq<seq<T>>, startIndex: nat, chunkSize: nat)
    requires startIndex < |index| && chunkSize >= 1
    requires |tokenize(Seek(corpus, index[startIndex]))| >= chunkSize
    ensures ReadGamesInChunk(index, corpus, tokenize, startIndex, chunkSize).Ok?
    ensures |ReadGamesInChunk(index, corpus, tokenize, startIndex, chunkSize).value| == chunkSize
  {
  }
}

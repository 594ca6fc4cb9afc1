/**
  `load_pgn_chunk` of the Python prototype (and its notebook checkpoint copy): skip the games
  before the requested 1-indexed chunk, then read up to `chunk_size` games. The PGN reader is a
  sequence of outcomes of `chess.pgn.read_game`; past its end it keeps returning `None`.
*/
module PgnChunk {
  import opened Wrappers

  /** One call of `read_game`: a game, `None` at the end of the file, or an exception. */
  datatype ReadOutcome<G> = Read(game: G) | Exhausted | Failed

  /** The outcome of the `k`-th call; every call past the recorded ones finds the end of the file. */
  function At<G>(reader: seq<ReadOutcome<G>>, k: nat): ReadOutcome<G>
  {
    if k < |reader| then reader[k] else Exhausted
  }

  /** `(chunk_number - 1) * chunk_size` on Python integers. */
  function StartGame(chunkSize: int, chunkNumber: int): int
  {
    (chunkNumber - 1) * chunkSize
  }

  /** The number of iterations of `range(n)`: none for a negative `n`. */
  function Iterations(n: int): nat
  {
    if n < 0 then 0 else n
  }

  /**
    The skipping loop from call `pos` on, for `n` iterations: the position reached, or None when
    a call finds the end of the file. A failed call still uses up its iteration.
  */
  function Skip<G>(reader: seq<ReadOutcome<G>>, pos: nat, n: nat): (r: Option<nat>)
    ensures r.Some? ==> r.value == pos + n
    ensures r.None? <==> exists k :: pos <= k < pos + n && At(reader, k).Exhausted?
    decreases n
  {
    if n == 0 then Some(pos)
    else if At(reader, pos).Exhausted? then None
    else
      var r := Skip(reader, pos + 1, n - 1);
      assert r.None? ==> exists k :: pos <= k < pos + n && At(reader, k).Exhausted?;
      r
  }

  /**
    The reading loop from call `pos` on, for `n` iterations: the games read, stopping at the end
    of the file; a failed call is passed over but uses up its iteration.
  */
  function TakeGames<G>(reader: seq<ReadOutcome<G>>, pos: nat, n: nat): (games: seq<G>)
    ensures |games| <= n
    decreases n
  {
    if n == 0 then []
    else
      match At(reader, pos)
      case Exhausted => []
      case Failed => TakeGames(reader, pos + 1, n - 1)
      case Read(g) => [g] + TakeGames(reader, pos + 1, n - 1)
  }

  /** Reference semantics of `load_pgn_chunk`. */
  function Load<G>(reader: seq<ReadOutcome<G>>, chunkSize: int, chunkNumber: int): (games: seq<G>)
    ensures |games| <= Iterations(chunkSize)
  {
    match Skip(reader, 0, Iterations(StartGame(chunkSize, chunkNumber)))
    case None => []
    case Some(pos) => TakeGames(reader, pos, Iterations(chunkSize))
  }

  /** `load_pgn_chunk` with its two loops. */
  method LoadPgnChunk<G>(reader: seq<ReadOutcome<G>>, chunkSize: int, chunkNumber: int) returns (games: seq<G>)
    ensures games == Load(reader, chunkSize, chunkNumber)
    ensures |games| <= Iterations(chunkSize)
  {
    games := [];
    var startGame := (chunkNumber - 1) * chunkSize;
    var skips := Iterations(startGame);
    var pos := 0;
    var i := 0;
    while i < skips
      invariant i <= skips && pos == i
      invariant Skip(reader, 0, skips) == Skip(reader, pos, skips - i)
    {
      var outcome := At(reader, pos);
      pos := pos + 1;
      if outcome.Exhausted? {
        return [];
      }
      i := i + 1;
    }
    var start := pos;
    var takes := Iterations(chunkSize);
    var j := 0;
    while j < takes
      invariant j <= takes && pos == start + j
      invariant games + TakeGames(reader, pos, takes - j) == TakeGames(reader, start, takes)
    {
      var outcome := At(reader, pos);
      pos := pos + 1;
      if outcome.Exhausted? {
        assert games + [] == games;
        break;
      }
      if outcome.Read? {
        assert games + [outcome.game] + TakeGames(reader, pos, takes - j - 1)
            == games + ([outcome.game] + TakeGames(reader, pos, takes - j - 1));
        games := games + [outcome.game];
      }
      j := j + 1;
    }
    if j == takes {
      assert games + [] == games;
    }
  }

  /** The reader holds games only: no exception, no early end. */
  predicate Clean<G>(reader: seq<ReadOutcome<G>>)
  {
    forall k :: 0 <= k < |reader| ==> reader[k].Read?
  }

  /** The games of a clean reader. */
  function GamesOf<G>(reader: seq<ReadOutcome<G>>): (games: seq<G>)
    requires Clean(reader)
    ensures |games| == |reader|
    ensures forall k :: 0 <= k < |reader| ==> games[k] == reader[k].game
  {
    seq(|reader|, k requires 0 <= k < |reader| => reader[k].game)
  }

  lemma {:induction false} TakeGamesClean<G>(reader: seq<ReadOutcome<G>>, pos: nat, n: nat)
    requires Clean(reader) && pos <= |reader|
    ensures TakeGames(reader, pos, n) == GamesOf(reader)[pos..if pos + n <= |reader| then pos + n else |reader|]
    decreases n
  {
    var games := GamesOf(reader);
    if n > 0 && pos < |reader| {
      TakeGamesClean(reader, pos + 1, n - 1);
      var end := if pos + n <= |reader| then pos + n else |reader|;
      assert games[pos..end] == [games[pos]] + games[pos + 1..end];
    }
  }

  /**
    Without exceptions, chunk `chunk_number` (counted from 1) is the slice
    `games[start_game : start_game + chunk_size]`, clipped at the end of the file; a chunk that
    starts past the end is empty.
  */
  lemma LoadIsSlice<G>(reader: seq<ReadOutcome<G>>, chunkSize: int, chunkNumber: int)
    requires Clean(reader) && chunkSize >= 0 && chunkNumber >= 1
    ensures var start := StartGame(chunkSize, chunkNumber);
            var n := |reader|;
            && start >= 0
            && Load(reader, chunkSize, chunkNumber) ==
                 if start > n then [] else GamesOf(reader)[start..if start + chunkSize <= n then start + chunkSize else n]
  {
    var start := StartGame(chunkSize, chunkNumber);
    NonNegativeProduct(chunkNumber - 1, chunkSize);
    if start <= |reader| {
      SkipClean(reader, 0, start);
      TakeGamesClean(reader, start, chunkSize);
    } else {
      assert At(reader, |reader|).Exhausted?;
    }
  }

  lemma NonNegativeProduct(a: int, b: int)
    requires a >= 0 && b >= 0
    ensures a * b >= 0
  {
  }

  /** Skipping within a clean reader reaches its target. */
  lemma SkipClean<G>(reader: seq<ReadOutcome<G>>, pos: nat, n: nat)
    requires Clean(reader) && pos + n <= |reader|
    ensures Skip(reader, pos, n) == Some(pos + n)
  {
  }

  /** If the file ends before the chunk starts, the chunk is empty. */
  lemma ExhaustedWhileSkipping<G>(reader: seq<ReadOutcome<G>>, chunkSize: int, chunkNumber: int, k: nat)
    requires k < StartGame(chunkSize, chunkNumber) && At(reader, k).Exhausted?
    ensures Load(reader, chunkSize, chunkNumber) == []
  {
  }

  /** Number of failed calls among calls `pos .. pos + n - 1`. */
  function Failures<G>(reader: seq<ReadOutcome<G>>, pos: nat, n: nat): nat
    decreases n
  {
    if n == 0 then 0 else (if At(reader, pos).Failed? then 1 else 0) + Failures(reader, pos + 1, n - 1)
  }

  /**
    When the file does not end within the reading loop, every iteration either adds a game or is
    used up by an exception: games and failures add up to the iterations.
  */
  lemma {:induction false} FailuresCostIterations<G>(reader: seq<ReadOutcome<G>>, pos: nat, n: nat)
    requires forall k :: pos <= k < pos + n ==> !At(reader, k).Exhausted?
    ensures |TakeGames(reader, pos, n)| + Failures(reader, pos, n) == n
    decreases n
  {
    if n > 0 {
      FailuresCostIterations(reader, pos + 1, n - 1);
    }
  }

  /** Reading stops at an end of file: the outcomes recorded after it are never asked for. */
  lemma {:induction false} StopsAtEnd<G>(reader: seq<ReadOutcome<G>>, pos: nat, n: nat, k: nat, later: seq<ReadOutcome<G>>)
    requires pos <= k < pos + n && k < |reader| && reader[k].Exhausted?
    ensures TakeGames(reader, pos, n) == TakeGames(reader + later, pos, n)
    decreases n
  {
    assert (reader + later)[pos] == reader[pos];
    if pos < k {
      StopsAtEnd(reader, pos + 1, n - 1, k, later);
    }
  }
}

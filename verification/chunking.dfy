/**
  The preprocessing driver, in both of its copies (the workflows crate, built on the validating
  reader of `etl`, and the data-loader binary, built on the plain reader of `loader`): the games
  are split into chunks of `CHUNK_SIZE`, the last one short, and each chunk is read, wrapped as a
  `ChessDataSet` and written to `<folder>/<chunk id>.pb`.
*/
module Chunking {
  import opened Wrappers
  import opened Corpus
  import opened Decimal
  import opened Proto
  import Etl
  import Loader

  const ChunkSize: nat := 10_000
  const TotalGames: nat := 6_225_957

  /** `ceil(total / chunk)`: the fewest chunks of `chunk` games that hold `total` games. */
  function NumChunks(total: nat, chunk: nat): (n: nat)
    requires chunk >= 1
    ensures n * chunk >= total
    ensures n >= 1 ==> (n - 1) * chunk < total
    ensures n == 0 <==> total == 0
  {
    total / chunk + if total % chunk == 0 then 0 else 1
  }

  /** `num_chunks - 1`; the subtraction would underflow for an empty corpus. */
  function LastChunkId(total: nat, chunk: nat): (id: nat)
    requires chunk >= 1 && total >= 1
    ensures id * chunk < total <= id * chunk + chunk
  {
    NumChunks(total, chunk) - 1
  }

  /** `actual_chunk_size`: the full size, except for the last chunk, which holds what is left. */
  function ActualChunkSize(id: nat, total: nat, chunk: nat): (size: nat)
    requires chunk >= 1 && total >= 1 && id <= LastChunkId(total, chunk)
    ensures 1 <= size <= chunk
    ensures id < LastChunkId(total, chunk) ==> size == chunk
    ensures id == LastChunkId(total, chunk) ==> id * chunk + size == total
  {
    if id == LastChunkId(total, chunk) then total - LastChunkId(total, chunk) * chunk else chunk
  }

  /** `start_index` as the driver computes it: the chunk id times the chunk's own size. */
  function StartIndexAsWritten(id: nat, total: nat, chunk: nat): nat
    requires chunk >= 1 && total >= 1 && id <= LastChunkId(total, chunk)
  {
    id * ActualChunkSize(id, total, chunk)
  }

  /** The start index the chunking evidently intends: the chunk id times the full chunk size. */
  function StartIndex(id: nat, chunk: nat): nat
  {
    id * chunk
  }

  /** Game `g` lies in the games chunk `id` reads when it starts at `start`. */
  predicate Covers(start: nat, size: nat, g: nat)
  {
    start <= g < start + size
  }

  /**
    With the intended start index the chunks tile the games: each chunk ends where the next one
    begins, the last ends at the total, and every game lies in exactly one chunk.
  */
  lemma ChunksPartition(total: nat, chunk: nat, g: nat)
    requires chunk >= 1 && total >= 1
    ensures forall id: nat :: id < LastChunkId(total, chunk) ==>
              StartIndex(id, chunk) + ActualChunkSize(id, total, chunk) == StartIndex(id + 1, chunk)
    ensures StartIndex(LastChunkId(total, chunk), chunk) + ActualChunkSize(LastChunkId(total, chunk), total, chunk) == total
    ensures g < total ==>
              && g / chunk <= LastChunkId(total, chunk)
              && Covers(StartIndex(g / chunk, chunk), ActualChunkSize(g / chunk, total, chunk), g)
    ensures forall id: nat :: id <= LastChunkId(total, chunk) && Covers(StartIndex(id, chunk), ActualChunkSize(id, total, chunk), g) ==>
              id == g / chunk
  {
    var last := LastChunkId(total, chunk);
    forall id: nat | id < last
      ensures StartIndex(id, chunk) + ActualChunkSize(id, total, chunk) == StartIndex(id + 1, chunk)
    {
      assert (id + 1) * chunk == id * chunk + chunk;
    }
    assert (last + 1) * chunk == last * chunk + chunk;
    if g < total {
      var q := g / chunk;
      assert g == q * chunk + g % chunk;
      if q > last {
        MulMono(last + 1, q, chunk);
        assert false;
      }
    }
    forall id: nat | id <= last && Covers(StartIndex(id, chunk), ActualChunkSize(id, total, chunk), g)
      ensures id == g / chunk
    {
      DivFromBounds(g, chunk, id);
    }
  }

  lemma {:induction false} MulMono(a: nat, b: nat, c: nat)
    requires a <= b
    ensures a * c <= b * c
    decreases b - a
  {
    if a < b {
      MulMono(a + 1, b, c);
      assert (a + 1) * c == a * c + c;
    }
  }

  /** `q` is the quotient of `g` by `chunk` when `g` lies in the `q`-th run of `chunk` values. */
  lemma DivFromBounds(g: nat, chunk: nat, q: nat)
    requires chunk >= 1 && q * chunk <= g < q * chunk + chunk
    ensures g / chunk == q
  {
    var d := g / chunk;
    assert g == d * chunk + g % chunk;
    assert (d + 1) * chunk == d * chunk + chunk;
    assert (q + 1) * chunk == q * chunk + chunk;
    if d < q {
      MulMono(d + 1, q, chunk);
    } else if d > q {
      MulMono(q + 1, d, chunk);
    }
  }

  /** The games of chunks `0 .. k - 1`: `k` full chunks, or all the games once every chunk is counted. */
  function SizesBelow(k: nat, total: nat, chunk: nat): (n: nat)
    requires chunk >= 1 && total >= 1 && k <= LastChunkId(total, chunk) + 1
    ensures k <= LastChunkId(total, chunk) ==> n == StartIndex(k, chunk)
    ensures k == LastChunkId(total, chunk) + 1 ==> n == total
    ensures n <= total
  {
    if k == 0 then 0
    else
      assert (k - 1) * chunk + chunk == k * chunk;
      StartWithinTotal(if k <= LastChunkId(total, chunk) then k else 0, total, chunk);
      SizesBelow(k - 1, total, chunk) + ActualChunkSize(k - 1, total, chunk)
  }

  /** Every chunk of the intended plan starts at a game that exists. */
  lemma StartWithinTotal(id: nat, total: nat, chunk: nat)
    requires chunk >= 1 && total >= 1 && id <= LastChunkId(total, chunk)
    ensures StartIndex(id, chunk) < total
  {
    MulMono(id, LastChunkId(total, chunk), chunk);
  }

  /** The computed start is right for every chunk but the last. */
  lemma AsWrittenAgreesBeforeLast(id: nat, total: nat, chunk: nat)
    requires chunk >= 1 && total >= 1 && id < LastChunkId(total, chunk)
    ensures StartIndexAsWritten(id, total, chunk) == StartIndex(id, chunk)
  {
  }

  /**
    For the last chunk the computed start is right only when there is a single chunk or the
    total is a multiple of the chunk size; otherwise it lies before the intended start.
  */
  lemma AsWrittenLast(total: nat, chunk: nat)
    requires chunk >= 1 && total >= 1
    ensures var last := LastChunkId(total, chunk);
            StartIndexAsWritten(last, total, chunk) == StartIndex(last, chunk) <==> last == 0 || total % chunk == 0
    ensures var last := LastChunkId(total, chunk);
            StartIndexAsWritten(last, total, chunk) <= StartIndex(last, chunk)
  {
    var last := LastChunkId(total, chunk);
    var size := ActualChunkSize(last, total, chunk);
    assert size <= chunk;
    MulLe(last, size, chunk);
    if total % chunk == 0 {
      assert total == (total / chunk) * chunk;
      DivFromBounds(total - 1, chunk, last);
      assert last == total / chunk - 1;
      assert size == chunk;
    }
    if size == chunk {
      assert total == (last + 1) * chunk;
      ModOfMultiple(last + 1, chunk);
    }
    if last > 0 && size < chunk {
      MulLt(last, size, chunk);
    }
  }

  lemma MulLe(a: nat, b: nat, c: nat)
    requires b <= c
    ensures a * b <= a * c
  {
  }

  lemma MulLt(a: nat, b: nat, c: nat)
    requires a > 0 && b < c
    ensures a * b < a * c
  {
  }

  lemma ModOfMultiple(k: nat, chunk: nat)
    requires chunk >= 1
    ensures (k * chunk) % chunk == 0
  {
    DivFromBounds(k * chunk, chunk, k);
  }

  /**
    With the shipped constants there are 623 chunks and the last one, of 5957 games, starts at
    index entry 3 705 254 instead of 6 220 000: the last 5957 index entries lie in no chunk's
    index range.
  */
  lemma ShippedConstantsLoseTail(g: nat)
    requires 6_220_000 <= g < TotalGames
    ensures NumChunks(TotalGames, ChunkSize) == 623
    ensures ActualChunkSize(622, TotalGames, ChunkSize) == 5957
    ensures StartIndexAsWritten(622, TotalGames, ChunkSize) == 3_705_254
    ensures forall id: nat :: id <= LastChunkId(TotalGames, ChunkSize) ==>
              !Covers(StartIndexAsWritten(id, TotalGames, ChunkSize), ActualChunkSize(id, TotalGames, ChunkSize), g)
  {
    assert LastChunkId(TotalGames, ChunkSize) == 622;
    forall id: nat | id <= 622
      ensures !Covers(StartIndexAsWritten(id, TotalGames, ChunkSize), ActualChunkSize(id, TotalGames, ChunkSize), g)
    {
      if id < 622 {
        MulLe(ChunkSize, id + 1, 622);
        assert StartIndexAsWritten(id, TotalGames, ChunkSize) + ActualChunkSize(id, TotalGames, ChunkSize) == (id + 1) * ChunkSize;
      }
    }
  }

  /** `format!("{}/{}.pb", folder, chunk_id)`. */
  function ChunkFileName(folder: string, id: nat): (name: string)
    ensures |name| > |folder| + 4
    ensures name[..|folder| + 1] == folder + "/"
    ensures name[|name| - 3..] == ".pb"
  {
    folder + "/" + Digits(id) + ".pb"
  }

  /** Distinct chunks are written to distinct files, so no chunk overwrites another. */
  lemma ChunkFileNamesDistinct(folder: string, a: nat, b: nat)
    ensures ChunkFileName(folder, a) == ChunkFileName(folder, b) <==> a == b
  {
    if ChunkFileName(folder, a) == ChunkFileName(folder, b) {
      var n := ChunkFileName(folder, a);
      var k := |folder| + 1;
      assert |Digits(a)| == |Digits(b)|;
      assert Digits(a) == n[k..|n| - 3];
      assert Digits(b) == n[k..|n| - 3];
      DigitsInjective(a, b);
    }
  }

  /** The move lists of a read chunk as protobuf messages, one `ChessGame` per game. */
  function ToDataSet(games: seq<seq<string>>): (ds: ChessDataSet)
    ensures |ds.games| == |games|
  {
    ChessDataSet(seq(|games|, i requires 0 <= i < |games| => ChessGame(games[i])))
  }

  /** The move lists held by a data set. */
  function GamesOf(ds: ChessDataSet): (games: seq<seq<string>>)
    ensures |games| == |ds.games|
  {
    seq(|ds.games|, i requires 0 <= i < |ds.games| => ds.games[i].moves)
  }

  /** Wrapping loses nothing: the message and the move lists determine each other. */
  lemma DataSetRoundTrip(games: seq<seq<string>>, ds: ChessDataSet)
    ensures GamesOf(ToDataSet(games)) == games
    ensures ToDataSet(GamesOf(ds)) == ds
  {
    assert ToDataSet(GamesOf(ds)).games == ds.games;
  }

  /**
    `process_chunk` of the workflows driver: read the chunk with the validating reader and wrap
    it. The reader's error is where `expect` panics.
  */
  function ProcessChunkValidated<B, S, M>(
    R: Etl.SanRules<B, S, M>,
    index: seq<nat>,
    corpus: seq<Byte>,
    tokenize: seq<Byte> -> seq<seq<string>>,
    startIndex: nat,
    chunkSize: nat): (r: Result<ChessDataSet, Etl.ChunkError>)
    ensures r.Err? <==> startIndex >= |index|
    ensures r.Ok? && chunkSize >= 1 ==>
              GamesOf(r.value) == Take(Etl.AcceptedGames(R, tokenize(Seek(corpus, index[startIndex]))), chunkSize)
  {
    var games :- Etl.ReadGamesInChunk(R, index, corpus, tokenize, startIndex, chunkSize);
    DataSetRoundTrip(games, ToDataSet(games));
    Ok(ToDataSet(games))
  }

  /** `process_chunk` of the data-loader binary: read the chunk with the plain reader and wrap it. */
  function ProcessChunk(
    index: seq<nat>,
    corpus: seq<Byte>,
    tokenize: seq<Byte> -> seq<seq<string>>,
    startIndex: nat,
    chunkSize: nat): (r: Result<ChessDataSet, Loader.ChunkError>)
    ensures r.Err? <==> startIndex >= |index|
    ensures r.Ok? && chunkSize >= 1 ==>
              GamesOf(r.value) == Take(tokenize(Seek(corpus, index[startIndex])), chunkSize)
  {
    var games :- Loader.ReadGamesInChunk(index, corpus, tokenize, startIndex, chunkSize);
    DataSetRoundTrip(games, ToDataSet(games));
    Ok(ToDataSet(games))
  }

  /**
    The index and the corpus describe `games`: seeking to the offset of game `s` and reading on
    delivers the games from `s` to the end.
  */
  ghost predicate Consistent(index: seq<nat>, corpus: seq<Byte>, tokenize: seq<Byte> -> seq<seq<string>>, games: seq<seq<string>>)
  {
    |index| == |games| && forall s :: 0 <= s < |index| ==> Delivers(index, corpus, tokenize, games, s)
  }

  /** Reading from the offset of game `s` delivers the games from `s` on. */
  ghost predicate Delivers(index: seq<nat>, corpus: seq<Byte>, tokenize: seq<Byte> -> seq<seq<string>>, games: seq<seq<string>>, s: nat)
    requires s < |index| && |index| == |games|
  {
    tokenize(Seek(corpus, index[s])) == games[s..]
  }

  /** One job of the parallel loop: the chunk id, its first game and its number of games. */
  datatype Job = Job(id: nat, start: nat, size: nat)

  /** The jobs of the loop over `0..num_chunks`, with the intended start index. */
  function Plan(total: nat, chunk: nat): (jobs: seq<Job>)
    requires chunk >= 1 && total >= 1
  {
    seq(NumChunks(total, chunk), i requires 0 <= i < NumChunks(total, chunk) =>
      Job(i, StartIndex(i, chunk), ActualChunkSize(i, total, chunk)))
  }

  /** The same jobs with the start index the driver computes. */
  function PlanAsWritten(total: nat, chunk: nat): (jobs: seq<Job>)
    requires chunk >= 1 && total >= 1
  {
    seq(NumChunks(total, chunk), i requires 0 <= i < NumChunks(total, chunk) =>
      Job(i, StartIndexAsWritten(i, total, chunk), ActualChunkSize(i, total, chunk)))
  }

  /** The first job starts at game 0 and each job ends where the next one begins. */
  ghost predicate Contiguous(jobs: seq<Job>)
  {
    && |jobs| >= 1
    && jobs[0].start == 0
    && (forall i :: 0 <= i < |jobs| - 1 ==> jobs[i].start + jobs[i].size == jobs[i + 1].start)
  }

  /** The jobs tile the games `0 .. total - 1`: contiguous, each non-empty, the last ending at the total. */
  ghost predicate Tiles(jobs: seq<Job>, total: nat)
  {
    && Contiguous(jobs)
    && (forall i :: 0 <= i < |jobs| ==> jobs[i].size >= 1)
    && jobs[|jobs| - 1].start + jobs[|jobs| - 1].size == total
  }

  /** The intended plan tiles the games. */
  lemma PlanTiles(total: nat, chunk: nat)
    requires chunk >= 1 && total >= 1
    ensures Tiles(Plan(total, chunk), total)
  {
    ChunksPartition(total, chunk, 0);
  }

  /** The plan as written does not, unless there is one chunk or the total is a multiple of the chunk size. */
  lemma PlanAsWrittenTiles(total: nat, chunk: nat)
    requires chunk >= 1 && total >= 1
    ensures Tiles(PlanAsWritten(total, chunk), total) <==> LastChunkId(total, chunk) == 0 || total % chunk == 0
  {
    var last := LastChunkId(total, chunk);
    var jobs := PlanAsWritten(total, chunk);
    AsWrittenLast(total, chunk);
    ChunksPartition(total, chunk, 0);
    if last == 0 || total % chunk == 0 {
      forall i | 0 <= i < |jobs| - 1
        ensures jobs[i].start + jobs[i].size == jobs[i + 1].start
      {
        AsWrittenAgreesBeforeLast(i, total, chunk);
        if i + 1 < last {
          AsWrittenAgreesBeforeLast(i + 1, total, chunk);
        }
      }
    } else {
      AsWrittenAgreesBeforeLast(last - 1, total, chunk);
      assert jobs[last - 1].start + jobs[last - 1].size == StartIndex(last, chunk);
    }
  }

  /** The games in the file a job writes; nothing where the read fails. */
  function JobGames(index: seq<nat>, corpus: seq<Byte>, tokenize: seq<Byte> -> seq<seq<string>>, job: Job): seq<seq<string>>
  {
    match ProcessChunk(index, corpus, tokenize, job.start, job.size)
    case Ok(ds) => GamesOf(ds)
    case Err(_) => []
  }

  /** What the jobs write, one after another, when job `j` writes `read(j)`. */
  function Written<T>(jobs: seq<Job>, read: Job -> seq<T>): seq<T>
    decreases |jobs|
  {
    if |jobs| == 0 then [] else Written(jobs[..|jobs| - 1], read) + read(jobs[|jobs| - 1])
  }

  /** The games of all chunk files of `jobs`, in job order. */
  function WrittenGames(index: seq<nat>, corpus: seq<Byte>, tokenize: seq<Byte> -> seq<seq<string>>, jobs: seq<Job>): seq<seq<string>>
  {
    Written(jobs, JobReader(index, corpus, tokenize))
  }

  function JobReader(index: seq<nat>, corpus: seq<Byte>, tokenize: seq<Byte> -> seq<seq<string>>): Job -> seq<seq<string>>
  {
    (job: Job) => JobGames(index, corpus, tokenize, job)
  }

  /** On a consistent index and corpus, a non-empty job within the games writes its own run of games. */
  lemma JobReadsItsGames(index: seq<nat>, corpus: seq<Byte>, tokenize: seq<Byte> -> seq<seq<string>>, games: seq<seq<string>>, job: Job)
    requires Consistent(index, corpus, tokenize, games)
    requires job.size >= 1 && job.start + job.size <= |games|
    ensures JobGames(index, corpus, tokenize, job) == games[job.start..job.start + job.size]
  {
    assert Delivers(index, corpus, tokenize, games, job.start);
  }

  /** Every job of the intended plan lies within the games. */
  lemma PlanWithin(total: nat, chunk: nat, id: nat)
    requires chunk >= 1 && total >= 1 && id <= LastChunkId(total, chunk)
    ensures StartIndex(id, chunk) + ActualChunkSize(id, total, chunk) <= total
  {
    if id < LastChunkId(total, chunk) {
      MulMono(id + 1, LastChunkId(total, chunk), chunk);
      assert (id + 1) * chunk == id * chunk + chunk;
    }
  }

  lemma PlanJobReads(index: seq<nat>, corpus: seq<Byte>, tokenize: seq<Byte> -> seq<seq<string>>, games: seq<seq<string>>, chunk: nat, i: nat)
    requires chunk >= 1 && |games| >= 1 && i < NumChunks(|games|, chunk)
    requires Consistent(index, corpus, tokenize, games)
    ensures var job := Plan(|games|, chunk)[i];
            && job.start + job.size <= |games|
            && JobGames(index, corpus, tokenize, job) == games[job.start..job.start + job.size]
  {
    var job := Plan(|games|, chunk)[i];
    PlanWithin(|games|, chunk, i);
    JobReadsItsGames(index, corpus, tokenize, games, job);
  }

  lemma SliceConcat<T>(s: seq<T>, i: nat, j: nat)
    requires i <= j <= |s|
    ensures s[..i] + s[i..j] == s[..j]
  {
  }

  /** Every job lies within `games` and `read` gives it its own run of games. */
  ghost predicate ReadsOwnRuns<T>(games: seq<T>, jobs: seq<Job>, read: Job -> seq<T>)
  {
    forall i :: 0 <= i < |jobs| ==>
      jobs[i].start + jobs[i].size <= |games| && read(jobs[i]) == games[jobs[i].start..jobs[i].start + jobs[i].size]
  }

  /**
    Contiguous jobs from game 0, each writing its own run of games, write exactly the games up to
    the end of the last job, in order.
  */
  lemma {:induction false} WrittenIsPrefix<T>(games: seq<T>, jobs: seq<Job>, read: Job -> seq<T>)
    requires Contiguous(jobs) && ReadsOwnRuns(games, jobs, read)
    ensures jobs[|jobs| - 1].start + jobs[|jobs| - 1].size <= |games|
    ensures Written(jobs, read) == games[..jobs[|jobs| - 1].start + jobs[|jobs| - 1].size]
    decreases |jobs|
  {
    var n := |jobs| - 1;
    var job := jobs[n];
    if n == 0 {
      assert Written(jobs[..0], read) == [];
      assert games[..0] == [];
      SliceConcat(games, 0, job.size);
    } else {
      var prefix := jobs[..n];
      assert prefix[n - 1] == jobs[n - 1];
      assert Contiguous(prefix);
      assert ReadsOwnRuns(games, prefix, read);
      WrittenIsPrefix(games, prefix, read);
      SliceConcat(games, job.start, job.start + job.size);
    }
  }

  /** On a consistent index and corpus, every job of the intended plan writes its own run of games. */
  lemma PlanReadsOwnRuns(index: seq<nat>, corpus: seq<Byte>, tokenize: seq<Byte> -> seq<seq<string>>, games: seq<seq<string>>, chunk: nat)
    requires chunk >= 1 && |games| >= 1
    requires Consistent(index, corpus, tokenize, games)
    ensures ReadsOwnRuns(games, Plan(|games|, chunk), JobReader(index, corpus, tokenize))
  {
    var jobs := Plan(|games|, chunk);
    forall i | 0 <= i < |jobs|
      ensures jobs[i].start + jobs[i].size <= |games|
      ensures JobReader(index, corpus, tokenize)(jobs[i]) == games[jobs[i].start..jobs[i].start + jobs[i].size]
    {
      PlanJobReads(index, corpus, tokenize, games, chunk, i);
    }
  }

  /** On a consistent index and corpus, the chunk files of the intended plan hold every game once, in order. */
  lemma PlanReadsEveryGame(index: seq<nat>, corpus: seq<Byte>, tokenize: seq<Byte> -> seq<seq<string>>, games: seq<seq<string>>, chunk: nat)
    requires chunk >= 1 && |games| >= 1
    requires Consistent(index, corpus, tokenize, games)
    ensures WrittenGames(index, corpus, tokenize, Plan(|games|, chunk)) == games
  {
    var jobs := Plan(|games|, chunk);
    PlanTiles(|games|, chunk);
    PlanReadsOwnRuns(index, corpus, tokenize, games, chunk);
    WrittenIsPrefix(games, jobs, JobReader(index, corpus, tokenize));
    assert games[..|games|] == games;
  }
}

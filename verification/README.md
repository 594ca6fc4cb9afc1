# gamma-chess in Dafny

gamma-chess turns a PGN corpus of chess games into (position, move) training pairs for a neural
network. This project models its deterministic core and proves properties of it:

- **Offset indexer** (`create_index`). One pass over the corpus lines that writes the byte offset
  of every `[Event ` line opening a game. `[Event ` is the first tag of the Seven Tag Roster,
  section 8.1.1 of the PGN standard.
- **Game replayers**. These are the two `MyVisitor` state machines and their
  `read_games_in_chunk` drivers.
  - The validating one in the gamma_chess crate replays each SAN token and drops a whole game at
    its first bad token.
  - The plain one in the data-loader crate keeps every token.
- **Byte-range copy** (`read_games` of the workflows crate).
- **Feature encoders**.
  - The piece-to-plane map, the square-to-(rank, file) map and the one-hot move index
    `from * 64 + to`.
  - `board_to_tensor`, `move_to_tensor` and `process_games`, both in Rust (gamma_chess) and in
    Python (`ChessDataset`).
  - The Rust and Python encoder functions are proved to agree cell for cell on the same board
    view and the same (from, to) squares. The two pipelines do not always pick the same squares:
    for castling they differ (see "Left out").
- **Chunking drivers** (both `preprocess.rs` binaries). They compute the chunk count, chunk sizes
  and start indices, and wrap each chunk as a `ChessDataSet` written to `<folder>/<id>.pb`.
- **`load_pgn_chunk`** of the Python prototype, with skip-then-take over a game reader.
- **Scalar-type and device code tables** that libtorch receives (`kind_to_c_int`,
  `device_to_c_int`).

The chess rules and the SAN/UCI parsers are not modelled. They are function-typed fields of
"rules" records (`Etl.SanRules`, `Dataset.UciRules`, `PyDataset.PyRules`), so every result holds
for every chess engine that fills them in. The same goes for the PGN reader: `tokenize`, from the
bytes after a seek to the games delivered, and `PgnChunk.ReadOutcome` sequences for python-chess.
Tensors are flat `seq<int>` rows of 0/1 cells. Cell (plane, rank, file) is at
`plane * 64 + rank * 8 + file`, and squares run from a1 = 0 to h8 = 63.

Modules: `Wrappers` (Option/Result), `Corpus`, `Decimal`, `Proto`, `Indexer`, `Etl`, `Loader`,
`CopyRange`, `Features`, `Dataset`, `PyDataset`, `Chunking`, `PgnChunk`, `ScalarCodes`.

## Model

| member | source | states |
|---|---|---|
| Indexer.ScanCharacterised | data-loader/src/bin/create_index.rs:48-71 | The running offset is the sum of (byte length + 1) over the lines seen. The written offsets increase strictly and each one is below the running offset. An offset is written if and only if it is the start of a line that is an `[Event ` line read while no game is open. |
| Indexer.CreateIndex | data-loader/src/bin/create_index.rs:48-71 | The loop writes the offsets of the scan over the first `min(n, 999)` lines only, because the counter is checked against 1 000 after it is incremented. The result increases strictly and holds exactly the game-opening offsets among those lines. |
| Indexer.ScanSnoc | data-loader/src/bin/create_index.rs:69 | Scanning one more line adds its UTF-8 length plus one for the newline to the offset. |
| Indexer.StaysInGame | data-loader/src/bin/create_index.rs:61-68 | After an `[Event ` line, `in_game` stays true through every following line that is not blank. |
| Indexer.DuplicateEventIgnored | data-loader/src/bin/create_index.rs:61-65 | A second `[Event ` line before any blank line opens nothing and writes nothing. |
| Indexer.StaysOutOfGame | data-loader/src/bin/create_index.rs:66-68 | After a blank line, `in_game` stays false until the next `[Event ` line. |
| Indexer.EventAfterBlankOpens | data-loader/src/bin/create_index.rs:61-68 | The first `[Event ` line after a blank line opens a game, and its start offset is appended to the index. |
| Corpus.Lookup | crates/gamma_chess/src/etl.rs:129 | The `n`-th index entry is found if and only if `n` is below the index length, and it is that entry. |
| Corpus.Seek | crates/gamma_chess/src/etl.rs:134-135 | After a seek to `offset` the reader sees exactly the corpus bytes from `offset` on. A seek past the end sees nothing. |
| Etl.BeginGame | crates/gamma_chess/src/etl.rs:45-49 | The move list is empty, the board is the start position and the skip flag is cleared. Games and quota are unchanged. |
| Etl.San | crates/gamma_chess/src/etl.rs:51-96 | While skipping, the visitor is unchanged. Otherwise, a token that parses, resolves and plays appends exactly its UCI text and advances the board. Any of the three failures empties the move list and sets the skip flag. `games` never changes. |
| Etl.EndGame | crates/gamma_chess/src/etl.rs:103-113 | The current moves are appended as one game if and only if the game was not skipped. Otherwise `games` is unchanged. |
| Etl.SanAllReplays | crates/gamma_chess/src/etl.rs:51-96 | Over a whole movetext, the visitor agrees with the reference replay `Replay`. It collects exactly the replayed UCI moves, or it ends skipped with an empty list, and skipping is absorbing. |
| Etl.VisitGame | crates/gamma_chess/src/etl.rs:45-113 | Reading one game appends it if and only if every token replays from the start position. The quota is unchanged. |
| Etl.AcceptedGamesAppend | crates/gamma_chess/src/etl.rs:140-151 | The accepted games of a concatenated stream are the accepted games of each part, in order. |
| Etl.DiscardedGameIsolated | crates/gamma_chess/src/etl.rs:103-113 | A discarded game contributes nothing, and the games around it contribute what they would without it. |
| Etl.ReadLoopTakesAccepted | crates/gamma_chess/src/etl.rs:140-151 | Below its quota, the read loop appends exactly the first accepted games of the stream, up to the quota. Discarded games do not count toward `is_done`. |
| Etl.ReadGamesInChunk | crates/gamma_chess/src/etl.rs:120-160 | There is an error ("Invalid start index") if and only if `start_index` is at or past the index length. Otherwise the result is the first `chunk_size` accepted games read from the indexed offset. With `chunk_size` 0, it is the first game if that game is accepted. |
| Loader.SanAllAppends | data-loader/src/loader.rs:37-40 | Every token is appended to the current list, in order, and nothing else changes. |
| Loader.VisitGame | data-loader/src/loader.rs:33-53 | Reading one game always appends its full token list as one game, and leaves the current list empty. |
| Loader.ReadLoopTakes | data-loader/src/loader.rs:81-94 | Below its quota, the loop appends exactly the next games of the stream until the quota is met or the stream ends. |
| Loader.ReadGamesInChunk | data-loader/src/loader.rs:60-103 | There is an error if and only if `start_index` is out of range. Otherwise the result is the first `max(chunk_size, 1)` games read from the indexed offset. |
| Loader.FullChunk | data-loader/src/loader.rs:113-140 | On a stream with at least `chunk_size` games, exactly `chunk_size` games are returned, as the crate's tests expect. |
| CopyRange.ReadSizes | crates/workflows/src/copy_wrong.rs:61-64 | Each read is between 1 and 1024 bytes, and together the reads cover `[start, end)` exactly. |
| CopyRange.ReadCount | crates/workflows/src/copy_wrong.rs:61-64 | There are `ceil((end - start) / 1024)` reads, or none when `end <= start`. |
| CopyRange.ReadGames | crates/workflows/src/copy_wrong.rs:36-66 | "Start index out of bounds" and "End index out of bounds" come from the respective lookups. If `end <= start` the result is empty. If the range lies in the corpus the result is exactly the bytes in `[start, end)`. If the range runs past the end of the file, the copy fails. The reads issued are always a prefix of the `ReadSizes` pattern, and on success they are exactly that pattern. |
| CopyRange.ReadRange | crates/workflows/src/copy_wrong.rs:56-68 | After the seek, the loop returns exactly the bytes of `[start, end)` if they lie in the file, nothing if `end <= start`, and fails once a read would cross the end of the file. The reads it issues follow the `ReadSizes` pattern: a prefix of it on failure, all of it on success. |
| Features.Plane | crates/gamma_chess/src/model.rs:103-113 | The plane is below 12, and it is below 6 exactly for white pieces. |
| Features.PieceOfPlane | crates/gamma_chess/src/model.rs:103-113 | Every plane in 0..11 is the plane of the piece this function returns. |
| Features.PlaneBijective | crates/gamma_chess/src/model.rs:103-113 | The plane map is injective on the 12 (role, colour) pairs, and `PieceOfPlane` inverts it. |
| Features.SquareCoordinates | crates/gamma_chess/src/model.rs:118 | (rank, file) = (square / 8, square % 8) and square = rank * 8 + file determine each other. |
| Features.Cell | crates/gamma_chess/src/model.rs:121 | Cell (plane, rank, file) lies in the 768-cell grid. Dividing by 64 recovers the plane and the remainder recovers the square. |
| Features.CellInjective | crates/gamma_chess/src/model.rs:121 | Distinct (plane, rank, file) triples are distinct cells. |
| Features.FillSquares | crates/gamma_chess/src/model.rs:115-123 | Once the square loop has run from `sq` on, a cell is 1 if its square, at `sq` or later, holds a piece of its plane. Every other cell keeps its earlier value. |
| Features.FillOneSquare | crates/gamma_chess/src/model.rs:115-122 | Visiting one square sets only the cell of the piece on it, if there is one. |
| Features.PositionTensor | crates/gamma_chess/src/model.rs:98-124 | After zeroing and filling, a cell is 1 exactly when its square holds a piece of its plane, and 0 otherwise. |
| Features.OnePlanePerSquare | crates/gamma_chess/src/model.rs:115-123 | No square has two planes set. |
| Features.FillCountsSquares | crates/gamma_chess/src/model.rs:115-123 | Filling from `sq` on adds one 1 per occupied square from `sq` on. |
| Features.PositionTensorCountsPieces | crates/gamma_chess/src/model.rs:98-124 | The number of ones equals the number of occupied squares. |
| Features.MoveIndex | crates/gamma_chess/src/model.rs:135-137 | The index `from * 64 + to` is below 4096, and it decodes back as `index / 64 = from` and `index % 64 = to`. |
| Features.CheckedMoveIndex | crates/gamma_chess/src/model.rs:135-138 | The checked `usize` arithmetic never exceeds `usize::MAX`. On squares it never fails, so "Arithmetic overflow occurred" is unreachable. |
| Features.MoveTensor | crates/gamma_chess/src/model.rs:126-144 | The slice has 4096 cells, all 0 or 1. Exactly one cell is 1, and it is the cell decoding to (from, to). |
| Features.MoveTensorInjective | crates/gamma_chess/src/model.rs:126-144 | Distinct moves give distinct move tensors. |
| Dataset.Pairs | crates/gamma_chess/src/model.rs:62-86 | The reference fill produces at most one pair per move string, and every pair is a legal move from its board. |
| Dataset.PairsUnfold | crates/gamma_chess/src/model.rs:64-84 | An unparsable UCI string is `Invalid UCI move string`, and an unresolvable move is `Invalid chess move`, for the whole data set. A legal move is recorded from the current board, and an illegal one is skipped without moving. |
| Dataset.PairsStep | crates/gamma_chess/src/model.rs:64-84 | The same step, stated with the pairs already produced in front. |
| Dataset.TotalMovesPrefixSuffix | crates/gamma_chess/src/model.rs:51 | The number of rows allocated is the first game's move count plus that of the rest. |
| Dataset.FillExtend | crates/gamma_chess/src/model.rs:73-83 | Writing the next row of both arrays and advancing both counters keeps both counters equal to the pair count. Rows below them encode the pairs and rows above them stay zero. |
| Dataset.PushPair | crates/gamma_chess/src/model.rs:72-83 | For a legal move, the position row of the board before the move and the move row are written at the two counters, and both counters advance together. |
| Dataset.FillGame | crates/gamma_chess/src/model.rs:62-86 | The inner loop fails exactly as the reference does, with the same error. Otherwise it leaves the counters and rows in step with the reference pairs of the game. |
| Dataset.ProcessGames | crates/gamma_chess/src/model.rs:49-96 | There is a result if and only if the reference fill succeeds, and otherwise the same error. Both arrays have one row per move string. Row `i` of each is the position or move tensor of the `i`-th legal pair, and rows past the last pair are zero. |
| PyDataset.SymbolPlane | src/data.py:38-48 | Every `piece.symbol()` is a key of `piece_idx`, and its value is the plane the Rust encoder uses. |
| PyDataset.SymbolInjective | src/data.py:38-39 | Distinct pieces have distinct symbols. |
| PyDataset.PySquaresAgree | src/data.py:41-48 | The Python square loop with `divmod(square, 8)` computes the same grid as the Rust loop. |
| PyDataset.PyBoardTensorAgrees | src/data.py:34-50 | Python's `board_to_tensor` equals Rust's `board_to_tensor`, cell for cell. |
| PyDataset.PyMoveTensorAgrees | src/data.py:53-68 | Python's `move_to_tensor` equals Rust's `move_to_tensor`. |
| PyDataset.GameRun | src/data.py:15-28 | Replaying one game gives at most one pair per SAN string, and every pair is legal from its board. |
| PyDataset.GameRunAppend | src/data.py:17-28 | Replaying `a + b` is replaying `a` and then continuing with `b` from where it left off, unless a `ValueError` broke the game off. |
| PyDataset.GameRunKeepsPrefix | src/data.py:26-28 | The pairs appended before a `ValueError` are kept, and nothing after it is read. |
| PyDataset.AllPairsAppend | src/data.py:15-16 | Each game starts from a fresh board, so games contribute independently, in order. |
| PyDataset.GameRunStep | src/data.py:17-28 | A SAN string that raises ends the game with the pairs so far. A legal move is appended and pushed, and the board is encoded before the push. An illegal move changes nothing. |
| PyDataset.AppendGame | src/data.py:17-28 | The inner loop appends to `pos` and `movs` exactly the encodings of the game's pairs, pairwise. |
| PyDataset.ProcessGames | src/data.py:11-32 | `torch.stack` fails if and only if no game yielded a pair. Otherwise both stacks have one row per pair, and row `i` encodes the `i`-th pair of all games in order. |
| PyDataset.SameRowsAsRust | src/data.py:34-68 | Rows built by the Python encoders are the Rust position and move tensors of the same board views and squares. |
| Chunking.NumChunks | crates/workflows/src/preprocess.rs:27 | `num_chunks` is the smallest count of chunks that holds all games. It is 0 only for an empty corpus. |
| Chunking.LastChunkId | crates/workflows/src/preprocess.rs:28 | The last chunk begins before the total and reaches the total with a full chunk. |
| Chunking.ActualChunkSize | crates/workflows/src/preprocess.rs:42-46 | Each size is in `[1, CHUNK_SIZE]` and every chunk but the last is full. The last is what remains after the full ones. |
| Chunking.SizesBelow | data-loader/src/bin/preprocess.rs:37-41 | The sizes of the first `k` chunks add up to `k * chunk_size`, and all of them add up to `total_games`. |
| Chunking.ChunksPartition | crates/workflows/src/preprocess.rs:42-48 | With start `id * CHUNK_SIZE`, each chunk ends where the next begins and the last ends at the total. Every game lies in exactly one chunk, the one with id `game / CHUNK_SIZE`. |
| Chunking.StartWithinTotal | crates/workflows/src/preprocess.rs:48 | Every chunk of the intended plan starts at an existing game. |
| Chunking.AsWrittenAgreesBeforeLast | crates/workflows/src/preprocess.rs:48 | `chunk_id * actual_chunk_size` is the intended start for every chunk but the last. |
| Chunking.AsWrittenLast | data-loader/src/bin/preprocess.rs:43 | For the last chunk, the start as written is right if and only if there is one chunk or the total is a multiple of the chunk size. Otherwise it lies before the intended start. |
| Chunking.ShippedConstantsLoseTail | crates/workflows/src/preprocess.rs:17-48 | With 6 225 957 games in chunks of 10 000, there are 623 chunks and the last holds 5957 games. It starts at index entry 3 705 254, so entries 6 220 000 and later lie in no chunk's index range. |
| Chunking.ChunkFileName | crates/workflows/src/preprocess.rs:83 | The file name is the folder, a slash, the decimal chunk id and `.pb`. |
| Chunking.ChunkFileNamesDistinct | data-loader/src/bin/preprocess.rs:78 | Two chunk ids give the same file name if and only if they are equal, so no chunk file overwrites another. |
| Decimal.ParseDigitsRoundTrip | crates/workflows/src/preprocess.rs:83 | Reading back the decimal rendering of a chunk id gives the id. |
| Decimal.DigitsInjective | crates/workflows/src/preprocess.rs:83 | Distinct chunk ids render differently. |
| Chunking.DataSetRoundTrip | crates/workflows/src/preprocess.rs:100-106 | Wrapping as `ChessGame`s loses nothing and keeps order and move lists: the message and the list of move lists determine each other. |
| Chunking.ProcessChunkValidated | crates/workflows/src/preprocess.rs:88-107 | The read fails, which is where `expect` panics, if and only if the start index is out of range. Otherwise the data set holds the first `chunk_size` accepted games, one `ChessGame` each, in order. |
| Chunking.ProcessChunk | data-loader/src/bin/preprocess.rs:83-101 | The same for the plain reader: the data set holds the next `chunk_size` games, one `ChessGame` each, in order. |
| Chunking.PlanTiles | crates/workflows/src/preprocess.rs:40-55 | With the intended start index, the jobs of the parallel loop tile the index entries `0 .. total - 1`. |
| Chunking.PlanAsWrittenTiles | crates/workflows/src/preprocess.rs:40-55 | With the start index as written, the jobs tile the games if and only if there is one chunk or the total is a multiple of the chunk size. |
| Chunking.JobReadsItsGames | data-loader/src/bin/preprocess.rs:90-100 | On a consistent index and corpus, a job writes exactly its own run of games. |
| Chunking.PlanWithin | crates/workflows/src/preprocess.rs:42-48 | Every job of the intended plan lies within the games. |
| Chunking.PlanJobReads | data-loader/src/bin/preprocess.rs:36-50 | Every job of the intended plan writes its own run of games. |
| Chunking.WrittenIsPrefix | crates/workflows/src/preprocess.rs:40-62 | Contiguous jobs from game 0, each writing its own run, write exactly the games up to the end of the last job, in order. |
| Chunking.PlanReadsOwnRuns | crates/workflows/src/preprocess.rs:40-55 | On a consistent index and corpus, every job of the intended plan writes its own run of games. |
| Chunking.PlanReadsEveryGame | data-loader/src/bin/preprocess.rs:36-57 | With the intended start index, the chunk files together hold every game exactly once, in order. |
| PgnChunk.Skip | src/loader.py:53-59 | The skip loop reaches call `pos + n`, or returns `[]` if and only if some call in range finds the end of the file. Failed calls still use up an iteration. |
| PgnChunk.TakeGames | src/loader.py:62-69 | The read loop returns at most `chunk_size` games. |
| PgnChunk.Load | src/.ipynb_checkpoints/load-checkpoint.py:14-37 | The notebook copy returns at most `chunk_size` games, and none for a negative `chunk_size`. |
| PgnChunk.LoadPgnChunk | src/loader.py:48-71 | The two loops compute the reference `Load`, and return at most `chunk_size` games. |
| PgnChunk.TakeGamesClean | src/loader.py:62-69 | On a reader with no failures and no early end, reading `n` games from `pos` is the slice `games[pos : pos + n]`, clipped at the end of the file. |
| PgnChunk.LoadIsSlice | src/loader.py:49-69 | On such a reader, chunk `chunk_number` (counted from 1) is `games[start : start + chunk_size]`, clipped at the end of the file, with `start = (chunk_number - 1) * chunk_size`. A chunk that starts past the end is empty. |
| PgnChunk.ExhaustedWhileSkipping | src/loader.py:53-57 | If the file ends before the chunk starts, the result is empty. |
| PgnChunk.FailuresCostIterations | src/loader.py:62-69 | Without an end of file in range, the games read plus the exceptions caught equal `chunk_size`: a failed read uses up its iteration. |
| PgnChunk.StopsAtEnd | src/loader.py:65-66 | Reading stops at the end of the file, so what comes after it is never read. |
| ScalarCodes.KindCode | crates/gamma_chess/src/lib.rs:13-33 | Every scalar type code is in 0..15. |
| ScalarCodes.KindOfCode | crates/gamma_chess/src/lib.rs:13-33 | A code names a scalar type if and only if it is in 0..15. |
| ScalarCodes.KindCodeBijective | crates/gamma_chess/src/lib.rs:13-33 | The table is a bijection between the sixteen kinds and 0..15. |
| ScalarCodes.KindCodeInjective | crates/gamma_chess/src/lib.rs:15-32 | Distinct kinds have distinct codes. |
| ScalarCodes.AsCInt | crates/gamma_chess/src/lib.rs:38 | `as c_int` gives a value in the `i32` range that agrees with the input modulo 2^32. |
| ScalarCodes.DeviceCode | crates/gamma_chess/src/lib.rs:35-42 | Every device code is an `i32`, and a CUDA ordinal up to `i32::MAX` is its own code. |
| ScalarCodes.DeviceOfCode | crates/gamma_chess/src/lib.rs:35-42 | A code names a device if and only if it is in -3..`i32::MAX`. |
| ScalarCodes.DeviceCodeRoundTrip | crates/gamma_chess/src/lib.rs:35-42 | On devices whose ordinal fits an `i32`, the table is a bijection onto -3..`i32::MAX`. |
| ScalarCodes.DeviceCodeInjective | crates/gamma_chess/src/lib.rs:36-41 | Such devices never share a code, so a CUDA ordinal never looks like a special device. |
| ScalarCodes.CudaCodeWraps | crates/gamma_chess/src/lib.rs:38 | Past `i32::MAX` the cast wraps. CUDA ordinal 2^32 - 1 gets the CPU's code, and 2^32 gets the code of ordinal 0. |
| ScalarCodes.FloatOnCpuCodes | crates/gamma_chess/src/lib.rs:89-90 | The `f32` CPU buffer is passed as scalar type 6 on device -1. |

## Left out

- File and stream I/O, progress bars, `println!`/`eprintln!` and Python's `print` are left out. Files are sequences and readers are parameters. An I/O error inside a read loop (`while let Ok(..)`) ends the loop like an end of stream, so a `tokenize` that stops at the error covers it. Opening, seeking and writing errors are not modelled.
- The PGN reader (pgn_reader, `chess.pgn.read_game`), SAN/UCI parsing and the chess rules (shakmaty, python-chess) are uninterpreted function fields of the rules records.
- Indexer.ScanCharacterised: every line is assumed to end with one LF byte. A CRLF corpus or a last line without a terminator shifts offsets in the source, and the model does not cover that.
- Indexer.CreateIndex: `u64` overflow of the offset is not modelled, because offsets are unbounded naturals.
- CopyRange.ReadGames: the content is returned as bytes. The per-read `std::str::from_utf8` check, which fails on a multi-byte character split at a 1024-byte boundary, is not modelled.
- Dataset.ProcessGames: the rows are 0/1 integers instead of `f32`. `Tensor::try_from` and the `ndarray` layout are not modelled, and neither is `Dataset::new`'s protobuf decode.
- Features.MoveTensor: `chess_move.from().unwrap()` panics only for drop moves, which a standard game cannot contain. Squares are always present.
- Chunking.NumChunks: the `f64` division and `ceil` are modelled as the exact integer ceiling. For the corpus sizes involved, below 2^53, the two agree.
- Chunking.LastChunkId: requires a non-empty corpus and a positive chunk size. The source divides by the chunk size, and for 0 games its `num_chunks - 1` underflows a `usize`.
- The rayon parallel loop, its progress counter and the protobuf encoding of chunk files are left out. The plan is modelled as the sequence of jobs, and a data set as the `ChessDataSet` message.
- The `CHUNKS_FOLDER` constant of the workflows crate (`consts.rs`) is not part of this model, so the folder is a parameter of `Chunking.ChunkFileName`.
- The data-loader reader pushes `San` values (data-loader/src/loader.rs:39). Its `process_chunk` puts each `Vec<San>` straight into `ChessGame.moves` (data-loader/src/bin/preprocess.rs:94-97), but that field is a `Vec<String>`, so this code does not type-check as written. The model assumes the commented-out `san.to_string()` conversion of loader.rs:38 and keeps each token as its text.
- Castling squares. The model does not promise that the Rust and Python pipelines write the same move row for a castling move. The `to` oracle of `Dataset.UciRules` stands for shakmaty's `Move::to()` (crates/gamma_chess/src/model.rs:132). For the castling move that `Uci::to_move` rebuilds from the stored `e1g1`, that is the rook's square h1 (cell 4 * 64 + 7 = 263). The `to` oracle of `PyDataset.PyRules` stands for python-chess's `move.to_square` (src/data.py:59), which is the king's destination g1 (cell 262). `PyDataset.PyMoveTensorAgrees` and `PyDataset.SameRowsAsRust` relate the encoders on the same squares only.
- Chunking.PlanReadsEveryGame covers the plain data-loader reader, which takes a fixed number of games from each start index. The validating reader of the workflows copy takes `chunk_size` accepted games. A chunk holding a discarded game reads on into the next chunk's games, so even with the intended start index its chunk files can overlap. For that copy, the corrected plan is only proved to tile the index entries (Chunking.PlanTiles).
- `ndarray_to_tensor`, `ndarray_to_tensor_2` and the rest of the FFI layer in lib.rs are left out. Only the two code tables they use are modelled.
- The `ChessDataset` class of loader.py is unfinished and left out. So are `check_layout` and the training scripts.
- A read error ends the chunk loop, and the games read so far are returned (`while let Ok(..)` at crates/gamma_chess/src/etl.rs:140 and data-loader/src/loader.rs:81). It is not fatal for the chunk.
- `create_index` examines at most 999 lines, because it stops once its line counter reaches 1000 (data-loader/src/bin/create_index.rs:56).
- With `chunk_size` 0, one game is still read, because `is_done` is checked only after a game has been read (crates/gamma_chess/src/etl.rs:143, data-loader/src/loader.rs:86).

## Findings

| source | as written | input that shows it | evidently intended | confidence | as-written member | corrected member |
|---|---|---|---|---|---|---|
| crates/workflows/src/preprocess.rs:48 (the same at data-loader/src/bin/preprocess.rs:43) | `start_index = chunk_id * actual_chunk_size`, so the last chunk uses its own short size as the stride | 6 225 957 games in chunks of 10 000: the last chunk, 622, has 5957 games and starts at 622 * 5957 = 3 705 254 instead of 6 220 000. Entries 6 220 000 .. 6 225 956 lie in no chunk's index range. For the plain data-loader reader these games are never written, and games 3 705 254 .. 3 711 210 are written twice. The validating reader of the workflows copy reads on past a discarded game, so there the missing and repeated ranges shift (see "Left out") | `start_index = chunk_id * CHUNK_SIZE`, so the chunks' start ranges tile all index entries. For the plain data-loader reader the chunk files then hold every game exactly once. The validating reader of the workflows copy still reads past a discarded game (see "Left out"). | high, not executed | Chunking.StartIndexAsWritten, Chunking.ShippedConstantsLoseTail, Chunking.PlanAsWrittenTiles | Chunking.StartIndex, Chunking.ChunksPartition, Chunking.PlanTiles, Chunking.PlanReadsEveryGame |

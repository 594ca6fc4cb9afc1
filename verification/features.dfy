/**
  The feature encoding of the gamma_chess model: a board becomes a 12 x 8 x 8 grid of 0/1 cells
  (one plane per piece kind and colour) and a move becomes a one-hot vector of 4096 cells indexed
  by `from * 64 + to`. Squares are numbered rank-major from a1 = 0 to h8 = 63, as shakmaty and
  python-chess both number them. Grids are flattened in row-major order: cell (plane, rank,
  file) sits at `plane * 64 + rank * 8 + file`.
*/
module Features {
  import opened Wrappers

  datatype Role = Pawn | Knight | Bishop | Rook | Queen | King
  datatype Color = White | Black
  datatype Piece = Piece(role: Role, color: Color)

  type Square = s: nat | s < 64

  /** What the encoder sees of a position: the piece on each of the 64 squares, if any. */
  type BoardView = s: seq<Option<Piece>> | |s| == 64 witness EmptyBoard()

  function EmptyBoard(): seq<Option<Piece>>
  {
    seq(64, _ => None)
  }

  const PlaneCount: nat := 12
  const PositionCells: nat := 768
  const MoveCells: nat := 4096

  /** Role bases: Pawn 0, Knight 1, Bishop 2, Rook 3, Queen 4, King 5. */
  function RoleBase(r: Role): nat
  {
    match r
    case Pawn => 0
    case Knight => 1
    case Bishop => 2
    case Rook => 3
    case Queen => 4
    case King => 5
  }

  /** The plane of a piece: its role base, plus 6 for black. */
  function Plane(p: Piece): (i: nat)
    ensures i < PlaneCount
    ensures (i < 6) <==> p.color == White
  {
    RoleBase(p.role) + if p.color == White then 0 else 6
  }

  /** The piece a plane stands for. */
  function PieceOfPlane(i: nat): (p: Piece)
    requires i < PlaneCount
    ensures Plane(p) == i
  {
    var role := match i % 6
                case 0 => Pawn
                case 1 => Knight
                case 2 => Bishop
                case 3 => Rook
                case 4 => Queen
                case _ => King;
    Piece(role, if i < 6 then White else Black)
  }

  /** The plane map is a bijection between the 12 (role, colour) pairs and the planes 0..11. */
  lemma PlaneBijective(p: Piece, q: Piece)
    ensures PieceOfPlane(Plane(p)) == p
    ensures Plane(p) == Plane(q) <==> p == q
  {
  }

  function Rank(sq: Square): (r: nat)
    ensures r < 8
  {
    sq / 8
  }

  function File(sq: Square): (f: nat)
    ensures f < 8
  {
    sq % 8
  }

  function SquareAt(rank: nat, file: nat): (sq: Square)
    requires rank < 8 && file < 8
  {
    rank * 8 + file
  }

  /** Rank and file determine the square and are determined by it. */
  lemma SquareCoordinates(sq: Square, rank: nat, file: nat)
    requires rank < 8 && file < 8
    ensures SquareAt(Rank(sq), File(sq)) == sq
    ensures Rank(SquareAt(rank, file)) == rank && File(SquareAt(rank, file)) == file
  {
  }

  /** The flat position of grid cell (plane, rank, file). */
  function Cell(plane: nat, rank: nat, file: nat): (c: nat)
    requires plane < PlaneCount && rank < 8 && file < 8
    ensures c < PositionCells
    ensures c / 64 == plane && c % 64 == SquareAt(rank, file)
  {
    plane * 64 + SquareAt(rank, file)
  }

  lemma CellInjective(p: nat, r: nat, f: nat, p': nat, r': nat, f': nat)
    requires p < PlaneCount && r < 8 && f < 8
    requires p' < PlaneCount && r' < 8 && f' < 8
    ensures Cell(p, r, f) == Cell(p', r', f') <==> p == p' && r == r' && f == f'
  {
    SquareCoordinates(SquareAt(r, f), r, f);
    SquareCoordinates(SquareAt(r', f'), r', f');
  }

  function Zeros(n: nat): (t: seq<int>)
    ensures |t| == n && forall i :: 0 <= i < n ==> t[i] == 0
  {
    seq(n, _ => 0)
  }

  /** The square (rank, file) holds a piece whose plane is `plane`. */
  predicate Occupies(board: BoardView, plane: nat, rank: nat, file: nat)
    requires rank < 8 && file < 8
  {
    board[SquareAt(rank, file)].Some? && Plane(board[SquareAt(rank, file)].value) == plane
  }

  /** The loop over all squares from `sq` on, setting the cell of each occupied square to 1. */
  function FillSquares(t: seq<int>, board: BoardView, sq: nat): (r: seq<int>)
    requires |t| == PositionCells && sq <= 64
    ensures |r| == PositionCells
    ensures forall p: nat, rk: nat, f: nat :: p < PlaneCount && rk < 8 && f < 8 ==>
              r[Cell(p, rk, f)] == if sq <= SquareAt(rk, f) && Occupies(board, p, rk, f) then 1 else t[Cell(p, rk, f)]
    decreases 64 - sq
  {
    if sq == 64 then t
    else
      var next := match board[sq]
                  case None => t
                  case Some(pc) => t[Cell(Plane(pc), Rank(sq), File(sq)) := 1];
      FillOneSquare(t, board, sq);
      FillSquares(next, board, sq + 1)
  }

  /** Visiting square `sq` sets exactly the cell of the piece on it, if any. */
  lemma FillOneSquare(t: seq<int>, board: BoardView, sq: nat)
    requires |t| == PositionCells && sq < 64
    ensures var next := match board[sq]
                        case None => t
                        case Some(pc) => t[Cell(Plane(pc), Rank(sq), File(sq)) := 1];
            forall p: nat, rk: nat, f: nat :: p < PlaneCount && rk < 8 && f < 8 ==>
              next[Cell(p, rk, f)] == if SquareAt(rk, f) == sq && Occupies(board, p, rk, f) then 1 else t[Cell(p, rk, f)]
  {
    forall rk: nat, f: nat | rk < 8 && f < 8
      ensures SquareAt(rk, f) == sq ==> rk == Rank(sq) && f == File(sq)
    {
      SquareCoordinates(sq, rk, f);
    }
    if board[sq].Some? {
      var pc := board[sq].value;
      forall p: nat, rk: nat, f: nat | p < PlaneCount && rk < 8 && f < 8
        ensures Cell(Plane(pc), Rank(sq), File(sq)) == Cell(p, rk, f) <==> p == Plane(pc) && rk == Rank(sq) && f == File(sq)
      {
        CellInjective(Plane(pc), Rank(sq), File(sq), p, rk, f);
      }
    }
  }

  /**
    `board_to_tensor`: the slice is zeroed and the cell (plane, rank, file) of every occupied
    square is set. A cell is 1 exactly when its square holds a piece of its plane.
  */
  function PositionTensor(board: BoardView): (t: seq<int>)
    ensures |t| == PositionCells
    ensures forall p: nat, rk: nat, f: nat :: p < PlaneCount && rk < 8 && f < 8 ==>
              t[Cell(p, rk, f)] == if Occupies(board, p, rk, f) then 1 else 0
  {
    FillSquares(Zeros(PositionCells), board, 0)
  }

  /** No square has two planes set. */
  lemma OnePlanePerSquare(board: BoardView, p: nat, p': nat, rk: nat, f: nat)
    requires p < PlaneCount && p' < PlaneCount && rk < 8 && f < 8
    ensures PositionTensor(board)[Cell(p, rk, f)] == 1 && PositionTensor(board)[Cell(p', rk, f)] == 1 ==> p == p'
  {
  }

  /** Number of cells equal to 1. */
  function CountOnes(t: seq<int>): nat
    decreases |t|
  {
    if |t| == 0 then 0 else CountOnes(t[..|t| - 1]) + (if t[|t| - 1] == 1 then 1 else 0)
  }

  /** Number of occupied squares from `sq` on. */
  function OccupiedFrom(board: BoardView, sq: nat): nat
    requires sq <= 64
    decreases 64 - sq
  {
    if sq == 64 then 0 else (if board[sq].Some? then 1 else 0) + OccupiedFrom(board, sq + 1)
  }

  lemma {:induction false} CountOnesZeros(n: nat)
    ensures CountOnes(Zeros(n)) == 0
  {
    if n > 0 {
      assert Zeros(n)[..n - 1] == Zeros(n - 1);
      CountOnesZeros(n - 1);
    }
  }

  /** Setting a zero cell to one adds one to the count. */
  lemma {:induction false} CountOnesSet(t: seq<int>, c: nat)
    requires c < |t| && t[c] == 0
    ensures CountOnes(t[c := 1]) == CountOnes(t) + 1
    decreases |t|
  {
    var u := t[c := 1];
    var n := |t| - 1;
    if c < n {
      assert u[..n] == t[..n][c := 1];
      CountOnesSet(t[..n], c);
    } else {
      assert u[..n] == t[..n];
    }
  }

  lemma {:induction false} FillCountsSquares(t: seq<int>, board: BoardView, sq: nat)
    requires |t| == PositionCells && sq <= 64
    requires forall c :: 0 <= c < PositionCells && c % 64 >= sq ==> t[c] == 0
    ensures CountOnes(FillSquares(t, board, sq)) == CountOnes(t) + OccupiedFrom(board, sq)
    decreases 64 - sq
  {
    if sq < 64 {
      match board[sq]
      case None =>
        FillCountsSquares(t, board, sq + 1);
      case Some(pc) =>
        var c := Cell(Plane(pc), Rank(sq), File(sq));
        var next := t[c := 1];
        CountOnesSet(t, c);
        FillCountsSquares(next, board, sq + 1);
    }
  }

  /** The grid holds exactly as many ones as the board holds pieces. */
  lemma PositionTensorCountsPieces(board: BoardView)
    ensures CountOnes(PositionTensor(board)) == OccupiedFrom(board, 0)
  {
    CountOnesZeros(PositionCells);
    FillCountsSquares(Zeros(PositionCells), board, 0);
  }

  /** `from * 64 + to` for two squares. */
  function MoveIndex(from: Square, to: Square): (i: nat)
    ensures i < MoveCells
    ensures i / 64 == from && i % 64 == to
  {
    from * 64 + to
  }

  /** The largest `usize`, the bound of the checked arithmetic. */
  const UsizeMax: nat := 0xFFFF_FFFF_FFFF_FFFF

  /** `checked_mul(64)` then `checked_add(destination)` on `usize`. */
  function CheckedMoveIndex(source: nat, destination: nat): (r: Option<nat>)
    ensures r.Some? ==> r.value <= UsizeMax
    ensures source < 64 && destination < 64 ==> r == Some(MoveIndex(source, destination))
  {
    if source * 64 > UsizeMax then None
    else if source * 64 + destination > UsizeMax then None
    else Some(source * 64 + destination)
  }

  /**
    `move_to_tensor`: a zeroed vector of 4096 cells with the single cell `from * 64 + to` set.
    The overflow error of the checked arithmetic is unreachable for squares.
  */
  function MoveTensor(from: Square, to: Square): (t: seq<int>)
    ensures |t| == MoveCells
    ensures forall i :: 0 <= i < MoveCells ==> (t[i] == 1 <==> i / 64 == from && i % 64 == to)
    ensures forall i :: 0 <= i < MoveCells ==> (t[i] == 0 || t[i] == 1)
    ensures CountOnes(t) == 1
  {
    var i := CheckedMoveIndex(from, to).value;
    CountOnesZeros(MoveCells);
    CountOnesSet(Zeros(MoveCells), i);
    Zeros(MoveCells)[i := 1]
  }

  /** Distinct moves give distinct tensors: the move is recovered from its one-hot cell. */
  lemma MoveTensorInjective(from: Square, to: Square, from': Square, to': Square)
    ensures MoveTensor(from, to) == MoveTensor(from', to') <==> from == from' && to == to'
  {
    var i := MoveIndex(from, to);
    if MoveTensor(from, to) == MoveTensor(from', to') {
      assert MoveTensor(from', to')[i] == 1;
    }
  }
}

/**
 * The board model of `src/chess.rs`: squares, the 8x8 grid held by `GameState`,
 * the layout string a new game is set up from, and the one move operation the
 * code has (`do_move`). The legality checks of the source are stubs that accept
 * everything, and they are modelled as such.
 */
module Chess {
  import opened Common

  datatype Color = White | Black

  datatype Piece = Pawn | Knight | Bishop | Rook | Queen | King

  datatype Square = Empty | Occupied(piece: Piece, color: Color)

  /** `BoardPosition(file, rank)`: `x` is the column (`pos.0`), `y` the row (`pos.1`). */
  datatype Pos = Pos(x: byte, y: byte)

  /** The grid is indexed `[pos.1][pos.0]`; any coordinate of 8 or more is out of bounds. */
  predicate OnBoard(p: Pos) {
    p.x < 8 && p.y < 8
  }

  // ---------------------------------------------------------------------------
  // c_to_sq and the layout string
  // ---------------------------------------------------------------------------

  /** `char::is_ascii_lowercase`. */
  predicate IsAsciiLowercase(c: char) {
    'a' <= c <= 'z'
  }

  /** `char::to_ascii_lowercase`: only 'A'..'Z' change. */
  function ToAsciiLowercase(c: char): char {
    if 'A' <= c <= 'Z' then (c as int + 32) as char else c
  }

  /** The letter that names a piece, in its Black (lower-case) form. */
  function PieceLetter(p: Piece): char {
    match p
    case Pawn => 'p'
    case Knight => 'n'
    case Bishop => 'b'
    case Rook => 'r'
    case Queen => 'q'
    case King => 'k'
  }

  /**
   * The character that denotes a square in a layout string: '.' for an empty
   * square, the piece letter in lower case for Black and in upper case for White.
   */
  function SquareChar(sq: Square): char {
    match sq
    case Empty => '.'
    case Occupied(p, Black) => PieceLetter(p)
    case Occupied(p, White) => (PieceLetter(p) as int - 32) as char
  }

  /**
   * `c_to_sq`. The source panics on a character that names no square; that
   * case is `None` here. The contract says that the function is exactly the
   * inverse of `SquareChar`: it accepts a character iff some square is written
   * that way, and then returns that square.
   */
  function CharToSquare(c: char): (r: Option<Square>)
    ensures forall sq :: r == Some(sq) <==> c == SquareChar(sq)
  {
    var color := if IsAsciiLowercase(c) then Black else White;
    match ToAsciiLowercase(c)
    case '.' => Some(Empty)
    case 'p' => Some(Occupied(Pawn, color))
    case 'r' => Some(Occupied(Rook, color))
    case 'b' => Some(Occupied(Bishop, color))
    case 'n' => Some(Occupied(Knight, color))
    case 'q' => Some(Occupied(Queen, color))
    case 'k' => Some(Occupied(King, color))
    case _ => None
  }

  /** `default_state`: the starting position, row 0 first, eight characters per row. */
  const DefaultState: string :=
    "rnbqkbnr" +
    "pppppppp" +
    "........" +
    "........" +
    "........" +
    "........" +
    "PPPPPPPP" +
    "RNBQKBNR"

  /** The pieces of a back rank, from column 0 to column 7. */
  const BackRank: seq<Piece> := [Rook, Knight, Bishop, Queen, King, Bishop, Knight, Rook]

  /**
   * The layout string holds exactly 64 characters and every one of them names a
   * square, so the iterator's `unwrap` and `c_to_sq` never fail during setup.
   */
  lemma DefaultStateWellFormed()
    ensures |DefaultState| == 64
    ensures forall k :: 0 <= k < 64 ==> CharToSquare(DefaultState[k]).Some?
  {
    forall k | 0 <= k < 64
      ensures CharToSquare(DefaultState[k]).Some?
    {
      var c := DefaultState[k];
      assert c in "rnbqkpRNBQKP.";
    }
  }

  /** The square that setup puts at `[row][col]`: the character `8 * row + col` of the layout. */
  function DefaultSquare(row: nat, col: nat): Square
    requires row < 8 && col < 8
  {
    DefaultStateWellFormed();
    CharToSquare(DefaultState[8 * row + col]).value
  }

  /**
   * What the layout string means: row 0 is Black's back rank, row 1 Black's
   * pawns, rows 2 to 5 are empty, row 6 holds White's pawns and row 7 White's
   * back rank.
   */
  lemma DefaultLayout()
    ensures forall c :: 0 <= c < 8 ==> DefaultSquare(0, c) == Occupied(BackRank[c], Black)
    ensures forall c :: 0 <= c < 8 ==> DefaultSquare(1, c) == Occupied(Pawn, Black)
    ensures forall r, c :: 2 <= r < 6 && 0 <= c < 8 ==> DefaultSquare(r, c) == Empty
    ensures forall c :: 0 <= c < 8 ==> DefaultSquare(6, c) == Occupied(Pawn, White)
    ensures forall c :: 0 <= c < 8 ==> DefaultSquare(7, c) == Occupied(BackRank[c], White)
  {
    BlackRows();
    EmptyRows();
    WhiteRows();
  }

  lemma BlackRows()
    ensures forall c :: 0 <= c < 8 ==> DefaultSquare(0, c) == Occupied(BackRank[c], Black)
    ensures forall c :: 0 <= c < 8 ==> DefaultSquare(1, c) == Occupied(Pawn, Black)
  {
  }

  lemma EmptyRows()
    ensures forall r, c :: 2 <= r < 6 && 0 <= c < 8 ==> DefaultSquare(r, c) == Empty
  {
  }

  lemma WhiteRows()
    ensures forall c :: 0 <= c < 8 ==> DefaultSquare(6, c) == Occupied(Pawn, White)
    ensures forall c :: 0 <= c < 8 ==> DefaultSquare(7, c) == Occupied(BackRank[c], White)
  {
  }

  // ---------------------------------------------------------------------------
  // The game state as a value
  // ---------------------------------------------------------------------------

  /** A snapshot of `GameState`: the grid as rows of squares plus the other fields. */
  datatype GameView = GameView(
    grid: seq<seq<Square>>,
    turn: Color,
    blackCanCastle: bool,
    whiteCanCastle: bool,
    enPassant: Option<Pos>)

  predicate WellShaped(g: seq<seq<Square>>) {
    |g| == 8 && forall r :: 0 <= r < 8 ==> |g[r]| == 8
  }

  /** The square at a position, read `[pos.1][pos.0]`. */
  function At(g: seq<seq<Square>>, p: Pos): Square
    requires WellShaped(g) && OnBoard(p)
  {
    g[p.y][p.x]
  }

  /** The grid with one square overwritten. */
  function SetAt(g: seq<seq<Square>>, p: Pos, sq: Square): (r: seq<seq<Square>>)
    requires WellShaped(g) && OnBoard(p)
    ensures WellShaped(r)
    ensures At(r, p) == sq
    ensures forall q :: OnBoard(q) && q != p ==> At(r, q) == At(g, q)
  {
    g[p.y := g[p.y][p.x := sq]]
  }

  function EmptyGrid(): (g: seq<seq<Square>>)
    ensures WellShaped(g)
  {
    seq(8, _ => seq(8, _ => Empty))
  }

  /** Two well-shaped grids that agree on every position are equal. */
  lemma GridsEqual(a: seq<seq<Square>>, b: seq<seq<Square>>)
    requires WellShaped(a) && WellShaped(b)
    requires forall p :: OnBoard(p) ==> At(a, p) == At(b, p)
    ensures a == b
  {
    forall r | 0 <= r < 8
      ensures a[r] == b[r]
    {
      forall c | 0 <= c < 8
        ensures a[r][c] == b[r][c]
      {
        assert At(a, Pos(c, r)) == At(b, Pos(c, r));
      }
    }
  }

  /**
   * The effect of `do_move(from, to)` on the state: square `to` receives the old
   * content of `from`, then `from` is emptied (so for `from == to` the second
   * write wins and the square ends empty). Every other square, the side to
   * move, both castling flags and the en-passant square stay as they were.
   */
  function ApplyMove(v: GameView, from: Pos, to: Pos): (r: GameView)
    requires WellShaped(v.grid) && OnBoard(from) && OnBoard(to)
    ensures WellShaped(r.grid)
    ensures At(r.grid, from) == Empty
    ensures from != to ==> At(r.grid, to) == At(v.grid, from)
    ensures forall p :: OnBoard(p) && p != from && p != to ==> At(r.grid, p) == At(v.grid, p)
    ensures r.turn == v.turn && r.enPassant == v.enPassant
    ensures r.blackCanCastle == v.blackCanCastle && r.whiteCanCastle == v.whiteCanCastle
  {
    var moved := SetAt(v.grid, to, At(v.grid, from));
    v.(grid := SetAt(moved, from, Empty))
  }

  /** A move onto its own square is the same as clearing that square. */
  lemma MoveToSelfClears(v: GameView, p: Pos)
    requires WellShaped(v.grid) && OnBoard(p)
    ensures ApplyMove(v, p, p) == v.(grid := SetAt(v.grid, p, Empty))
  {
    GridsEqual(ApplyMove(v, p, p).grid, SetAt(v.grid, p, Empty));
  }

  // ---------------------------------------------------------------------------
  // Counting occupied squares
  // ---------------------------------------------------------------------------

  function Occ(sq: Square): nat {
    if sq.Occupied? then 1 else 0
  }

  function RowCount(row: seq<Square>): nat {
    if row == [] then 0 else RowCount(row[..|row| - 1]) + Occ(row[|row| - 1])
  }

  function OccupiedCount(g: seq<seq<Square>>): nat {
    if g == [] then 0 else OccupiedCount(g[..|g| - 1]) + RowCount(g[|g| - 1])
  }

  lemma {:induction false} RowCountUpdate(row: seq<Square>, c: nat, sq: Square)
    requires c < |row|
    ensures RowCount(row[c := sq]) + Occ(row[c]) == RowCount(row) + Occ(sq)
  {
    var last := |row| - 1;
    if c < last {
      assert row[c := sq][..last] == row[..last][c := sq];
      RowCountUpdate(row[..last], c, sq);
    } else {
      assert row[c := sq][..last] == row[..last];
    }
  }

  lemma {:induction false} GridCountUpdate(g: seq<seq<Square>>, r: nat, row: seq<Square>)
    requires r < |g|
    ensures OccupiedCount(g[r := row]) + RowCount(g[r]) == OccupiedCount(g) + RowCount(row)
  {
    var last := |g| - 1;
    if r < last {
      assert g[r := row][..last] == g[..last][r := row];
      GridCountUpdate(g[..last], r, row);
    } else {
      assert g[r := row][..last] == g[..last];
    }
  }

  lemma SetAtCount(g: seq<seq<Square>>, p: Pos, sq: Square)
    requires WellShaped(g) && OnBoard(p)
    ensures OccupiedCount(SetAt(g, p, sq)) + Occ(At(g, p)) == OccupiedCount(g) + Occ(sq)
  {
    RowCountUpdate(g[p.y], p.x, sq);
    GridCountUpdate(g, p.y, g[p.y][p.x := sq]);
  }

  /**
   * `do_move` never adds a piece: the number of occupied squares drops by one
   * exactly when `to` is occupied and differs from `from` (a capture, or an
   * empty square moved onto a piece, which erases it), or when an occupied
   * `from` is moved onto itself, and stays the same otherwise.
   */
  lemma ApplyMoveOccupancy(v: GameView, from: Pos, to: Pos)
    requires WellShaped(v.grid) && OnBoard(from) && OnBoard(to)
    ensures OccupiedCount(ApplyMove(v, from, to).grid) ==
            OccupiedCount(v.grid) - (if from == to then Occ(At(v.grid, from)) else Occ(At(v.grid, to)))
    ensures OccupiedCount(ApplyMove(v, from, to).grid) <= OccupiedCount(v.grid)
  {
    var moved := SetAt(v.grid, to, At(v.grid, from));
    SetAtCount(v.grid, to, At(v.grid, from));
    SetAtCount(moved, from, Empty);
  }

  /** Moving an empty square onto a piece erases that piece: `do_move` copies the Empty over it. */
  lemma EmptyOntoPieceErases(v: GameView, from: Pos, to: Pos)
    requires WellShaped(v.grid) && OnBoard(from) && OnBoard(to)
    requires At(v.grid, from) == Empty && At(v.grid, to) != Empty
    ensures At(ApplyMove(v, from, to).grid, to) == Empty && At(ApplyMove(v, from, to).grid, from) == Empty
    ensures OccupiedCount(ApplyMove(v, from, to).grid) == OccupiedCount(v.grid) - 1
  {
    ApplyMoveOccupancy(v, from, to);
  }

  // ---------------------------------------------------------------------------
  // Legality (the source's stubs)
  // ---------------------------------------------------------------------------

  /** `GameState::is_legal`: a stub that accepts every move. */
  predicate IsLegal(v: GameView, from: Pos, to: Pos)
    ensures IsLegal(v, from, to)
  {
    true
  }

  /** `GameState::is_legal_start`: a stub that accepts every square. */
  predicate IsLegalStart(v: GameView, pos: Pos)
    ensures IsLegalStart(v, pos)
  {
    true
  }

  // ---------------------------------------------------------------------------
  // The mutable state
  // ---------------------------------------------------------------------------

  /** `GameState`: the 8x8 array of squares and the fields beside it. */
  class GameState {
    const boardState: array2<Square>
    var turn: Color
    var blackCanCastle: bool
    var whiteCanCastle: bool
    var enPassantSquare: Option<Pos>

    ghost predicate Valid() {
      boardState.Length0 == 8 && boardState.Length1 == 8
    }

    /** The array as rows of squares. */
    function Grid(): (g: seq<seq<Square>>)
      reads boardState
      requires Valid()
      ensures WellShaped(g)
      ensures forall p :: OnBoard(p) ==> At(g, p) == boardState[p.y, p.x]
    {
      seq(8, r requires 0 <= r < 8 reads boardState =>
        seq(8, c requires 0 <= c < 8 reads boardState => boardState[r, c]))
    }

    function View(): GameView
      reads this, boardState
      requires Valid()
    {
      GameView(Grid(), turn, blackCanCastle, whiteCanCastle, enPassantSquare)
    }

    /** `GameState::new`: 64 empty squares, White to move, both castling flags set, no en-passant square. */
    constructor ()
      ensures Valid() && fresh(boardState)
      ensures View() == GameView(EmptyGrid(), White, true, true, None)
    {
      boardState := new Square[8, 8]((r, c) => Empty);
      turn := White;
      blackCanCastle := true;
      whiteCanCastle := true;
      enPassantSquare := None;
      new;
      GridsEqual(Grid(), EmptyGrid());
    }

    /**
     * `do_move`: two writes into the array, `[to.1][to.0] := [from.1][from.0]`
     * and then `[from.1][from.0] := Empty`. The source indexes the array with
     * the raw coordinates, so an off-board position is an index panic; here it
     * is excluded by the precondition and the callers check it.
     */
    method DoMove(from: Pos, to: Pos)
      requires Valid() && OnBoard(from) && OnBoard(to)
      modifies boardState
      ensures View() == ApplyMove(old(View()), from, to)
    {
      ghost var before := View();
      boardState[to.y, to.x] := boardState[from.y, from.x];
      boardState[from.y, from.x] := Empty;
      GridsEqual(Grid(), ApplyMove(before, from, to).grid);
    }
  }

  /** The state a new game starts from: the layout string, White to move, both flags set, no en-passant square. */
  function StartView(): (v: GameView)
    ensures WellShaped(v.grid)
    ensures forall r, c :: 0 <= r < 8 && 0 <= c < 8 ==> v.grid[r][c] == DefaultSquare(r, c)
  {
    GameView(seq(8, r requires 0 <= r < 8 => seq(8, c requires 0 <= c < 8 => DefaultSquare(r, c))),
             White, true, true, None)
  }

  /** The position a new game starts from, rank by rank, with White to move. */
  lemma StartPosition()
    ensures var v := StartView();
      v.turn == White && v.blackCanCastle && v.whiteCanCastle && v.enPassant == None
    ensures forall c :: 0 <= c < 8 ==> StartView().grid[0][c] == Occupied(BackRank[c], Black)
    ensures forall c :: 0 <= c < 8 ==> StartView().grid[1][c] == Occupied(Pawn, Black)
    ensures forall r, c :: 2 <= r < 6 && 0 <= c < 8 ==> StartView().grid[r][c] == Empty
    ensures forall c :: 0 <= c < 8 ==> StartView().grid[6][c] == Occupied(Pawn, White)
    ensures forall c :: 0 <= c < 8 ==> StartView().grid[7][c] == Occupied(BackRank[c], White)
  {
    DefaultLayout();
  }

  /** `Board`, without its drawables (images, sizes): the game state and the highlighted square. */
  class Board {
    const gameState: GameState
    var highlight: Option<Pos>

    ghost predicate Valid() {
      gameState.Valid()
    }

    /** `Board::new`, without the image loading: a fresh empty game state and no highlight. */
    constructor ()
      ensures Valid() && fresh(gameState) && fresh(gameState.boardState)
      ensures gameState.View() == GameView(EmptyGrid(), White, true, true, None)
      ensures highlight == None
    {
      gameState := new GameState();
      highlight := None;
    }

    /**
     * `setup_new_game`: fills the grid row by row from the layout string, one
     * character per square, then sets White to move, both castling flags and
     * no en-passant square. The highlight is left alone.
     */
    method SetupNewGame()
      requires Valid()
      modifies gameState, gameState.boardState
      ensures Valid()
      ensures gameState.View() == StartView()
    {
      var k := 0;  // how far the character iterator has advanced
      for i := 0 to 8
        invariant k == 8 * i
        invariant forall r, c :: 0 <= r < i && 0 <= c < 8 ==> gameState.boardState[r, c] == DefaultSquare(r, c)
      {
        k := FillRow(i, k);
      }
      gameState.turn := White;
      gameState.blackCanCastle := true;
      gameState.whiteCanCastle := true;
      gameState.enPassantSquare := None;
      GridsEqual(gameState.Grid(), StartView().grid);
    }

    /** One pass of the inner loop of `setup_new_game`: row `i` from the next eight layout characters. */
    method FillRow(i: nat, k: nat) returns (k': nat)
      requires Valid() && i < 8 && k == 8 * i
      modifies gameState.boardState
      ensures k' == k + 8
      ensures forall c :: 0 <= c < 8 ==> gameState.boardState[i, c] == DefaultSquare(i, c)
      ensures forall r, c :: 0 <= r < 8 && r != i && 0 <= c < 8 ==>
        gameState.boardState[r, c] == old(gameState.boardState[r, c])
    {
      DefaultStateWellFormed();
      k' := k;
      for c := 0 to 8
        invariant k' == k + c
        invariant forall c' :: 0 <= c' < c ==> gameState.boardState[i, c'] == DefaultSquare(i, c')
        invariant forall r, c' :: 0 <= r < 8 && r != i && 0 <= c' < 8 ==>
          gameState.boardState[r, c'] == old(gameState.boardState[r, c'])
      {
        gameState.boardState[i, c] := CharToSquare(DefaultState[k']).value;
        k' := k' + 1;
      }
    }

    /**
     * `try_move`: performs `do_move` when `is_legal` holds. As `is_legal` is a
     * stub that always holds, every call moves the piece.
     */
    method TryMove(from: Pos, to: Pos)
      requires Valid() && OnBoard(from) && OnBoard(to)
      modifies gameState.boardState
      ensures gameState.View() == ApplyMove(old(gameState.View()), from, to)
    {
      if IsLegal(gameState.View(), from, to) {
        gameState.DoMove(from, to);
      }
    }

    /** `set_highlight`: replaces the highlighted square and nothing else. */
    method SetHighlight(opt: Option<Pos>)
      modifies this`highlight
      ensures highlight == opt
    {
      highlight := opt;
    }
  }
}

# Networked chess, tree check and prime sieve — a Dafny model

This project models the core of a small Rust repository. The repository has
four parts:

- a chess board with one move operation (`src/chess.rs`);
- a two-peer network session that exchanges moves over a byte stream
  (`src/net_chess.rs`);
- a tree check on adjacency-list graphs (`src/graph.rs`);
- a sieve of Eratosthenes (`src/lib.rs`).

The project has six modules:

| module | models | contents |
|---|---|---|
| `Common` (`common.dfy`) | shared types | bytes, `Option` and `Result` |
| `Chess` (`chess.dfy`) | `src/chess.rs` | The squares and the layout character of each square; `c_to_sq` as the inverse of that encoding; the 64-character starting layout. `GameState` is a class over an `array2<Square>` with the turn, the two castling flags and the en-passant square. `Board` is a class holding a game state and a highlight. The methods `DoMove`, `SetupNewGame`, `TryMove` and `SetHighlight` are proved against the pure `GameView`/`ApplyMove` description. |
| `Wire` (`wire.dfy`) | the `Networkable` encoders and decoders | Over `seq<byte>`. Every decoder returns the value or the error, together with the unread rest of the stream. The lemmas are round-trips and the exact error conditions. |
| `NetSession` (`net_session.dfy`) | the `MyMove` / `AwaitAck` / `OtherMove` machine | See below. |
| `Graph` (`graph.dfy`) | `EdgeListGraph::make`, the accessors, `get_decorator` and `is_tree` | See below. |
| `Sieve` (`sieve.dfy`) | `sieve_upto` | In place on an `array<bool>`, proved to return exactly the primes in `[2, upto]`, in increasing order. |

`NetSession` works over one owned session: the board, the input still to be
read, everything written so far, and the clicks the user will make.

- The pure function `Step` is the transition. Lemmas state it per state.
- `Session` is a class whose `Next*` methods run the source's read and click
  loops in place. Their contracts say they compute `Step`.
- The machine is generic in the two legality predicates. `SourceRules` are the
  source's stubs, which accept everything.

`Graph.IsTree` runs the breadth-first walk with the `visited` map, the
`unvisited` counter and the restart scan.

- A true answer implies that every vertex has at most one parent. In a
  non-empty graph it also implies that vertex 0 has none and that there are
  fewer edges than vertices. The empty graph gets true with no edges.
- Every graph whose edges all lead to larger indices, with at most one parent
  per vertex, gets true.
- The `panic!` of the restart scan is proved unreachable. It is a branch that
  ends in `assert false`.

The model follows what the Rust code does, also where it does less than a full
chess program would:

- **Legality.** `is_legal` and `is_legal_start` are stubs that return `true`
  (`src/chess.rs:106-111`). There is no rules engine, no check detection and no
  checkmate detection.
- **`do_move`.** It only copies a square and empties the origin. It does not
  flip the side to move, and it does not touch the flags or the en-passant
  square.
- **Erasing a piece.** `is_legal_start` accepts an empty square too. So a click
  on an empty square and then on a piece makes a move that copies Empty over
  the piece, which disappears. `EmptyOntoPieceErases` states this.
- **Castling flags.** The state has two of them, not four.
- **Order in `OtherMove`.** It writes the Ack before it applies the move.
- **Move payloads.** A Move packet may carry any byte as a coordinate, not only
  0–7. With the stub rules, an off-board peer move is acknowledged, and then
  `do_move` panics on the index. The model turns that panic into
  `Err(IndexOutOfBounds)`, and `SourceRulesAckOffBoardMove` exhibits it.
- **Position type.** `BoardPosition` holds two `u8` in `src/chess.rs`, while
  `src/net_chess.rs` builds it from `buf[i] as usize`. Both are modelled as
  bytes.

## Model

| member | source | states |
|---|---|---|
| Chess.CharToSquare | src/chess.rs:119-131 | Accepts a character iff it is the layout character of some square, and then returns exactly that square. The layout characters are '.' for Empty and p/n/b/r/q/k for the pieces, lower case for Black and upper case for White. Every other character, which panics in the source, gives None. |
| Chess.DefaultStateWellFormed | src/chess.rs:133-141 | The layout string has exactly 64 characters, and `c_to_sq` accepts each of them, so neither the `unwrap` nor `c_to_sq` in setup can fail. |
| Chess.DefaultLayout | src/chess.rs:133-141 | Row 0 is Black's back rank (rook, knight, bishop, queen, king, bishop, knight, rook), row 1 Black's pawns, rows 2 to 5 empty, row 6 White's pawns and row 7 White's back rank. |
| Chess.ApplyMove | src/chess.rs:113-116 | The value-level effect of `do_move`, read `[pos.1][pos.0]`. `from` ends Empty. `to` gets the old content of `from` when the two differ. Every other square, the side to move, both castling flags and the en-passant square are unchanged. |
| Chess.MoveToSelfClears | src/chess.rs:114-115 | `do_move(p, p)` only empties `p`, because the second write wins. |
| Chess.ApplyMoveOccupancy | src/chess.rs:114-115 | A move never adds a piece. The count of occupied squares drops by one exactly in two cases. The first is when `to` is occupied and differs from `from`: a capture, or an empty square moved onto a piece, which erases it. The second is when an occupied `from` is moved onto itself. Otherwise the count is unchanged. |
| Chess.EmptyOntoPieceErases | src/chess.rs:114-115 | Moving an empty square onto a piece leaves both squares empty, and one piece fewer on the board. |
| Chess.StartView | src/chess.rs:179-191 | The starting state is well shaped, and square `[r][c]` is the layout character `8*r + c` read by `c_to_sq`. |
| Chess.GameState.constructor | src/chess.rs:97-105 | `GameState::new`: 64 Empty squares, White to move, both castling flags set, no en-passant square. |
| Chess.IsLegal | src/chess.rs:106-108 | The stub `is_legal` accepts every move. |
| Chess.IsLegalStart | src/chess.rs:109-111 | The stub `is_legal_start` accepts every square. |
| Chess.GameState.DoMove | src/chess.rs:113-116 | After the two array writes, the state is `ApplyMove` of the state before. |
| Chess.Board.constructor | src/chess.rs:169-177 | A fresh empty game state and no highlight. |
| Chess.StartPosition | src/chess.rs:179-191 | A new game begins with Black's back rank and pawns on rows 0 and 1, rows 2 to 5 empty, and White's pawns and back rank on rows 6 and 7. White is to move, both castling flags are set, and there is no en-passant square. |
| Chess.Board.SetupNewGame | src/chess.rs:179-191 | Afterwards the game state is `StartView`: the layout row by row, White to move, both flags set, no en-passant square. |
| Chess.Board.FillRow | src/chess.rs:182-185 | One pass of the inner loop: row `i` receives the next eight layout characters, the other rows are untouched, and the iterator advances by eight. |
| Chess.Board.TryMove | src/chess.rs:193-197 | Because `is_legal` is the constant stub, every call performs `do_move`: the state becomes `ApplyMove` of the old one. |
| Chess.Board.SetHighlight | src/chess.rs:199-201 | The highlight becomes the argument, and nothing else may change. |
| Wire.SerializePos | src/net_chess.rs:16-20 | Exactly two bytes: the column, then the row. |
| Wire.DeserializePos | src/net_chess.rs:22-26 | Succeeds iff two bytes are left. On success they are the encoding of the result, followed by the rest. Otherwise it is a read failure that consumes what was left. |
| Wire.PosRoundTrip | src/net_chess.rs:15-26 | Decoding an encoded position gives it back and consumes exactly its two bytes. |
| Wire.SerializeUnit | src/net_chess.rs:30 | `()` writes nothing. |
| Wire.DeserializeUnit | src/net_chess.rs:31 | Reading `()` always succeeds and reads nothing. |
| Wire.SerializePair | src/net_chess.rs:35-38 | A pair's encoding is the first component's bytes followed by the second's, so it is as long as both together. |
| Wire.DeserializePair | src/net_chess.rs:39-43 | The first component is read, then the second from what is left. A failure of the first read is the pair's failure, with its rest. A failure of the second read is the pair's failure, with the second read's rest. When both succeed, the pair holds the two values in order and the rest after the second read. The pair read succeeds exactly when both reads do. |
| Wire.PairRoundTrip | src/net_chess.rs:34-44 | Whenever the component codec round-trips, the pair codec does too: first component, then second. |
| Wire.FromToBigEndian | src/net_chess.rs:46-56 | Reading big-endian the low `n` bytes of a number below 256^n gives the number back. |
| Wire.ToFromBigEndian | src/net_chess.rs:46-56 | Re-encoding the big-endian reading of a byte string gives the string back. |
| Wire.SerializeUsize | src/net_chess.rs:47-50 | `to_be_bytes`: exactly eight bytes, whose big-endian reading is the number. |
| Wire.DeserializeUsize | src/net_chess.rs:51-55 | Succeeds iff eight bytes are left. On success they are the encoding of the result, followed by the rest. Otherwise it is a read failure. |
| Wire.UsizeRoundTrip | src/net_chess.rs:46-56 | `from_be_bytes(to_be_bytes(x)) == x`, consuming exactly eight bytes. |
| Wire.SerializePacket | src/net_chess.rs:87-103 | Move is `[0, from.x, from.y, to.x, to.y]`, Ack is `[1]`, Rej is `[2]`. |
| Wire.DeserializePacket | src/net_chess.rs:104-128 | A success is the encoding of the packet it returns, followed by the rest. Decoding fails with `BadPacketError` iff the tag byte is above 2, and then only that byte is consumed. It is a read failure iff the input is empty or a Move tag has fewer than four payload bytes. |
| Wire.PacketRoundTrip | src/net_chess.rs:86-128 | Decoding an encoded packet gives it back and consumes exactly its bytes. |
| Wire.DecodeProgress | src/net_chess.rs:104-128 | A successful decode consumes at least one byte, so the read loops terminate on finite input. |
| NetSession.InitialState | src/net_chess.rs:306-324 | The server starts in MyMove and the client in OtherMove. |
| NetSession.PickMove | src/net_chess.rs:219-236 | The click loop. A chosen move passes `is_legal_start` and `is_legal`, was the last two clicks consumed, and leaves no highlight. Without a choice, all clicks are used up. The clicks left are a suffix of the clicks given. |
| NetSession.AwaitReply | src/net_chess.rs:246-262 | The read loop of AwaitAck only consumes input. A packet that fails to decode (a failed read or an unknown tag) ends the wait with that error and the decoder's rest, as the `?` passes it out. How it treats each well-formed packet is stated by `AwaitReplyPackets`. |
| NetSession.AwaitPeerMove | src/net_chess.rs:270-289 | A move that ends the wait is legal, and at least one byte was written. Every byte written is a Rej (2) except the last, which is an Ack (1) exactly when a move was accepted. If the first packet fails to decode, the wait ends with that error, the decoder's rest and nothing written. Rejs sent before a later failure stay written. |
| NetSession.Step | src/net_chess.rs:213-291 | Every transition keeps the grid well shaped and the clicks on the board, and a successful one ends in a state that can step again. |
| NetSession.StepSuccessor | src/net_chess.rs:213-291 | Success moves MyMove to AwaitAck, AwaitAck to OtherMove and OtherMove to MyMove. A rejection happens only in AwaitAck, running out of clicks only in MyMove, and the index panic only in OtherMove. |
| NetSession.MyMoveStep | src/net_chess.rs:219-238 | MyMove leaves the board, the input and the output unchanged. On success it carries a move that passes both checks, and it clears the highlight. |
| NetSession.AwaitAckStep | src/net_chess.rs:245-262 | AwaitAck writes exactly one Move packet for its move, leaves the clicks and the highlight alone, and applies the move exactly when the result is success, that is on Ack. |
| NetSession.OtherMoveStep | src/net_chess.rs:270-289 | OtherMove appends only Ack and Rej bytes to the output, leaves the board unchanged on failure, and on success applies the legal, on-board peer move it acknowledged. |
| NetSession.StepAdvancesPhase | src/net_chess.rs:238-281 | Each successful transition advances one place round the cycle MyMove, AwaitAck, OtherMove. |
| NetSession.IterateCycles | src/net_chess.rs:307-309 | For any `next` that advances the cycle, `steps` successful iterations advance it by `steps` places. |
| NetSession.Iterate | src/net_chess.rs:306-309 | The run loop for any `next` function, cut off after a number of steps. A successful run ends in a state that can step again. Only a run of at least one step can fail, and zero steps leave the state and the session as they were. |
| NetSession.RunSteps | src/net_chess.rs:306-309 | The run loop over the machine's own transitions. A successful run ends in a state that can step again, and zero steps change nothing. |
| NetSession.RunStepsUnfold | src/net_chess.rs:306-309 | The run loop makes one `next` call at a time. An error ends the run with that transition, as the `?` does. Success goes on from the new state with one step fewer. |
| NetSession.RunCycles | src/net_chess.rs:306-309 | The run loop over the machine's own transitions advances the cycle once per step. |
| NetSession.RolesAlternate | src/net_chess.rs:306-327 | After any multiple of three successful transitions, the server is back in MyMove and the client in OtherMove. |
| NetSession.ClientSendsNoMoveFirst | src/net_chess.rs:266-291 | The client's first transition writes no Move packet byte (tag 0). |
| NetSession.PickMoveClicks | src/net_chess.rs:219-236 | For any rules, the click loop drops a first click that fails `is_legal_start` and keeps the highlight. A lone acceptable click stays highlighted. An acceptable start and a target make the move when `is_legal` holds, with the rest of the clicks left over. Otherwise both are dropped, the highlight is cleared, and the loop goes on. So the first acceptable pair is the one chosen. |
| NetSession.ReadFailureIsFatal | src/net_chess.rs:246-289 | In AwaitAck and OtherMove, input that fails to decode ends `next` with `Protocol` of that error. The board is unchanged and the input is left at the decoder's rest. In OtherMove nothing is written. |
| NetSession.AwaitReplyPackets | src/net_chess.rs:248-262 | In AwaitAck, a Move packet is skipped, Ack ends the wait as accepted, and Rej as rejected. |
| NetSession.AwaitPeerMovePackets | src/net_chess.rs:272-289 | In OtherMove, Ack and Rej are ignored. A legal Move is answered with one Ack and ends the wait. An illegal one is answered with a Rej, and the wait goes on. |
| NetSession.RejectionIsFatal | src/net_chess.rs:256-259 | A Rej answering our move stops the machine with the board unchanged. |
| NetSession.ExchangeKeepsBoardsEqual | src/net_chess.rs:245-281 | When both peers hold the same board and the move is legal, the mover's AwaitAck and the peer's OtherMove both succeed. The peer writes exactly one Ack, the mover exactly one Move packet, and both end with the same board, `ApplyMove` of the old one. |
| NetSession.SourceRulesTakeFirstClicks | src/net_chess.rs:219-236 | With the stub checks, MyMove takes the first two clicks as its move. |
| NetSession.SourceRulesAckOffBoardMove | src/net_chess.rs:274-279 | With the stub checks, a Move naming column 8 is acknowledged and then ends in the index panic. |
| NetSession.BoundedRulesNeverPanic | src/net_chess.rs:274-279 | Checks that accept only on-board moves never lead OtherMove into the index panic. |
| NetSession.Session.constructor | src/net_chess.rs:303 | A session holds the board, the input stream and the clicks; nothing has been written yet. |
| NetSession.Session.ChooseMove | src/net_chess.rs:219-236 | The click loop, run in place, returns the choice of `PickMove` and leaves its highlight and rest of clicks. |
| NetSession.Session.NextMyMove | src/net_chess.rs:213-239 | `MyMove::next` in place: the new session and the result are `Step` from MyMove. |
| NetSession.Session.ReadReply | src/net_chess.rs:246-262 | The read loop returns the reply of `AwaitReply` and leaves its rest of the input. |
| NetSession.Session.NextAwaitAck | src/net_chess.rs:242-264 | `AwaitAck::next` in place: the new session and the result are `Step` from AwaitAck. |
| NetSession.Session.ReadPeerMove | src/net_chess.rs:270-289 | The read loop returns the outcome of `AwaitPeerMove`, leaves its rest of the input, and appends exactly its bytes to the output. |
| NetSession.Session.NextOtherMove | src/net_chess.rs:266-291 | `OtherMove::next` in place: the new session and the result are `Step` from OtherMove. |
| NetSession.Session.Next | src/net_chess.rs:133-135 | `ChessState::next`, dispatched on the state, computes `Step`. |
| NetSession.Session.Run | src/net_chess.rs:306-327 | The run loop from the role's initial state computes `RunSteps` for the given number of steps. |
| Graph.Range | src/graph.rs:85 | `(0..n).collect()` holds `0, 1, …, n-1` in order. |
| Graph.Make | src/graph.rs:76-86 | Fails with "Oh no" iff some adjacency entry names no vertex. Otherwise the graph has the vertices `0..n` and exactly the given edges. |
| Graph.Size | src/graph.rs:70-72 | The size is the number of vertices. |
| Graph.GetVertices | src/graph.rs:63-65 | The vertices come in increasing order, one per index. |
| Graph.GetConnected | src/graph.rs:66-69 | Every out-neighbour is a vertex. |
| Graph.GetDecorator | src/graph.rs:56-62 | The keys are exactly `0..size()`, and each is bound to the default. |
| Graph.TouchFrom | src/graph.rs:24-36 | The worklist walk from one root keeps the map's keys. `unvisited` stays the count of unvisited vertices, and visited vertices stay visited. A finished walk leaves every vertex before the scan position visited. An early `false` means some vertex has two parents, a root has a parent, or a root was taken twice. |
| Graph.NextUnvisited | src/graph.rs:38-44 | The restart scan returns the first unvisited vertex from the scan position, and every vertex it passes is visited. |
| Graph.IsTree | src/graph.rs:16-51 | A true answer means every vertex has at most one parent. In a non-empty graph, vertex 0 has no parent and there are fewer edges than vertices. Every ordered forest gets true. The panic is unreachable. |
| Graph.TreeExamples | src/graph.rs:94-101 | `[[1],[0]]` and `[[1],[1]]` are not trees; `[[],[]]` and `[[1],[]]` are. |
| Sieve.PrimesUpToMembers | src/lib.rs:12-24 | The reference answer holds exactly the primes between 2 and `n`. |
| Sieve.PrimesUpToIncreasing | src/lib.rs:23 | The reference answer is strictly increasing and bounded by `n`. |
| Sieve.FloorSqrt | src/lib.rs:14 | The loop bound is the integer square root: `r*r <= n < (r+1)*(r+1)`. |
| Sieve.SkipCrossedOut | src/lib.rs:15 | Skipping an index that is already crossed out loses nothing: its multiples have a smaller divisor. |
| Sieve.SmallFactor | src/lib.rs:14-21 | A number below `(s+1)^2` with no divisor up to `s` is prime. |
| Sieve.Survivors | src/lib.rs:23 | The collect step holds exactly the numbers `k + 2` for the marked indices `k`. They lie between 2 and the length of `a` plus 1, in strictly increasing order. |
| Sieve.SurvivorsArePrimes | src/lib.rs:23 | Collecting the marked indices plus 2 gives the primes when the marks are exactly primality. |
| Sieve.CrossOutMultiples | src/lib.rs:16-20 | The inner loop clears exactly the multiples of `i` above `i`, so the marks record one more divisor. |
| Sieve.SieveUpto | src/lib.rs:12-24 | For `upto >= 1` the result is Ok and is exactly the primes in `[2, upto]`, in increasing order. |
| Sieve.SieveExamples | src/lib.rs:31-35 | 1, 2, 3, 4 and 5 give `[]`, `[2]`, `[2, 3]`, `[2, 3]` and `[2, 3, 5]`. |

## Left out

- Rendering is not modelled: `Drawable`, `PngDrawable`, `Board::draw`, the image loading in `Board::new` and `GlobalState::draw` are graphics and file I/O. So is every `println!`.
- Mouse input and `click_to_board` are not modelled. They are window polling and floating-point scaling. The clicks are a given sequence of on-board positions, and running out of them is `Err(OutOfClicks)`, where the source would block.
- TCP is not modelled. Binding and connecting in `run_server` and `run_client` are left out. The stream is a byte sequence read from the front, and an exhausted stream is a read failure, where the source would block or fail.
- Write failures on the stream are not modelled: writes to a byte sequence always succeed.
- `Rc<RefCell<GlobalState>>` sharing is not modelled; the session is one owned object.
- NetSession.Session.Run: the source loops for ever, and the model stops after a given number of steps.
- NetSession.Session.NextAwaitAck: the `panic!` on Rej is `Err(MoveRejected)`.
- NetSession.Session.NextOtherMove: the index panic of `do_move` on an off-board peer move is `Err(IndexOutOfBounds)`, after the Ack has been written.
- Chess.GameState.DoMove and Chess.Board.TryMove: require on-board positions, where the source panics on an index out of range; every caller in the model checks this first.
- Sieve.SieveUpto: requires `upto >= 1`, because `upto - 1` underflows for 0.
- Sieve.SieveUpto: the overflow of `i * 2` and `j += i` near the top of the integer range is not modelled.
- Sieve.FloorSqrt: the float square root `(upto as f64).sqrt() as usize` is modelled as the exact integer square root; the two can differ for numbers beyond 2^52.
- Graph.IsTree: the contract gives a necessary condition and a sufficient one for a true answer, not an exact characterization of the answer.
- `lib::run` is not modelled (it prints); neither are `src/main.rs` and `src/raqote_example.rs` (UI and argument handling).
- The commented-out `String` codec is not modelled.
- A chess rules engine is not modelled because the code has none: no check or checkmate detection, no castling and no en passant. The castling flags and the en-passant square are only set, never read.

/**
 * The turn-taking machine of `src/net_chess.rs`: the states `MyMove`,
 * `AwaitAck` and `OtherMove`, each with its `next` transition, over one owned
 * session (the board, the unread input stream, everything written so far and
 * the clicks the user will make). The machine is generic in the legality
 * checks; with the source's stubs (`SourceRules`) every check passes.
 *
 * `Step` is the transition as a function of the session's value; the methods of
 * `Session` perform it in place, loop by loop as the source does, and are
 * proved to agree with it.
 */
module NetSession {
  import opened Common
  import opened Chess
  import opened Wire

  /** The three states; `AwaitAck` carries the move waiting for the peer's answer. */
  datatype ChessState = MyMove | AwaitAck(from: Pos, to: Pos) | OtherMove

  /** The listening peer (`run_server`) and the connecting one (`run_client`). */
  datatype Role = Server | Client

  /** The server starts by choosing a move; the client starts by waiting for one. */
  function InitialState(role: Role): (s: ChessState)
    ensures s.MyMove? <==> role == Server
    ensures s.OtherMove? <==> role == Client
  {
    match role
    case Server => MyMove
    case Client => OtherMove
  }

  /**
   * Why a transition stops: a failed read or an unknown tag, a rejection of our
   * own move (a panic in the source), no further click (the source would block
   * for ever), or an off-board move index (a panic in `do_move`).
   */
  datatype SessionError = Protocol(error: PacketError) | MoveRejected | OutOfClicks | IndexOutOfBounds

  /** The two legality checks the machine consults. */
  datatype Rules = Rules(legalStart: (GameView, Pos) -> bool, legal: (GameView, Pos, Pos) -> bool)

  /** The checks of `src/chess.rs`: stubs that accept everything. */
  const SourceRules: Rules := Rules(IsLegalStart, IsLegal)

  /** The session as a value. */
  datatype SessionView = SessionView(
    game: GameView,
    highlight: Option<Pos>,
    input: seq<byte>,
    output: seq<byte>,
    clicks: seq<Pos>)

  /** `click_to_board` only ever returns positions on the board. */
  predicate ClicksOnBoard(clicks: seq<Pos>) {
    forall i :: 0 <= i < |clicks| ==> OnBoard(clicks[i])
  }

  /** What a transition from `state` needs of the session value. */
  predicate Ready(state: ChessState, sv: SessionView) {
    WellShaped(sv.game.grid) && ClicksOnBoard(sv.clicks) &&
    (state.AwaitAck? ==> OnBoard(state.from) && OnBoard(state.to))
  }

  // ---------------------------------------------------------------------------
  // MyMove: choosing a move from the clicks
  // ---------------------------------------------------------------------------

  /** The chosen move (if any), the highlight left behind, and the clicks not consumed. */
  datatype Pick = Pick(chosen: Option<(Pos, Pos)>, highlight: Option<Pos>, rest: seq<Pos>)

  /**
   * The click loop of `MyMove::next`: a first click that fails `legalStart` is
   * dropped; otherwise it is highlighted, the second click clears the highlight,
   * and the pair is chosen if `legal` holds and dropped if not. The move chosen
   * is the last two clicks consumed.
   */
  function PickMove(rules: Rules, g: GameView, highlight: Option<Pos>, clicks: seq<Pos>): (r: Pick)
    ensures r.chosen.Some? ==> rules.legalStart(g, r.chosen.value.0) && rules.legal(g, r.chosen.value.0, r.chosen.value.1)
    ensures r.chosen.Some? ==> r.highlight == None
    ensures r.chosen.None? ==> r.rest == []
    ensures |r.rest| <= |clicks| && r.rest == clicks[|clicks| - |r.rest|..]
    ensures r.chosen.Some? ==>
      |r.rest| + 2 <= |clicks| &&
      clicks[|clicks| - |r.rest| - 2] == r.chosen.value.0 &&
      clicks[|clicks| - |r.rest| - 1] == r.chosen.value.1
    decreases |clicks|
  {
    if clicks == [] then Pick(None, highlight, [])
    else
      var a := clicks[0];
      if !rules.legalStart(g, a) then PickMove(rules, g, highlight, clicks[1..])
      else if |clicks| == 1 then Pick(None, Some(a), [])
      else
        var b := clicks[1];
        if rules.legal(g, a, b) then Pick(Some((a, b)), None, clicks[2..])
        else PickMove(rules, g, None, clicks[2..])
  }

  // ---------------------------------------------------------------------------
  // AwaitAck: reading the answer to our move
  // ---------------------------------------------------------------------------

  datatype Reply = Acked | Rejected | ReplyFailed(error: PacketError)

  datatype ReplyWait = ReplyWait(reply: Reply, rest: seq<byte>)

  /** The read loop of `AwaitAck::next`: Move packets are skipped until an Ack, a Rej or a failed read. */
  function AwaitReply(input: seq<byte>): (r: ReplyWait)
    ensures |r.rest| <= |input|
    ensures var d := DeserializePacket(input);
      d.result.Err? ==> r == ReplyWait(ReplyFailed(d.result.error), d.rest)
    decreases |input|
  {
    var d := DeserializePacket(input);
    match d.result
    case Err(e) => ReplyWait(ReplyFailed(e), d.rest)
    case Ok(AckMove) => ReplyWait(Acked, d.rest)
    case Ok(RejMove) => ReplyWait(Rejected, d.rest)
    case Ok(Move(_, _)) =>
      DecodeProgress(input);
      AwaitReply(d.rest)
  }

  // ---------------------------------------------------------------------------
  // OtherMove: waiting for the peer's move
  // ---------------------------------------------------------------------------

  datatype PeerOutcome = PeerMoved(from: Pos, to: Pos) | PeerFailed(error: PacketError)

  /** The outcome, the input left, and the bytes written while waiting. */
  datatype PeerWait = PeerWait(outcome: PeerOutcome, rest: seq<byte>, written: seq<byte>)

  /**
   * The read loop of `OtherMove::next`: Ack and Rej packets are ignored, an
   * illegal Move is answered with Rej, and the first legal Move is answered
   * with Ack and ends the loop. So everything written is a Rej except the last
   * byte, which is an Ack exactly when a move was accepted.
   */
  function AwaitPeerMove(rules: Rules, g: GameView, input: seq<byte>): (r: PeerWait)
    ensures r.outcome.PeerMoved? ==> rules.legal(g, r.outcome.from, r.outcome.to)
    ensures r.outcome.PeerMoved? ==> |r.written| >= 1
    ensures forall i :: 0 <= i < |r.written| ==>
      r.written[i] == if r.outcome.PeerMoved? && i == |r.written| - 1 then 1 else 2
    ensures |r.rest| <= |input|
    ensures var d := DeserializePacket(input);
      d.result.Err? ==> r == PeerWait(PeerFailed(d.result.error), d.rest, [])
    decreases |input|
  {
    var d := DeserializePacket(input);
    match d.result
    case Err(e) => PeerWait(PeerFailed(e), d.rest, [])
    case Ok(Move(from, to)) =>
      if rules.legal(g, from, to) then PeerWait(PeerMoved(from, to), d.rest, SerializePacket(AckMove))
      else
        DecodeProgress(input);
        var w := AwaitPeerMove(rules, g, d.rest);
        PeerWait(w.outcome, w.rest, SerializePacket(RejMove) + w.written)
    case Ok(_) =>
      DecodeProgress(input);
      AwaitPeerMove(rules, g, d.rest)
  }

  // ---------------------------------------------------------------------------
  // The transition function
  // ---------------------------------------------------------------------------

  datatype Transition = Transition(result: Result<ChessState, SessionError>, after: SessionView)

  /**
   * One `next` call. What each state's transition does is stated by the lemmas
   * below it; the function itself only promises that a successor can step again.
   */
  function Step(rules: Rules, state: ChessState, sv: SessionView): (r: Transition)
    requires Ready(state, sv)
    ensures WellShaped(r.after.game.grid) && ClicksOnBoard(r.after.clicks)
    ensures r.result.Ok? ==> Ready(r.result.value, r.after)
  {
    match state
    case MyMove =>
      var pick := PickMove(rules, sv.game, sv.highlight, sv.clicks);
      var after := sv.(highlight := pick.highlight, clicks := pick.rest);
      assert ClicksOnBoard(after.clicks) by {
        forall i | 0 <= i < |pick.rest|
          ensures OnBoard(pick.rest[i])
        {
          assert pick.rest[i] == sv.clicks[|sv.clicks| - |pick.rest| + i];
        }
      }
      if pick.chosen.Some? then
        Transition(Ok(AwaitAck(pick.chosen.value.0, pick.chosen.value.1)), after)
      else
        Transition(Err(OutOfClicks), after)
    case AwaitAck(from, to) =>
      var sent := sv.output + SerializePacket(Move(from, to));
      var wait := AwaitReply(sv.input);
      var after := sv.(input := wait.rest, output := sent);
      (match wait.reply
       case Acked => Transition(Ok(OtherMove), after.(game := ApplyMove(sv.game, from, to)))
       case Rejected => Transition(Err(MoveRejected), after)
       case ReplyFailed(e) => Transition(Err(Protocol(e)), after))
    case OtherMove =>
      var wait := AwaitPeerMove(rules, sv.game, sv.input);
      var after := sv.(input := wait.rest, output := sv.output + wait.written);
      assert after.output[..|sv.output|] == sv.output;
      assert forall i :: |sv.output| <= i < |after.output| ==> after.output[i] == wait.written[i - |sv.output|];
      match wait.outcome
      case PeerFailed(e) => Transition(Err(Protocol(e)), after)
      case PeerMoved(from, to) =>
        if OnBoard(from) && OnBoard(to) then
          Transition(Ok(MyMove), after.(game := ApplyMove(sv.game, from, to)))
        else
          Transition(Err(IndexOutOfBounds), after)
  }

  /** Each successful `next` moves to the following state of the cycle, carrying the chosen move. */
  lemma StepSuccessor(rules: Rules, state: ChessState, sv: SessionView)
    requires Ready(state, sv)
    ensures var r := Step(rules, state, sv);
      r.result.Ok? ==>
        (r.result.value.AwaitAck? <==> state.MyMove?) &&
        (r.result.value.OtherMove? <==> state.AwaitAck?) &&
        (r.result.value.MyMove? <==> state.OtherMove?)
    ensures var r := Step(rules, state, sv);
      (r.result == Err(MoveRejected) ==> state.AwaitAck?) &&
      (r.result == Err(OutOfClicks) ==> state.MyMove?) &&
      (r.result == Err(IndexOutOfBounds) ==> state.OtherMove?)
  {
  }

  /** `MyMove` only reads clicks, and ends in `AwaitAck` with a move that passes both checks. */
  lemma MyMoveStep(rules: Rules, sv: SessionView)
    requires Ready(MyMove, sv)
    ensures var r := Step(rules, MyMove, sv);
      r.after.game == sv.game && r.after.input == sv.input && r.after.output == sv.output
    ensures var r := Step(rules, MyMove, sv);
      r.result.Ok? ==>
        var m := r.result.value;
        rules.legalStart(sv.game, m.from) && rules.legal(sv.game, m.from, m.to) && r.after.highlight == None
  {
  }

  /** `AwaitAck` writes exactly one Move packet and applies the move once, exactly when it is acknowledged. */
  lemma AwaitAckStep(rules: Rules, from: Pos, to: Pos, sv: SessionView)
    requires Ready(AwaitAck(from, to), sv)
    ensures var r := Step(rules, AwaitAck(from, to), sv);
      r.after.output == sv.output + SerializePacket(Move(from, to)) &&
      r.after.clicks == sv.clicks && r.after.highlight == sv.highlight &&
      r.after.game == (if r.result.Ok? then ApplyMove(sv.game, from, to) else sv.game)
  {
  }

  /**
   * `OtherMove` writes only Rej and Ack bytes, and changes the board only by
   * applying a legal, on-board peer move it has acknowledged.
   */
  lemma OtherMoveStep(rules: Rules, sv: SessionView)
    requires Ready(OtherMove, sv)
    ensures var r := Step(rules, OtherMove, sv);
      r.after.clicks == sv.clicks && r.after.highlight == sv.highlight &&
      |r.after.output| >= |sv.output| && r.after.output[..|sv.output|] == sv.output &&
      forall i :: |sv.output| <= i < |r.after.output| ==> r.after.output[i] in {1, 2}
    ensures var r := Step(rules, OtherMove, sv);
      r.result.Err? ==> r.after.game == sv.game
    ensures var r := Step(rules, OtherMove, sv);
      r.result.Ok? ==>
        var w := AwaitPeerMove(rules, sv.game, sv.input);
        w.outcome.PeerMoved? && rules.legal(sv.game, w.outcome.from, w.outcome.to) &&
        OnBoard(w.outcome.from) && OnBoard(w.outcome.to) &&
        r.after.game == ApplyMove(sv.game, w.outcome.from, w.outcome.to)
  {
  }

  /** A `next` function: defined on every ready state, and every successor it reaches is ready again. */
  ghost predicate IsNext(step: (ChessState, SessionView) --> Transition) {
    (forall s, v :: Ready(s, v) ==> step.requires(s, v)) &&
    forall s, v :: Ready(s, v) && step(s, v).result.Ok? ==> Ready(step(s, v).result.value, step(s, v).after)
  }

  /** `loop { run_state = run_state.next()?; }` for any `next`, cut off after `steps` transitions. */
  function Iterate(step: (ChessState, SessionView) --> Transition, state: ChessState, sv: SessionView, steps: nat): (r: Transition)
    requires IsNext(step) && Ready(state, sv)
    ensures r.result.Ok? ==> Ready(r.result.value, r.after)
    ensures r.result.Err? ==> steps > 0
    ensures steps == 0 ==> r == Transition(Ok(state), sv)
    decreases steps
  {
    if steps == 0 then Transition(Ok(state), sv)
    else
      var t := step(state, sv);
      if t.result.Err? then t else Iterate(step, t.result.value, t.after, steps - 1)
  }

  /** `Step` with the rules fixed, as a `next` function. */
  function StepOf(rules: Rules): (step: (ChessState, SessionView) --> Transition)
    ensures IsNext(step)
  {
    (s, v) requires Ready(s, v) => Step(rules, s, v)
  }

  /** The run loop of `run_server` and `run_client` over the machine's own transitions. */
  function RunSteps(rules: Rules, state: ChessState, sv: SessionView, steps: nat): (r: Transition)
    requires Ready(state, sv)
    ensures r.result.Ok? ==> Ready(r.result.value, r.after)
    ensures steps == 0 ==> r == Transition(Ok(state), sv)
  {
    Iterate(StepOf(rules), state, sv, steps)
  }

  /** The run loop makes one `next` call at a time: an error ends the run (the `?`), success goes on from the new state. */
  lemma RunStepsUnfold(rules: Rules, state: ChessState, sv: SessionView, steps: nat)
    requires Ready(state, sv) && steps > 0
    ensures var t := Step(rules, state, sv);
      RunSteps(rules, state, sv, steps) ==
        if t.result.Err? then t else RunSteps(rules, t.result.value, t.after, steps - 1)
  {
  }

  /** The position of a state in the cycle MyMove, AwaitAck, OtherMove. */
  function Phase(s: ChessState): nat {
    match s
    case MyMove => 0
    case AwaitAck(_, _) => 1
    case OtherMove => 2
  }

  /** A `next` whose every success advances one place round the cycle. */
  ghost predicate AdvancesPhase(step: (ChessState, SessionView) --> Transition)
    requires IsNext(step)
  {
    forall s, v :: Ready(s, v) && step(s, v).result.Ok? ==> Phase(step(s, v).result.value) == (Phase(s) + 1) % 3
  }

  /** One successful transition advances one place round the cycle. */
  lemma StepAdvancesPhase(rules: Rules, state: ChessState, sv: SessionView)
    requires Ready(state, sv)
    ensures Step(rules, state, sv).result.Ok? ==>
      Phase(Step(rules, state, sv).result.value) == (Phase(state) + 1) % 3
  {
    StepSuccessor(rules, state, sv);
  }

  /** Each success of a cycle-advancing `next` adds one place round the cycle. */
  lemma {:induction false} IterateCycles(step: (ChessState, SessionView) --> Transition, state: ChessState, sv: SessionView, steps: nat)
    requires IsNext(step) && AdvancesPhase(step) && Ready(state, sv)
    ensures Iterate(step, state, sv, steps).result.Ok? ==>
      Phase(Iterate(step, state, sv, steps).result.value) == (Phase(state) + steps) % 3
    decreases steps
  {
    if steps > 0 {
      var t := step(state, sv);
      if t.result.Ok? {
        var q := t.result.value;
        IterateCycles(step, q, t.after, steps - 1);
        assert (Phase(q) + (steps - 1)) % 3 == (Phase(state) + steps) % 3;
      }
    }
  }

  /** Every successful run of transitions advances one place round the cycle MyMove, AwaitAck, OtherMove per step. */
  lemma RunCycles(rules: Rules, state: ChessState, sv: SessionView, steps: nat)
    requires Ready(state, sv)
    ensures RunSteps(rules, state, sv, steps).result.Ok? ==>
      Phase(RunSteps(rules, state, sv, steps).result.value) == (Phase(state) + steps) % 3
  {
    var step := StepOf(rules);
    forall s, v | Ready(s, v) && step(s, v).result.Ok?
      ensures Phase(step(s, v).result.value) == (Phase(s) + 1) % 3
    {
      StepAdvancesPhase(rules, s, v);
    }
    IterateCycles(step, state, sv, steps);
  }

  /**
   * From the start, the server is choosing a move after every multiple of three
   * transitions, and the client is then waiting for one: the server moves first.
   */
  lemma RolesAlternate(rules: Rules, sv: SessionView, steps: nat)
    requires Ready(MyMove, sv) && steps % 3 == 0
    ensures RunSteps(rules, InitialState(Server), sv, steps).result.Ok? ==>
      RunSteps(rules, InitialState(Server), sv, steps).result.value == MyMove
    ensures RunSteps(rules, InitialState(Client), sv, steps).result.Ok? ==>
      RunSteps(rules, InitialState(Client), sv, steps).result.value == OtherMove
  {
    ServerCycle(rules, sv, steps);
    ClientCycle(rules, sv, steps);
  }

  lemma ServerCycle(rules: Rules, sv: SessionView, steps: nat)
    requires Ready(MyMove, sv) && steps % 3 == 0
    ensures var r := RunSteps(rules, MyMove, sv, steps);
      r.result.Ok? ==> r.result.value == MyMove
  {
    RunCycles(rules, MyMove, sv, steps);
    var r := RunSteps(rules, MyMove, sv, steps);
    if r.result.Ok? {
      PhaseZero(r.result.value, steps);
    }
  }

  lemma ClientCycle(rules: Rules, sv: SessionView, steps: nat)
    requires Ready(OtherMove, sv) && steps % 3 == 0
    ensures var r := RunSteps(rules, OtherMove, sv, steps);
      r.result.Ok? ==> r.result.value == OtherMove
  {
    RunCycles(rules, OtherMove, sv, steps);
    var r := RunSteps(rules, OtherMove, sv, steps);
    if r.result.Ok? {
      PhaseTwo(r.result.value, steps);
    }
  }

  lemma PhaseZero(s: ChessState, steps: nat)
    requires steps % 3 == 0 && Phase(s) == (Phase(MyMove) + steps) % 3
    ensures s == MyMove
  {
  }

  lemma PhaseTwo(s: ChessState, steps: nat)
    requires steps % 3 == 0 && Phase(s) == (Phase(OtherMove) + steps) % 3
    ensures s == OtherMove
  {
    assert (2 + steps) % 3 == 2;
  }

  /** A client's first transition never sends a Move packet: only the server opens the game. */
  lemma ClientSendsNoMoveFirst(rules: Rules, sv: SessionView)
    requires Ready(OtherMove, sv)
    ensures var r := Step(rules, InitialState(Client), sv);
      forall i :: |sv.output| <= i < |r.after.output| ==> r.after.output[i] != 0
  {
  }

  // ---------------------------------------------------------------------------
  // How the read loops treat each packet
  // ---------------------------------------------------------------------------

  /** In AwaitAck, a Move packet is discarded; an Ack or a Rej ends the wait. */
  lemma AwaitReplyPackets(from: Pos, to: Pos, rest: seq<byte>)
    ensures AwaitReply(SerializePacket(Move(from, to)) + rest) == AwaitReply(rest)
    ensures AwaitReply(SerializePacket(AckMove) + rest) == ReplyWait(Acked, rest)
    ensures AwaitReply(SerializePacket(RejMove) + rest) == ReplyWait(Rejected, rest)
  {
    PacketRoundTrip(Move(from, to), rest);
    PacketRoundTrip(AckMove, rest);
    PacketRoundTrip(RejMove, rest);
  }

  /** In OtherMove, Ack and Rej are ignored, an illegal Move costs a Rej, a legal one gets an Ack. */
  lemma AwaitPeerMovePackets(rules: Rules, g: GameView, from: Pos, to: Pos, rest: seq<byte>)
    ensures AwaitPeerMove(rules, g, SerializePacket(AckMove) + rest) == AwaitPeerMove(rules, g, rest)
    ensures AwaitPeerMove(rules, g, SerializePacket(RejMove) + rest) == AwaitPeerMove(rules, g, rest)
    ensures rules.legal(g, from, to) ==>
      AwaitPeerMove(rules, g, SerializePacket(Move(from, to)) + rest) ==
      PeerWait(PeerMoved(from, to), rest, SerializePacket(AckMove))
    ensures !rules.legal(g, from, to) ==>
      var w := AwaitPeerMove(rules, g, rest);
      AwaitPeerMove(rules, g, SerializePacket(Move(from, to)) + rest) ==
      PeerWait(w.outcome, w.rest, SerializePacket(RejMove) + w.written)
  {
    PacketRoundTrip(Move(from, to), rest);
    PacketRoundTrip(AckMove, rest);
    PacketRoundTrip(RejMove, rest);
  }

  /**
   * How the click loop treats the first clicks: a click that fails
   * `legalStart` is dropped, a lone acceptable click stays highlighted, and an
   * acceptable start followed by a target is chosen when `legal` holds and
   * dropped, with the highlight cleared, when it does not.
   */
  lemma PickMoveClicks(rules: Rules, g: GameView, h: Option<Pos>, a: Pos, b: Pos, cs: seq<Pos>)
    ensures !rules.legalStart(g, a) ==> PickMove(rules, g, h, [a] + cs) == PickMove(rules, g, h, cs)
    ensures rules.legalStart(g, a) ==> PickMove(rules, g, h, [a]) == Pick(None, Some(a), [])
    ensures rules.legalStart(g, a) && rules.legal(g, a, b) ==>
      PickMove(rules, g, h, [a, b] + cs) == Pick(Some((a, b)), None, cs)
    ensures rules.legalStart(g, a) && !rules.legal(g, a, b) ==>
      PickMove(rules, g, h, [a, b] + cs) == PickMove(rules, g, None, cs)
  {
    assert ([a] + cs)[1..] == cs;
    assert ([a, b] + cs)[2..] == cs;
  }

  /** A failed read, a truncated packet or an unknown tag ends AwaitAck and OtherMove with that error. */
  lemma ReadFailureIsFatal(rules: Rules, state: ChessState, sv: SessionView)
    requires Ready(state, sv) && !state.MyMove?
    requires DeserializePacket(sv.input).result.Err?
    ensures var d := DeserializePacket(sv.input);
      Step(rules, state, sv).result == Err(Protocol(d.result.error)) &&
      Step(rules, state, sv).after.input == d.rest &&
      Step(rules, state, sv).after.game == sv.game
    ensures state.OtherMove? ==> Step(rules, state, sv).after.output == sv.output
  {
  }

  /** A Rej that answers our own move stops the machine; it is never a transition. */
  lemma RejectionIsFatal(rules: Rules, sv: SessionView, from: Pos, to: Pos, rest: seq<byte>)
    requires Ready(AwaitAck(from, to), sv) && sv.input == SerializePacket(RejMove) + rest
    ensures Step(rules, AwaitAck(from, to), sv).result == Err(MoveRejected)
    ensures Step(rules, AwaitAck(from, to), sv).after.game == sv.game
  {
    AwaitReplyPackets(from, to, rest);
  }

  /**
   * One exchange keeps both boards equal: when the mover sends Move(from, to)
   * and the peer, holding the same board, finds the move legal, the peer
   * answers with one Ack and both sides end with the board `ApplyMove` gives.
   */
  lemma ExchangeKeepsBoardsEqual(
    rules: Rules, mover: SessionView, peer: SessionView, from: Pos, to: Pos,
    moverRest: seq<byte>, peerRest: seq<byte>)
    requires Ready(AwaitAck(from, to), mover) && Ready(OtherMove, peer)
    requires mover.game == peer.game && rules.legal(peer.game, from, to)
    requires peer.input == SerializePacket(Move(from, to)) + peerRest
    requires mover.input == SerializePacket(AckMove) + moverRest
    ensures var p := Step(rules, OtherMove, peer);
      p.result == Ok(MyMove) && p.after.output == peer.output + SerializePacket(AckMove) &&
      p.after.input == peerRest
    ensures var m := Step(rules, AwaitAck(from, to), mover);
      m.result == Ok(OtherMove) && m.after.output == mover.output + SerializePacket(Move(from, to)) &&
      m.after.input == moverRest
    ensures Step(rules, AwaitAck(from, to), mover).after.game == ApplyMove(mover.game, from, to)
    ensures Step(rules, OtherMove, peer).after.game == Step(rules, AwaitAck(from, to), mover).after.game
  {
    AwaitReplyPackets(from, to, moverRest);
    AwaitPeerMovePackets(rules, peer.game, from, to, peerRest);
  }

  /** With the source's stubs, MyMove takes the first two clicks as the move. */
  lemma SourceRulesTakeFirstClicks(g: GameView, highlight: Option<Pos>, clicks: seq<Pos>)
    requires |clicks| >= 2
    ensures PickMove(SourceRules, g, highlight, clicks) == Pick(Some((clicks[0], clicks[1])), None, clicks[2..])
  {
  }

  /**
   * With the source's stubs, OtherMove acknowledges any Move, even one whose
   * coordinates are off the board; `do_move` then indexes out of bounds.
   */
  lemma SourceRulesAckOffBoardMove(sv: SessionView, rest: seq<byte>)
    requires Ready(OtherMove, sv)
    requires sv.input == SerializePacket(Move(Pos(8, 0), Pos(0, 0))) + rest
    ensures Step(SourceRules, OtherMove, sv).result == Err(IndexOutOfBounds)
    ensures Step(SourceRules, OtherMove, sv).after.output == sv.output + SerializePacket(AckMove)
  {
    AwaitPeerMovePackets(SourceRules, sv.game, Pos(8, 0), Pos(0, 0), rest);
  }

  /** Rules that only accept on-board moves never lead OtherMove into the index panic. */
  lemma BoundedRulesNeverPanic(rules: Rules, sv: SessionView)
    requires Ready(OtherMove, sv)
    requires forall g, from, to :: rules.legal(g, from, to) ==> OnBoard(from) && OnBoard(to)
    ensures Step(rules, OtherMove, sv).result != Err(IndexOutOfBounds)
  {
  }

  // ---------------------------------------------------------------------------
  // The session object
  // ---------------------------------------------------------------------------

  /**
   * The state all three `next` implementations share (`GlobalState` without the
   * window and surface): the board, the stream as the input still to read and
   * the output written, and the clicks still to come.
   */
  class Session {
    const board: Board
    var input: seq<byte>
    var output: seq<byte>
    var clicks: seq<Pos>

    ghost predicate Valid()
      reads this
    {
      board.Valid() && ClicksOnBoard(clicks)
    }

    function View(): SessionView
      reads this, board, board.gameState, board.gameState.boardState
      requires board.Valid()
    {
      SessionView(board.gameState.View(), board.highlight, input, output, clicks)
    }

    constructor (board: Board, input: seq<byte>, clicks: seq<Pos>)
      requires board.Valid() && ClicksOnBoard(clicks)
      ensures Valid() && this.board == board
      ensures this.input == input && output == [] && this.clicks == clicks
    {
      this.board := board;
      this.input := input;
      this.output := [];
      this.clicks := clicks;
    }

    /** `MyMove::next`: click until a checked move is chosen, highlighting the first square of each try. */
    method NextMyMove(rules: Rules) returns (r: Result<ChessState, SessionError>)
      requires Valid()
      modifies this, board
      ensures Valid()
      ensures Transition(r, View()) == Step(rules, MyMove, old(View()))
    {
      var chosen := ChooseMove(rules, board.gameState.View());
      if chosen.Some? {
        r := Ok(AwaitAck(chosen.value.0, chosen.value.1));
      } else {
        r := Err(OutOfClicks);
      }
    }

    /** The click loop of `MyMove::next` on the game `g`, which `PickMove` specifies. */
    method ChooseMove(rules: Rules, g: GameView) returns (chosen: Option<(Pos, Pos)>)
      modifies this`clicks, board`highlight
      ensures Pick(chosen, board.highlight, clicks) == PickMove(rules, g, old(board.highlight), old(clicks))
    {
      ghost var pick := PickMove(rules, g, board.highlight, clicks);
      while true
        invariant PickMove(rules, g, board.highlight, clicks) == pick
        decreases |clicks|
      {
        if clicks == [] {
          return None;
        }
        var first := clicks[0];
        clicks := clicks[1..];
        if !rules.legalStart(g, first) {
          continue;
        }
        board.highlight := Some(first);
        if clicks == [] {
          return None;
        }
        var second := clicks[0];
        clicks := clicks[1..];
        board.highlight := None;
        if rules.legal(g, first, second) {
          return Some((first, second));
        }
      }
    }

    /** `AwaitAck::next`: send the move, then read until an Ack (apply the move) or a Rej (fatal). */
    method NextAwaitAck(rules: Rules, from: Pos, to: Pos) returns (r: Result<ChessState, SessionError>)
      requires Valid() && OnBoard(from) && OnBoard(to)
      modifies this, board.gameState.boardState
      ensures Valid()
      ensures Transition(r, View()) == Step(rules, AwaitAck(from, to), old(View()))
    {
      ghost var sv := View();
      output := output + SerializePacket(Move(from, to));
      var reply := ReadReply();
      ghost var after := sv.(input := input, output := output);
      assert View() == after;
      match reply {
        case Acked =>
          board.gameState.DoMove(from, to);
          assert View() == after.(game := ApplyMove(sv.game, from, to));
          r := Ok(OtherMove);
        case Rejected =>
          r := Err(MoveRejected);
        case ReplyFailed(e) =>
          r := Err(Protocol(e));
      }
    }

    /** The read loop of `AwaitAck::next`, which `AwaitReply` specifies. */
    method ReadReply() returns (reply: Reply)
      modifies this`input
      ensures ReplyWait(reply, input) == AwaitReply(old(input))
    {
      ghost var wait := AwaitReply(input);
      while true
        invariant AwaitReply(input) == wait
        decreases |input|
      {
        var d := DeserializePacket(input);
        DecodeProgress(input);
        input := d.rest;
        match d.result {
          case Err(e) =>
            return ReplyFailed(e);
          case Ok(p) =>
            match p {
              case AckMove =>
                return Acked;
              case RejMove =>
                return Rejected;
              case Move(_, _) =>
            }
        }
      }
    }

    /** `OtherMove::next`: read until a legal Move (Ack it, apply it); answer illegal ones with Rej. */
    method NextOtherMove(rules: Rules) returns (r: Result<ChessState, SessionError>)
      requires Valid()
      modifies this, board.gameState.boardState
      ensures Valid()
      ensures Transition(r, View()) == Step(rules, OtherMove, old(View()))
    {
      var outcome := ReadPeerMove(rules, board.gameState.View());
      match outcome {
        case PeerFailed(e) =>
          r := Err(Protocol(e));
        case PeerMoved(from, to) =>
          if !(OnBoard(from) && OnBoard(to)) {
            return Err(IndexOutOfBounds);
          }
          board.gameState.DoMove(from, to);
          r := Ok(MyMove);
      }
    }

    /**
     * The read loop of `OtherMove::next` up to and including the Ack of the
     * accepted move, which `AwaitPeerMove` specifies.
     */
    method ReadPeerMove(rules: Rules, g: GameView) returns (outcome: PeerOutcome)
      modifies this`input, this`output
      ensures var w := AwaitPeerMove(rules, g, old(input));
        outcome == w.outcome && input == w.rest && output == old(output) + w.written
    {
      ghost var wait := AwaitPeerMove(rules, g, input);
      while true
        invariant AwaitPeerMove(rules, g, input).outcome == wait.outcome
        invariant AwaitPeerMove(rules, g, input).rest == wait.rest
        invariant output + AwaitPeerMove(rules, g, input).written == old(output) + wait.written
        decreases |input|
      {
        var d := DeserializePacket(input);
        DecodeProgress(input);
        input := d.rest;
        match d.result {
          case Err(e) =>
            return PeerFailed(e);
          case Ok(p) =>
            match p {
              case Move(from, to) =>
                if rules.legal(g, from, to) {
                  output := output + SerializePacket(AckMove);
                  return PeerMoved(from, to);
                } else {
                  output := output + SerializePacket(RejMove);
                }
              case _ =>
            }
        }
      }
    }

    /** `ChessState::next`, dispatched on the current state. */
    method Next(rules: Rules, state: ChessState) returns (r: Result<ChessState, SessionError>)
      requires Valid() && Ready(state, View())
      modifies this, board, board.gameState.boardState
      ensures Valid()
      ensures Transition(r, View()) == Step(rules, state, old(View()))
    {
      match state {
        case MyMove =>
          r := NextMyMove(rules);
        case AwaitAck(from, to) =>
          r := NextAwaitAck(rules, from, to);
        case OtherMove =>
          r := NextOtherMove(rules);
      }
    }

    /** `run_server` / `run_client` after the connection is up: start in the role's state and step. */
    method Run(rules: Rules, role: Role, steps: nat) returns (r: Result<ChessState, SessionError>)
      requires Valid()
      modifies this, board, board.gameState.boardState
      ensures Valid()
      ensures Transition(r, View()) == RunSteps(rules, InitialState(role), old(View()), steps)
    {
      var state := InitialState(role);
      var k := 0;
      while k < steps
        invariant 0 <= k <= steps
        invariant Valid() && Ready(state, View())
        invariant RunSteps(rules, state, View(), steps - k) == RunSteps(rules, InitialState(role), old(View()), steps)
      {
        var next := Next(rules, state);
        if next.Err? {
          return next;
        }
        state := next.value;
        k := k + 1;
      }
      return Ok(state);
    }
  }
}

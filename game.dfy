/**
 * The page's turn logic: the human's move from a drag on the board or from
 * speech, the request for the engine's reply, and the handling of the
 * engine's `bestmove` line. The page keeps its state in globals (the rules
 * engine's game, the board widget, the status line, the speech output, the
 * engine worker and its message handler); here they are the fields of a
 * `Session`, and each event handler is a method. Each method is specified by
 * a step function on a `Page`, a snapshot of those fields.
 */
module Game {
  import opened Strings
  import opened VoiceParser
  import opened EngineProtocol

  /**
   * The rules engine, seen only through what the page asks of it: try a
   * move (from, to, promotion piece), serialise the position, and report
   * whether the game is over and whether by checkmate. Which moves are
   * legal is the engine's business.
   */
  datatype Rules<!S> = Rules(
    move: (S, string, string, char) -> Option<S>,
    fen: S -> string,
    gameOver: S -> bool,
    inCheckmate: S -> bool)

  /** Every move the page makes promotes a pawn to a queen. */
  const Promotion: char := 'q'

  /** Delay before asking for the reply to a move dragged on the board. */
  const DropDelay: nat := 250

  /** Delay before asking for the reply to a spoken move. */
  const MoveDelay: nat := 500

  /** The status line shown when a transcript holds no move. */
  function CouldNotParse(text: string): string {
    "Could not parse \"" + text + "\". Please say squares like 'E2 E4'."
  }

  /**
   * A snapshot of the page: the game, the position shown on the board, the
   * status line, everything spoken so far, every command sent to the engine,
   * the delays of the move requests scheduled and not yet run, and whether
   * the engine's messages are being handled.
   */
  datatype Page<S> = Page(
    game: S,
    board: string,
    status: string,
    spoken: seq<string>,
    sent: seq<string>,
    timers: seq<nat>,
    listening: bool)

  // ----- the steps -----

  /** A move dragged on the board: kept if legal, sent back if not. */
  function AfterDrop<S>(rules: Rules<S>, p: Page<S>, source: string, target: string): Page<S> {
    match rules.move(p.game, source, target, Promotion)
    case None => p
    case Some(g) => p.(game := g, board := rules.fen(g), timers := p.timers + [DropDelay])
  }

  /** A move given as two squares: applied and answered, or reported illegal. */
  function AfterMove<S>(rules: Rules<S>, p: Page<S>, from: string, to: string): Page<S> {
    match rules.move(p.game, from, to, Promotion)
    case None =>
      p.(status := "Illegal move: " + from + " to " + to,
         spoken := p.spoken + ["That is not a legal move."])
    case Some(g) =>
      p.(game := g, board := rules.fen(g), status := "AI is thinking...",
         timers := p.timers + [MoveDelay])
  }

  /** A transcript: played as a move if it reads as one, else a prompt to retry. */
  function AfterVoice<S>(rules: Rules<S>, p: Page<S>, text: string): Page<S> {
    match ParseVoice(text)
    case None => p.(status := CouldNotParse(text), spoken := p.spoken + ["Try again"])
    case Some(squares) => AfterMove(rules, p, squares.from, squares.to)
  }

  /**
   * The scheduled request for the engine's move: the result if the game is
   * over, otherwise the position and search commands, after which engine
   * messages are handled.
   */
  function AfterRequest<S>(rules: Rules<S>, p: Page<S>): Page<S> {
    if rules.gameOver(p.game) then
      var result := ResultText(rules.inCheckmate(p.game));
      p.(status := "Game Over: " + result, spoken := p.spoken + ["Game over. " + result])
    else
      p.(sent := p.sent + SearchCommands(rules.fen(p.game)), listening := true)
  }

  /**
   * A line from the engine: a `bestmove` line, once messages are handled,
   * is played (the rules engine's verdict on it is not looked at) and
   * announced; every other line changes nothing.
   */
  function AfterEngineLine<S>(rules: Rules<S>, p: Page<S>, line: string): Page<S> {
    if !p.listening then p
    else
      match ParseReply(line)
      case BestMove(from, to) =>
        var g := rules.move(p.game, from, to, Promotion).GetOr(p.game);
        p.(game := g, board := rules.fen(g), spoken := p.spoken + ["AI plays " + from + " to " + to],
           status := "Your turn!")
      case _ => p
  }

  /** The `i`-th scheduled request runs. */
  function AfterTimer<S>(rules: Rules<S>, p: Page<S>, i: nat): Page<S>
    requires i < |p.timers|
  {
    AfterRequest(rules, p.(timers := p.timers[..i] + p.timers[i + 1..]))
  }

  // ----- the page's invariant -----

  /**
   * The board shows the rules engine's position; the engine has received
   * whole requests only; and engine messages are handled exactly when a
   * request has been sent.
   */
  predicate Consistent<S>(rules: Rules<S>, p: Page<S>) {
    p.board == rules.fen(p.game) && WholeRequests(p.sent) && (p.listening <==> p.sent != [])
  }

  /** A request keeps the page consistent: it sends one whole request. */
  lemma RequestKeepsConsistent<S>(rules: Rules<S>, p: Page<S>)
    requires Consistent(rules, p)
    ensures Consistent(rules, AfterRequest(rules, p))
  {
    WholeRequestsAppend(p.sent, rules.fen(p.game));
  }

  /** So does a scheduled request when it runs. */
  lemma TimerKeepsConsistent<S>(rules: Rules<S>, p: Page<S>, i: nat)
    requires Consistent(rules, p) && i < |p.timers|
    ensures Consistent(rules, AfterTimer(rules, p, i))
  {
    RequestKeepsConsistent(rules, p.(timers := p.timers[..i] + p.timers[i + 1..]));
  }

  /** The human's moves keep the page consistent: the board follows the game. */
  lemma MovesKeepConsistent<S>(rules: Rules<S>, p: Page<S>, a: string, b: string)
    requires Consistent(rules, p)
    ensures Consistent(rules, AfterDrop(rules, p, a, b))
    ensures Consistent(rules, AfterMove(rules, p, a, b))
    ensures Consistent(rules, AfterVoice(rules, p, a))
  {
  }

  /** So does every engine line. */
  lemma EngineLineKeepsConsistent<S>(rules: Rules<S>, p: Page<S>, line: string)
    requires Consistent(rules, p)
    ensures Consistent(rules, AfterEngineLine(rules, p, line))
  {
  }

  // ----- what the steps promise -----

  /**
   * An illegal move changes neither the game nor the board, sends nothing
   * and schedules nothing; the player is told, on screen and aloud.
   */
  lemma IllegalMoveKeepsGame<S>(rules: Rules<S>, p: Page<S>, from: string, to: string)
    requires rules.move(p.game, from, to, Promotion).None?
    ensures var q := AfterMove(rules, p, from, to);
            q.game == p.game && q.board == p.board && q.sent == p.sent && q.timers == p.timers
            && q.listening == p.listening
            && q.status == "Illegal move: " + from + " to " + to
            && q.spoken == p.spoken + ["That is not a legal move."]
    ensures AfterDrop(rules, p, from, to) == p
  {
  }

  /**
   * A legal move is applied and shown at once, and exactly one request for
   * the engine's reply is scheduled; nothing goes to the engine until that
   * request runs.
   */
  lemma LegalMoveSchedulesReply<S>(rules: Rules<S>, p: Page<S>, from: string, to: string)
    requires rules.move(p.game, from, to, Promotion).Some?
    ensures var g := rules.move(p.game, from, to, Promotion).value;
            var q := AfterMove(rules, p, from, to);
            var d := AfterDrop(rules, p, from, to);
            q.game == g && q.board == rules.fen(g) && q.timers == p.timers + [MoveDelay]
            && q.sent == p.sent && q.spoken == p.spoken && q.status == "AI is thinking..."
            && d.game == g && d.board == rules.fen(g) && d.timers == p.timers + [DropDelay]
            && d.sent == p.sent && d.spoken == p.spoken && d.status == p.status
  {
  }

  /**
   * A transcript that does not read as a move changes nothing but the
   * status line, which quotes it, and the spoken prompt.
   */
  lemma UnreadableTranscript<S>(rules: Rules<S>, p: Page<S>, text: string)
    requires |Normalize(text)| < 4
    ensures AfterVoice(rules, p, text)
         == p.(status := CouldNotParse(text), spoken := p.spoken + ["Try again"])
  {
  }

  /**
   * A transcript with at least four coordinate characters left is played as
   * the move between its first two and its next two.
   */
  lemma ReadableTranscript<S>(rules: Rules<S>, p: Page<S>, text: string)
    requires |Normalize(text)| >= 4
    ensures var cleaned := Normalize(text);
            AfterVoice(rules, p, text) == AfterMove(rules, p, cleaned[0..2], cleaned[2..4])
  {
  }

  /**
   * Once the game is over, a request sends nothing to the engine and
   * reports the result: "Checkmate!" exactly when the game ended in
   * checkmate, "Draw!" otherwise.
   */
  lemma OverGameSendsNothing<S>(rules: Rules<S>, p: Page<S>)
    requires rules.gameOver(p.game)
    ensures var q := AfterRequest(rules, p);
            q.sent == p.sent && q.game == p.game && q.listening == p.listening
            && (q.status == "Game Over: Checkmate!" <==> rules.inCheckmate(p.game))
            && (q.status == "Game Over: Draw!" <==> !rules.inCheckmate(p.game))
  {
  }

  /**
   * While the game goes on, a request sends exactly two commands: the
   * current position, as the engine will read it, then a search to depth 12.
   */
  lemma RequestSendsPosition<S>(rules: Rules<S>, p: Page<S>)
    requires !rules.gameOver(p.game)
    ensures var q := AfterRequest(rules, p);
            |q.sent| == |p.sent| + 2 && q.sent[..|p.sent|] == p.sent
            && PositionFen(q.sent[|p.sent|]) == Some(rules.fen(p.game))
            && q.sent[|p.sent| + 1] == GoCommand
            && q.game == p.game && q.listening
  {
    var q := AfterRequest(rules, p);
    assert q.sent[|p.sent|..] == SearchCommands(rules.fen(p.game));
  }

  /**
   * Engine lines other than a readable `bestmove` line, and every line
   * before the first request, change nothing.
   */
  lemma OtherLinesIgnored<S>(rules: Rules<S>, p: Page<S>, line: string)
    requires !p.listening || !ParseReply(line).BestMove?
    ensures AfterEngineLine(rules, p, line) == p
  {
  }

  /**
   * The engine's move is played through the rules engine with a queen as
   * promotion piece, and announced as read, even when the rules engine
   * rejects it; handling never stops, so a reply to an older request is
   * played as readily as one to the latest.
   */
  lemma EngineMovePlayed<S>(rules: Rules<S>, p: Page<S>, from: string, to: string, promotion: string, tail: string)
    requires p.listening
    requires IsSquare(from) && IsSquare(to)
    requires |promotion| <= 1 && ' ' !in promotion
    requires tail == [] || tail[0] == ' '
    ensures var q := AfterEngineLine(rules, p, BestMoveMarker + " " + (from + to + promotion) + tail);
            q.game == rules.move(p.game, from, to, Promotion).GetOr(p.game)
            && q.board == rules.fen(q.game) && q.listening && q.sent == p.sent
            && q.spoken == p.spoken + ["AI plays " + from + " to " + to]
            && q.status == "Your turn!"
  {
    BestMoveRoundTrip(from, to, promotion, tail);
  }

  // ----- the page -----

  /** The page's state and event handlers. */
  class Session<S> {
    const rules: Rules<S>
    var game: S
    var board: string
    var status: string
    var spoken: seq<string>
    var sent: seq<string>
    var timers: seq<nat>
    var listening: bool

    function Snapshot(): Page<S>
      reads this
    {
      Page(game, board, status, spoken, sent, timers, listening)
    }

    predicate Valid()
      reads this
    {
      Consistent(rules, Snapshot())
    }

    /**
     * A new game in the starting position, shown on the board; nothing
     * said, sent or scheduled, and no engine handler yet.
     */
    constructor (rules: Rules<S>, start: S)
      ensures Valid() && this.rules == rules
      ensures Snapshot() == Page(start, rules.fen(start), "", [], [], [], false)
    {
      this.rules := rules;
      game := start;
      board := rules.fen(start);
      status := "";
      spoken := [];
      sent := [];
      timers := [];
      listening := false;
    }

    /** The board's drop handler; returns whether the piece snaps back. */
    method OnDrop(source: string, target: string) returns (snapback: bool)
      requires Valid()
      modifies this
      ensures Valid()
      ensures snapback <==> rules.move(old(game), source, target, Promotion).None?
      ensures Snapshot() == AfterDrop(rules, old(Snapshot()), source, target)
    {
      var m := rules.move(game, source, target, Promotion);
      if m.None? {
        return true;
      }
      game := m.value;
      board := rules.fen(game);
      timers := timers + [DropDelay];
      snapback := false;
    }

    /** Plays the human's move given as two squares. */
    method HandleMove(from: string, to: string)
      requires Valid()
      modifies this
      ensures Valid()
      ensures Snapshot() == AfterMove(rules, old(Snapshot()), from, to)
    {
      var m := rules.move(game, from, to, Promotion);
      if m.None? {
        status := "Illegal move: " + from + " to " + to;
        spoken := spoken + ["That is not a legal move."];
      } else {
        game := m.value;
        board := rules.fen(game);
        status := "AI is thinking...";
        timers := timers + [MoveDelay];
      }
    }

    /** Reads a transcript as a move and plays it, or asks to try again. */
    method ParseVoiceMove(text: string)
      requires Valid()
      modifies this
      ensures Valid()
      ensures Snapshot() == AfterVoice(rules, old(Snapshot()), text)
    {
      var cleaned := CleanTranscript(text);
      if |cleaned| >= 4 {
        HandleMove(cleaned[0..2], cleaned[2..4]);
      } else {
        status := CouldNotParse(text);
        spoken := spoken + ["Try again"];
      }
    }

    /**
     * Asks the engine for its move, or reports the result if the game is
     * over; from then on the engine's messages are handled.
     */
    method MakeBestMove()
      requires Valid()
      modifies this
      ensures Valid()
      ensures Snapshot() == AfterRequest(rules, old(Snapshot()))
    {
      if rules.gameOver(game) {
        var result := ResultText(rules.inCheckmate(game));
        status := "Game Over: " + result;
        spoken := spoken + ["Game over. " + result];
        return;
      }
      WholeRequestsAppend(sent, rules.fen(game));
      sent := sent + SearchCommands(rules.fen(game));
      listening := true;
    }

    /** The `i`-th scheduled move request fires. */
    method RunTimer(i: nat)
      requires Valid() && i < |timers|
      modifies this
      ensures Valid()
      ensures Snapshot() == AfterTimer(rules, old(Snapshot()), i)
    {
      timers := timers[..i] + timers[i + 1..];
      MakeBestMove();
    }

    /** The engine worker's message handler, once installed. */
    method OnEngineMessage(line: string)
      requires Valid()
      modifies this
      ensures Valid()
      ensures Snapshot() == AfterEngineLine(rules, old(Snapshot()), line)
    {
      if !listening {
        return;
      }
      var reply := ParseReply(line);
      if reply.BestMove? {
        game := rules.move(game, reply.from, reply.to, Promotion).GetOr(game);
        board := rules.fen(game);
        spoken := spoken + ["AI plays " + reply.from + " to " + reply.to];
        status := "Your turn!";
      }
    }
  }
}

/**
 * The text protocol between the page and the search engine (a UCI engine
 * running in a worker): the two commands sent to request a move, and the
 * reading of the engine's `bestmove` line.
 */
module EngineProtocol {
  import opened Strings
  import opened VoiceParser

  /** Start of the command that sets the engine's position. */
  const PositionPrefix: string := "position fen "

  /** The command that starts a search, always to depth 12. */
  const GoCommand: string := "go depth 12"

  /** Start of the line with which the engine reports its move. */
  const BestMoveMarker: string := "bestmove"

  /** The position command for a position serialised as `fen`. */
  function PositionCommand(fen: string): string {
    PositionPrefix + fen
  }

  /**
   * How the engine reads a position command: the position after the
   * prefix, or nothing for any other command.
   */
  function PositionFen(cmd: string): (r: Option<string>)
    ensures r.Some? <==> PositionPrefix <= cmd
    ensures r.Some? ==> PositionCommand(r.value) == cmd
  {
    if PositionPrefix <= cmd then Some(cmd[|PositionPrefix|..]) else None
  }

  /** The commands sent, in order, to ask for a move in the position `fen`. */
  function SearchCommands(fen: string): (cmds: seq<string>)
    ensures |cmds| == 2
    ensures PositionFen(cmds[0]) == Some(fen)
    ensures cmds[1] == GoCommand && PositionFen(GoCommand) == None
  {
    assert PositionCommand(fen)[..|PositionPrefix|] == PositionPrefix;
    assert PositionCommand(fen)[|PositionPrefix|..] == fen;
    [PositionCommand(fen), GoCommand]
  }

  /**
   * A command log made of whole requests: each position command that the
   * engine can read is followed by a search command.
   */
  predicate WholeRequests(cmds: seq<string>) {
    if cmds == [] then true
    else |cmds| >= 2 && PositionFen(cmds[0]).Some? && cmds[1] == GoCommand
         && WholeRequests(cmds[2..])
  }

  /** Appending a request to a log of whole requests keeps it whole. */
  lemma {:induction false} WholeRequestsAppend(cmds: seq<string>, fen: string)
    requires WholeRequests(cmds)
    ensures WholeRequests(cmds + SearchCommands(fen))
    decreases |cmds|
  {
    var req := SearchCommands(fen);
    if cmds == [] {
      assert cmds + req == req;
      assert req[2..] == [];
    } else {
      WholeRequestsAppend(cmds[2..], fen);
      assert (cmds + req)[2..] == cmds[2..] + req;
    }
  }

  /** The text of the game result: checkmate, or any other end of the game. */
  function ResultText(checkmate: bool): string {
    if checkmate then "Checkmate!" else "Draw!"
  }

  /** What an engine line means to the page. */
  datatype Reply =
    | Ignored                           // not a `bestmove` line
    | Unparsable                        // `bestmove` without a move field: the handler throws
    | BestMove(from: string, to: string)

  /**
   * Reads one engine line: a line starting with "bestmove" carries the move
   * in its second space-separated field, whose first two characters are the
   * source square and next two the target; anything after them (the
   * promotion letter) is dropped. A short field gives short squares, as
   * `substring` does.
   */
  function ParseReply(line: string): (r: Reply)
    ensures r.Ignored? <==> !(BestMoveMarker <= line)
    ensures r.Unparsable? <==> BestMoveMarker <= line && ' ' !in line
    ensures r.BestMove? ==> |r.from| <= 2 && |r.to| <= 2
  {
    if !(BestMoveMarker <= line) then Ignored
    else
      var fields := Split(line);
      SplitSeveral(line);
      if |fields| < 2 then Unparsable
      else BestMove(Substring(fields[1], 0, 2), Substring(fields[1], 2, 4))
  }

  /**
   * A `bestmove` line is read through its second field alone: whatever
   * space-free token follows the marker, the squares are its characters
   * 0-2 and 2-4, clamped as `substring` clamps them, and any further
   * fields are ignored.
   */
  lemma ParseReplyField(tok: string, tail: string)
    requires ' ' !in tok
    requires tail == [] || tail[0] == ' '
    ensures ParseReply(BestMoveMarker + " " + tok + tail)
         == BestMove(Substring(tok, 0, 2), Substring(tok, 2, 4))
  {
    var line := BestMoveMarker + " " + tok + tail;
    assert line == BestMoveMarker + " " + (tok + tail);
    SplitField(BestMoveMarker, tok + tail);
    SplitPrefix(tok, tail);
    if tail != [] {
      assert tail == " " + tail[1..];
      SplitField("", tail[1..]);
      assert "" + " " + tail[1..] == tail;
    }
    assert Split(tail)[0] == "";
    assert tok + "" == tok;
    assert Split(line)[1] == tok;
    assert BestMoveMarker <= line;
  }

  /**
   * The line the engine prints for a move is read back as that move, with
   * or without a promotion letter and whatever follows the move field
   * (such as "ponder e7e5").
   */
  lemma BestMoveRoundTrip(from: string, to: string, promotion: string, tail: string)
    requires IsSquare(from) && IsSquare(to)
    requires |promotion| <= 1 && ' ' !in promotion
    requires tail == [] || tail[0] == ' '
    ensures ParseReply(BestMoveMarker + " " + (from + to + promotion) + tail) == BestMove(from, to)
  {
    var move := from + to + promotion;
    assert ' ' !in move by {
      forall k | 0 <= k < |move|
        ensures move[k] != ' '
      {
        if k >= 4 {
          assert move[k] == promotion[k - 4] && promotion[k - 4] in promotion;
        }
      }
    }
    ParseReplyField(move, tail);
    assert Substring(move, 0, 2) == move[0..2] == from;
    assert Substring(move, 2, 4) == move[2..4] == to;
  }
}

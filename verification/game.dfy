/**
 * The turn protocol of one game, and of a match of several games, as
 * functions of the input text, the server's responses and the agents'
 * outputs.  The class in client.dfy runs the same protocol step by step and
 * is proved to produce exactly what these functions describe.
 *
 * The server is a queue of response bodies, one per request in the order the
 * requests are made; an empty queue means the request failed in transport.
 */
module Game {
  import opened Wrappers
  import opened Strconv
  import opened Streams
  import opened Protocol

  /** How a game ends: `PlayGame` returns true or false, or the process stops with `log.Fatalf`. */
  datatype Outcome = Won | Lost | Fatal(failure: Failure)

  /** Everything one game does, as seen from outside. */
  datatype Run = Run(
    outcome: Outcome,
    lines: seq<string>,      // the lines ReadIn returned, in order
    moves: seq<Move>,        // the moves sent to be revealed, in order
    printed: seq<string>,    // the lines PrintOut wrote, in order
    requests: seq<Request>,  // the requests sent to the server, in order
    gameID: Option<string>,  // the id NewGame stored, if the game was created
    input: string,           // the input left unread
    server: seq<string>)     // the responses the server has not sent yet

  /** `t` preceded by what happened before it. */
  function Then(lines: seq<string>, moves: seq<Move>, printed: seq<string>, requests: seq<Request>,
                gameID: Option<string>, t: Run): (r: Run)
  {
    Run(t.outcome, lines + t.lines, moves + t.moves, printed + t.printed, requests + t.requests,
        gameID, t.input, t.server)
  }

  /** The empty line read at end of input is not a move, so a move read always consumes input. */
  lemma MoveConsumesInput(input: string)
    requires ParseTarget(ReadLine(input).0).Ok?
    ensures |ReadLine(input).1| < |input|
  {
    ParseTargetRejectExamples();
  }

  /**
   * The loop of `PlayGame` from the reveal of `m` on: open the cell, print
   * the reply, stop unless it is a count, otherwise read the next move.
   */
  function Reveal(cfg: Config, id: string, m: Move, input: string, server: seq<string>): (r: Run)
    decreases |input|
  {
    var open := OpenRequest(cfg, id, m);
    if server == [] then Run(Fatal(Transport), [], [m], [], [open], None, input, server)
    else
      var reply := server[0];
      match Classify(reply)
      case Win => Run(Won, [], [m], [reply], [open], None, input, server[1..])
      case Loss => Run(Lost, [], [m], [reply], [open], None, input, server[1..])
      case Continue(_) =>
        var (line, rest) := ReadLine(input);
        match ParseTarget(line)
        case Err(e) => Run(Fatal(e), [line], [m], [reply], [open], None, rest, server[1..])
        case Ok(next) =>
          MoveConsumesInput(input);
          Then([line], [m], [reply], [open], None, Reveal(cfg, id, next, rest, server[1..]))
  }

  /**
   * `PlayGame`: print the board parameters, read the first move, create the
   * game, then reveal until the game is over.
   */
  function Play(cfg: Config, input: string, server: seq<string>): (r: Run) {
    var info := InfoRequest(cfg);
    if server == [] then Run(Fatal(Transport), [], [], [], [info], None, input, server)
    else
      var blob := server[0];
      var (line, rest) := ReadLine(input);
      match ParseTarget(line)
      case Err(e) => Run(Fatal(e), [line], [], [blob], [info], None, rest, server[1..])
      case Ok(m) =>
        if |server| == 1 then Run(Fatal(Transport), [line], [], [blob], [info, NewGameRequest(cfg)], None, rest, [])
        else
          var id := server[1];
          Then([line], [], [blob], [info, NewGameRequest(cfg)], Some(id), Reveal(cfg, id, m, rest, server[2..]))
  }

  /** `lines` are what successive ReadIn calls return on `input`, leaving `rest`. */
  predicate Reads(input: string, lines: seq<string>, rest: string)
    decreases |lines|
  {
    if lines == [] then rest == input
    else ReadLine(input).0 == lines[0] && Reads(ReadLine(input).1, lines[1..], rest)
  }

  /** Concatenation regroups freely (stated once, so that proofs need not rediscover it). */
  lemma Assoc<T>(a: seq<T>, b: seq<T>, c: seq<T>)
    ensures a + (b + c) == (a + b) + c
  {
  }

  /** The text of the lines, one after the other. */
  function Flatten(lines: seq<string>): (text: string) {
    if lines == [] then [] else lines[0] + Flatten(lines[1..])
  }

  /** Reading consumes the input front to back: the lines read, then what is left, give back the input. */
  lemma {:induction false} ReadsConsume(input: string, lines: seq<string>, rest: string)
    requires Reads(input, lines, rest)
    ensures Flatten(lines) + rest == input
    decreases |lines|
  {
    if lines != [] {
      ReadsConsume(ReadLine(input).1, lines[1..], rest);
    }
  }

  function OpenRequests(cfg: Config, id: string, moves: seq<Move>): (rs: seq<Request>)
    ensures |rs| == |moves|
    ensures forall i :: 0 <= i < |moves| ==> rs[i] == OpenRequest(cfg, id, moves[i])
  {
    if moves == [] then [] else [OpenRequest(cfg, id, moves[0])] + OpenRequests(cfg, id, moves[1..])
  }

  /** Whether a reply means the game goes on. */
  predicate Continues(reply: string) {
    Classify(reply).Continue?
  }

  /** One continuing step of the reveal loop, unfolded. */
  lemma RevealStep(cfg: Config, id: string, m: Move, input: string, server: seq<string>)
    requires server != [] && Continues(server[0])
    requires ParseTarget(ReadLine(input).0).Ok?
    ensures |ReadLine(input).1| < |input|
    ensures Reveal(cfg, id, m, input, server) ==
      Then([ReadLine(input).0], [m], [server[0]], [OpenRequest(cfg, id, m)], None,
           Reveal(cfg, id, ParseTarget(ReadLine(input).0).value, ReadLine(input).1, server[1..]))
  {
    MoveConsumesInput(input);
  }

  /** The reveal loop when it stops at once: a failed request, a final reply or a rejected line. */
  lemma RevealStop(cfg: Config, id: string, m: Move, input: string, server: seq<string>)
    requires !(server != [] && Continues(server[0]) && ParseTarget(ReadLine(input).0).Ok?)
    ensures var r := Reveal(cfg, id, m, input, server);
      && r.moves == [m] && r.requests == [OpenRequest(cfg, id, m)] && r.gameID == None
      && (server == [] ==> r.outcome == Fatal(Transport) && r.lines == [] && r.printed == [] && r.input == input && r.server == server)
      && (server != [] && !Continues(server[0]) ==>
            r.outcome == (if Classify(server[0]).Win? then Won else Lost) && r.lines == [] && r.printed == [server[0]]
            && r.input == input && r.server == server[1..])
      && (server != [] && Continues(server[0]) ==>
            r.outcome == Fatal(ParseTarget(ReadLine(input).0).error) && r.lines == [ReadLine(input).0]
            && r.printed == [server[0]] && r.input == ReadLine(input).1 && r.server == server[1..])
  {
  }

  /** The reveal loop sends one reveal per move, the first for `m`, and creates no game. */
  lemma {:induction false} RevealRequests(cfg: Config, id: string, m: Move, input: string, server: seq<string>)
    ensures var r := Reveal(cfg, id, m, input, server);
      && |r.moves| >= 1 && r.moves[0] == m
      && r.requests == OpenRequests(cfg, id, r.moves)
      && r.gameID == None
    decreases |input|
  {
    if server != [] && Continues(server[0]) && ParseTarget(ReadLine(input).0).Ok? {
      var rest := ReadLine(input).1;
      var next := ParseTarget(ReadLine(input).0).value;
      RevealStep(cfg, id, m, input, server);
      var t := Reveal(cfg, id, next, rest, server[1..]);
      RevealRequests(cfg, id, next, rest, server[1..]);
      assert Reveal(cfg, id, m, input, server).moves == [m] + t.moves;
    }
  }

  /** The lines of a reveal loop are read one after the other from its input. */
  lemma {:induction false} RevealReads(cfg: Config, id: string, m: Move, input: string, server: seq<string>)
    ensures var r := Reveal(cfg, id, m, input, server);
      Reads(input, r.lines, r.input)
    decreases |input|
  {
    if server != [] && Continues(server[0]) && ParseTarget(ReadLine(input).0).Ok? {
      var rest := ReadLine(input).1;
      var next := ParseTarget(ReadLine(input).0).value;
      RevealStep(cfg, id, m, input, server);
      var t := Reveal(cfg, id, next, rest, server[1..]);
      RevealReads(cfg, id, next, rest, server[1..]);
      assert Reveal(cfg, id, m, input, server).lines[1..] == t.lines;
    }
  }

  /** One line is read per move after the first, and one more if it was rejected. */
  lemma {:induction false} RevealLineCount(cfg: Config, id: string, m: Move, input: string, server: seq<string>)
    ensures var r := Reveal(cfg, id, m, input, server);
      if r.outcome.Fatal? && r.outcome != Fatal(Transport) then |r.lines| == |r.moves| else |r.lines| == |r.moves| - 1
    decreases |input|
  {
    if server != [] && Continues(server[0]) && ParseTarget(ReadLine(input).0).Ok? {
      var rest := ReadLine(input).1;
      var next := ParseTarget(ReadLine(input).0).value;
      RevealStep(cfg, id, m, input, server);
      var r := Reveal(cfg, id, m, input, server);
      var t := Reveal(cfg, id, next, rest, server[1..]);
      RevealLineCount(cfg, id, next, rest, server[1..]);
      assert |r.moves| == 1 + |t.moves| && |r.lines| == 1 + |t.lines| && r.outcome == t.outcome;
    } else {
      RevealStop(cfg, id, m, input, server);
    }
  }

  /**
   * Each of `moves` is what the parser makes of the line in the same place of
   * `lines`: the first line gives the first move, and so on.
   */
  predicate ParsedInto(lines: seq<string>, moves: seq<Move>)
    decreases |moves|
  {
    |moves| <= |lines| && (moves != [] ==> ParseTarget(lines[0]) == Ok(moves[0]) && ParsedInto(lines[1..], moves[1..]))
  }

  /** Every line read before the last move is parsed into the move that follows it. */
  lemma {:induction false} RevealLines(cfg: Config, id: string, m: Move, input: string, server: seq<string>)
    ensures var r := Reveal(cfg, id, m, input, server);
      r.moves != [] && ParsedInto(r.lines, r.moves[1..])
    decreases |input|
  {
    if server != [] && Continues(server[0]) && ParseTarget(ReadLine(input).0).Ok? {
      var line := ReadLine(input).0;
      var rest := ReadLine(input).1;
      var next := ParseTarget(line).value;
      RevealStep(cfg, id, m, input, server);
      var r := Reveal(cfg, id, m, input, server);
      var t := Reveal(cfg, id, next, rest, server[1..]);
      RevealLines(cfg, id, next, rest, server[1..]);
      RevealRequests(cfg, id, next, rest, server[1..]);
      assert r.moves[1..] == t.moves && r.lines[1..] == t.lines && r.lines[0] == line;
    } else {
      RevealStop(cfg, id, m, input, server);
    }
  }

  /** A game stopped by a bad line stops at the last line read, with the parser's verdict on it. */
  lemma {:induction false} RevealRejected(cfg: Config, id: string, m: Move, input: string, server: seq<string>)
    ensures var r := Reveal(cfg, id, m, input, server);
      r.outcome.Fatal? && r.outcome != Fatal(Transport) ==> r.lines != [] && ParseTarget(r.lines[|r.lines| - 1]) == Err(r.outcome.failure)
    decreases |input|
  {
    if server != [] && Continues(server[0]) && ParseTarget(ReadLine(input).0).Ok? {
      var line := ReadLine(input).0;
      var rest := ReadLine(input).1;
      var next := ParseTarget(line).value;
      RevealStep(cfg, id, m, input, server);
      var r := Reveal(cfg, id, m, input, server);
      var t := Reveal(cfg, id, next, rest, server[1..]);
      RevealRejected(cfg, id, next, rest, server[1..]);
      assert r.lines == [line] + t.lines && r.outcome == t.outcome;
      if t.outcome.Fatal? && t.outcome != Fatal(Transport) {
        assert r.lines[|r.lines| - 1] == t.lines[|t.lines| - 1];
      }
    } else {
      RevealStop(cfg, id, m, input, server);
    }
  }

  /** The reveal loop prints the replies exactly as the server sent them, in order, and consumes them. */
  lemma {:induction false} RevealPrinted(cfg: Config, id: string, m: Move, input: string, server: seq<string>)
    ensures var r := Reveal(cfg, id, m, input, server);
      r.printed + r.server == server
    decreases |input|
  {
    if server != [] {
      assert server == [server[0]] + server[1..];
    }
    if server != [] && Continues(server[0]) && ParseTarget(ReadLine(input).0).Ok? {
      var rest := ReadLine(input).1;
      var next := ParseTarget(ReadLine(input).0).value;
      RevealStep(cfg, id, m, input, server);
      var r := Reveal(cfg, id, m, input, server);
      var t := Reveal(cfg, id, next, rest, server[1..]);
      RevealPrinted(cfg, id, next, rest, server[1..]);
      assert r.printed == [server[0]] + t.printed && r.server == t.server;
      Assoc([server[0]], t.printed, t.server);
    } else {
      RevealStop(cfg, id, m, input, server);
    }
  }

  /** One reply is printed per reveal, except for a reveal that failed in transport. */
  lemma {:induction false} RevealPrintedCount(cfg: Config, id: string, m: Move, input: string, server: seq<string>)
    ensures var r := Reveal(cfg, id, m, input, server);
      if r.outcome == Fatal(Transport) then |r.printed| == |r.moves| - 1 else |r.printed| == |r.moves|
    decreases |input|
  {
    if server != [] && Continues(server[0]) && ParseTarget(ReadLine(input).0).Ok? {
      var rest := ReadLine(input).1;
      var next := ParseTarget(ReadLine(input).0).value;
      RevealStep(cfg, id, m, input, server);
      var r := Reveal(cfg, id, m, input, server);
      var t := Reveal(cfg, id, next, rest, server[1..]);
      RevealPrintedCount(cfg, id, next, rest, server[1..]);
      assert |r.printed| == 1 + |t.printed| && |r.moves| == 1 + |t.moves| && r.outcome == t.outcome;
    } else {
      RevealStop(cfg, id, m, input, server);
    }
  }

  /**
   * The replies a stretch of play printed, read against how it ended: every
   * reply but the last is a count; a game stopped by a bad line stopped after
   * a count; a finished game finished on a reply that is not a count, and was
   * won exactly when that reply is "win".
   */
  predicate EndsOnReply(r: Run) {
    && (forall i :: 0 <= i < |r.printed| - 1 ==> Continues(r.printed[i]))
    && (r.outcome.Fatal? && r.outcome != Fatal(Transport) ==> r.printed != [] && Continues(r.printed[|r.printed| - 1]))
    && (r.outcome == Won || r.outcome == Lost ==>
          r.printed != [] && !Continues(r.printed[|r.printed| - 1]) && (r.outcome == Won <==> r.printed[|r.printed| - 1] == "win"))
  }

  /** The reveal loop goes on exactly while the replies are counts. */
  lemma {:induction false} RevealReplies(cfg: Config, id: string, m: Move, input: string, server: seq<string>)
    ensures EndsOnReply(Reveal(cfg, id, m, input, server))
    decreases |input|
  {
    if server != [] && Continues(server[0]) && ParseTarget(ReadLine(input).0).Ok? {
      var rest := ReadLine(input).1;
      var next := ParseTarget(ReadLine(input).0).value;
      RevealStep(cfg, id, m, input, server);
      RevealReplies(cfg, id, next, rest, server[1..]);
      ThenReplies(ReadLine(input).0, m, server[0], OpenRequest(cfg, id, m), Reveal(cfg, id, next, rest, server[1..]));
    } else {
      RevealStop(cfg, id, m, input, server);
      if server != [] {
        ClassifySpec(server[0]);
      }
    }
  }

  /** A count in front of a stretch that ends on its reply keeps it ending on its reply. */
  lemma ThenReplies(line: string, m: Move, reply: string, open: Request, t: Run)
    requires Continues(reply) && EndsOnReply(t)
    ensures EndsOnReply(Then([line], [m], [reply], [open], None, t))
  {
    var r := Then([line], [m], [reply], [open], None, t);
    assert r.printed == [reply] + t.printed && r.outcome == t.outcome;
    forall i | 0 <= i < |r.printed| - 1 ensures Continues(r.printed[i]) {
      if i > 0 {
        assert r.printed[i] == t.printed[i - 1];
      }
    }
    if t.printed != [] {
      assert r.printed[|r.printed| - 1] == t.printed[|t.printed| - 1];
    }
  }

  /** Whether the game gets created: the info request succeeded and the first line is a move. */
  predicate Creates(input: string, server: seq<string>) {
    server != [] && ParseTarget(ReadLine(input).0).Ok?
  }

  /** `PlayGame` up to the first reveal, unfolded, when the game is created. */
  lemma PlayStart(cfg: Config, input: string, server: seq<string>)
    requires Creates(input, server) && |server| >= 2
    ensures Play(cfg, input, server) ==
      Then([ReadLine(input).0], [], [server[0]], [InfoRequest(cfg), NewGameRequest(cfg)], Some(server[1]),
           Reveal(cfg, server[1], ParseTarget(ReadLine(input).0).value, ReadLine(input).1, server[2..]))
  {
  }

  /** `PlayGame` when it stops before the first reveal. */
  lemma PlayStop(cfg: Config, input: string, server: seq<string>)
    requires !(Creates(input, server) && |server| >= 2)
    ensures var r := Play(cfg, input, server);
      && r.outcome.Fatal? && r.moves == [] && r.gameID == None
      && (server == [] ==>
            r.outcome == Fatal(Transport) && r.lines == [] && r.printed == []
            && r.requests == [InfoRequest(cfg)] && r.input == input && r.server == server)
      && (server != [] ==>
            r.lines == [ReadLine(input).0] && r.printed == [server[0]]
            && r.input == ReadLine(input).1 && r.server == server[1..])
      && (server != [] && !Creates(input, server) ==>
            r.outcome == Fatal(ParseTarget(ReadLine(input).0).error) && r.requests == [InfoRequest(cfg)])
      && (Creates(input, server) ==> r.outcome == Fatal(Transport) && r.requests == [InfoRequest(cfg), NewGameRequest(cfg)])
  {
  }

  /**
   * The requests of a game: the info request first; then the game is
   * created exactly when the first line is a move, and a game that was not
   * created reveals nothing.
   */
  lemma PlayCreates(cfg: Config, input: string, server: seq<string>)
    ensures var r := Play(cfg, input, server);
      && r.requests != [] && r.requests[0] == InfoRequest(cfg)
      && (|r.requests| >= 2 && r.requests[1] == NewGameRequest(cfg) <==> Creates(input, server))
      && (r.gameID.Some? <==> Creates(input, server) && |server| >= 2)
      && (r.gameID.None? ==> r.moves == [] && |r.requests| <= 2)
  {
    if Creates(input, server) && |server| >= 2 {
      PlayStart(cfg, input, server);
      var m := ParseTarget(ReadLine(input).0).value;
      var r := Play(cfg, input, server);
      var t := Reveal(cfg, server[1], m, ReadLine(input).1, server[2..]);
      assert r.requests == [InfoRequest(cfg), NewGameRequest(cfg)] + t.requests;
      assert r.requests[0] == InfoRequest(cfg) && r.requests[1] == NewGameRequest(cfg);
      assert r.gameID == Some(server[1]);
    } else {
      PlayStop(cfg, input, server);
    }
  }

  /**
   * After the creation come the reveals of the moves, in order, under the id
   * the server gave, starting with the first line's move.
   */
  lemma PlayRequests(cfg: Config, input: string, server: seq<string>)
    ensures var r := Play(cfg, input, server);
      r.gameID.Some? ==>
        && |server| >= 2 && r.gameID == Some(server[1])
        && r.requests == [InfoRequest(cfg), NewGameRequest(cfg)] + OpenRequests(cfg, server[1], r.moves)
        && r.moves != [] && Ok(r.moves[0]) == ParseTarget(ReadLine(input).0)
  {
    if Creates(input, server) && |server| >= 2 {
      PlayStart(cfg, input, server);
      var m := ParseTarget(ReadLine(input).0).value;
      var r := Play(cfg, input, server);
      var t := Reveal(cfg, server[1], m, ReadLine(input).1, server[2..]);
      RevealRequests(cfg, server[1], m, ReadLine(input).1, server[2..]);
      assert r.requests == [InfoRequest(cfg), NewGameRequest(cfg)] + t.requests;
      assert r.moves == t.moves && r.gameID == Some(server[1]);
    } else {
      PlayStop(cfg, input, server);
    }
  }

  /** `NewGame` is called at most once per game: no other request of the game is a creation. */
  lemma PlayCreatesOnce(cfg: Config, input: string, server: seq<string>)
    ensures var r := Play(cfg, input, server);
      forall i :: 0 <= i < |r.requests| && r.requests[i] == NewGameRequest(cfg) ==> i == 1
  {
    var r := Play(cfg, input, server);
    PlayCreates(cfg, input, server);
    PlayRequests(cfg, input, server);
    if r.gameID.Some? {
      var id := server[1];
      forall i | 0 <= i < |r.requests| && r.requests[i] == NewGameRequest(cfg) ensures i == 1 {
        if i >= 2 {
          assert r.requests[i] == OpenRequests(cfg, id, r.moves)[i - 2];
          OpenIsNotNew(cfg, id, r.moves[i - 2]);
        }
      }
    }
  }

  /**
   * The lines of a game are read one after the other from its input, and
   * each move revealed is what the parser made of the line in the same place.
   */
  lemma PlayLines(cfg: Config, input: string, server: seq<string>)
    ensures var r := Play(cfg, input, server);
      Reads(input, r.lines, r.input) && ParsedInto(r.lines, r.moves)
  {
    if Creates(input, server) && |server| >= 2 {
      PlayStart(cfg, input, server);
      var line := ReadLine(input).0;
      var m := ParseTarget(line).value;
      var r := Play(cfg, input, server);
      var t := Reveal(cfg, server[1], m, ReadLine(input).1, server[2..]);
      RevealReads(cfg, server[1], m, ReadLine(input).1, server[2..]);
      RevealLines(cfg, server[1], m, ReadLine(input).1, server[2..]);
      RevealRequests(cfg, server[1], m, ReadLine(input).1, server[2..]);
      assert r.lines == [line] + t.lines && r.moves == t.moves;
      assert ParsedInto(t.lines, t.moves[1..]);
      assert ParseTarget(r.lines[0]) == Ok(r.moves[0]);
      assert r.lines[1..] == t.lines;
    } else {
      PlayStop(cfg, input, server);
    }
  }

  /**
   * A finished game read exactly one line per reveal; a game stopped by a
   * bad line read one more, and that line is the one the parser rejected.
   */
  lemma PlayLineCount(cfg: Config, input: string, server: seq<string>)
    ensures var r := Play(cfg, input, server);
      && (r.outcome == Won || r.outcome == Lost ==> |r.lines| == |r.moves|)
      && (r.outcome.Fatal? && r.outcome != Fatal(Transport) ==>
            |r.lines| == |r.moves| + 1 && ParseTarget(r.lines[|r.lines| - 1]) == Err(r.outcome.failure))
  {
    if Creates(input, server) && |server| >= 2 {
      PlayStart(cfg, input, server);
      var m := ParseTarget(ReadLine(input).0).value;
      var t := Reveal(cfg, server[1], m, ReadLine(input).1, server[2..]);
      RevealLineCount(cfg, server[1], m, ReadLine(input).1, server[2..]);
      RevealRejected(cfg, server[1], m, ReadLine(input).1, server[2..]);
      ThenLineCount(ReadLine(input).0, server[0], [InfoRequest(cfg), NewGameRequest(cfg)], Some(server[1]), t);
    } else {
      PlayStop(cfg, input, server);
    }
  }

  /** The first line read, put in front of a reveal loop, turns its line count into the game's. */
  lemma ThenLineCount(line: string, blob: string, requests: seq<Request>, id: Option<string>, t: Run)
    requires if t.outcome.Fatal? && t.outcome != Fatal(Transport) then |t.lines| == |t.moves| else |t.lines| == |t.moves| - 1
    requires t.outcome.Fatal? && t.outcome != Fatal(Transport) ==>
      t.lines != [] && ParseTarget(t.lines[|t.lines| - 1]) == Err(t.outcome.failure)
    ensures var r := Then([line], [], [blob], requests, id, t);
      && (r.outcome == Won || r.outcome == Lost ==> |r.lines| == |r.moves|)
      && (r.outcome.Fatal? && r.outcome != Fatal(Transport) ==>
            |r.lines| == |r.moves| + 1 && ParseTarget(r.lines[|r.lines| - 1]) == Err(r.outcome.failure))
  {
    var r := Then([line], [], [blob], requests, id, t);
    assert r.lines == [line] + t.lines && r.moves == t.moves && r.outcome == t.outcome;
    if t.outcome.Fatal? && t.outcome != Fatal(Transport) {
      assert r.lines[|r.lines| - 1] == t.lines[|t.lines| - 1];
    }
  }

  /**
   * The output of a game is the info blob and then the reply to each reveal,
   * exactly as the server sent them and in order (the response that carries
   * the game id is not printed); a finished game printed one line per reveal
   * after the blob.
   */
  lemma PlayPrinted(cfg: Config, input: string, server: seq<string>)
    ensures var r := Play(cfg, input, server);
      && (server != [] ==> r.printed != [] && r.printed[0] == server[0])
      && (r.gameID.None? ==> r.printed + r.server == server)
      && (r.gameID.Some? ==> r.printed[1..] + r.server == server[2..])
      && (r.outcome == Won || r.outcome == Lost ==> |r.printed| == |r.moves| + 1)
  {
    if Creates(input, server) && |server| >= 2 {
      PlayStart(cfg, input, server);
      var m := ParseTarget(ReadLine(input).0).value;
      var r := Play(cfg, input, server);
      var t := Reveal(cfg, server[1], m, ReadLine(input).1, server[2..]);
      RevealPrinted(cfg, server[1], m, ReadLine(input).1, server[2..]);
      RevealPrintedCount(cfg, server[1], m, ReadLine(input).1, server[2..]);
      assert r.printed == [server[0]] + t.printed && r.server == t.server && r.moves == t.moves;
      assert r.printed[1..] == t.printed;
    } else {
      PlayStop(cfg, input, server);
      if server != [] {
        assert server == [server[0]] + server[1..];
      }
    }
  }

  /**
   * A finished game went on exactly while the replies were counts: every
   * reply before the last is a count, the last is not, and the game is won
   * exactly when the last reply is `win`.
   */
  lemma PlayReplies(cfg: Config, input: string, server: seq<string>)
    ensures var r := Play(cfg, input, server);
      r.outcome == Won || r.outcome == Lost ==>
        && |r.printed| >= 2
        && (forall i :: 1 <= i < |r.printed| - 1 ==> Continues(r.printed[i]))
        && !Continues(r.printed[|r.printed| - 1])
        && (r.outcome == Won <==> r.printed[|r.printed| - 1] == "win")
  {
    if Creates(input, server) && |server| >= 2 {
      PlayStart(cfg, input, server);
      var m := ParseTarget(ReadLine(input).0).value;
      var r := Play(cfg, input, server);
      var t := Reveal(cfg, server[1], m, ReadLine(input).1, server[2..]);
      RevealReplies(cfg, server[1], m, ReadLine(input).1, server[2..]);
      assert r.printed == [server[0]] + t.printed && r.outcome == t.outcome;
      if t.outcome == Won || t.outcome == Lost {
        assert t.printed != [];
        assert r.printed[|r.printed| - 1] == t.printed[|t.printed| - 1];
        CountsAfter(server[0], t.printed);
      }
    } else {
      PlayStop(cfg, input, server);
    }
  }

  /** Counts before the last reply stay counts before the last reply when a line is put in front. */
  lemma CountsAfter(first: string, replies: seq<string>)
    requires forall i :: 0 <= i < |replies| - 1 ==> Continues(replies[i])
    ensures forall i :: 1 <= i < |[first] + replies| - 1 ==> Continues(([first] + replies)[i])
  {
    var p := [first] + replies;
    forall i | 1 <= i < |p| - 1 ensures Continues(p[i]) {
      assert p[i] == replies[i - 1];
    }
  }

  /** At end of input ReadIn returns the empty line, which is not a move: the game stops before it is created. */
  lemma PlayEndOfInput(cfg: Config, server: seq<string>)
    requires server != []
    ensures Play(cfg, [], server) == Run(Fatal(BadShape), [[]], [], [server[0]], [InfoRequest(cfg)], None, [], server[1..])
  {
    ParseTargetRejectExamples();
  }

  /** Likewise in the reveal loop: once the input is exhausted, the next count reply ends the game fatally. */
  lemma RevealEndOfInput(cfg: Config, id: string, m: Move, server: seq<string>)
    requires server != [] && Continues(server[0])
    ensures Reveal(cfg, id, m, [], server).outcome == Fatal(BadShape)
  {
    ParseTargetRejectExamples();
  }

  /** Where a match takes its games' input and sends their output. */
  datatype Channel =
    | Terminal                  // no agent command: the process's own stdin and stdout
    | Agents(command: string)   // an agent program, launched afresh for every game

  /** What `PlayGames` does: the games played, in order, and the tally or the failure that stopped the process. */
  datatype Match = Match(
    result: Result<nat, Failure>,
    games: seq<Run>,
    terminal: string,       // terminal input left unread
    shown: seq<string>,     // lines printed to the terminal
    agents: seq<string>,    // outputs of the agents not launched yet
    server: seq<string>)

  /** The number of games won. */
  function Wins(games: seq<Run>): (n: nat)
    ensures n <= |games|
  {
    if games == [] then 0 else (if games[0].outcome == Won then 1 else 0) + Wins(games[1..])
  }

  /**
   * `PlayGames`: play `howMany` games one after the other on the channel,
   * counting the wins, unless a game or a launch stops the process.  On the
   * terminal the games share the input and the screen; each agent game reads
   * what its own agent writes (the next script of `agents`) and prints to
   * that agent.  `play` is the single game, `PlayGame` (`Play` for the
   * configuration in use); the match depends on nothing else about it.
   */
  function PlayMatch(play: (string, seq<string>) -> Run, channel: Channel, howMany: int, terminal: string,
                     agents: seq<string>, server: seq<string>): (mt: Match)
    decreases howMany
  {
    if howMany <= 0 then Match(Ok(0), [], terminal, [], agents, server)
    else if channel.Agents? && agents == [] then Match(Err(LaunchFailed), [], terminal, [], agents, server)
    else
      var g := play(if channel.Agents? then agents[0] else terminal, server);
      var terminal' := if channel.Agents? then terminal else g.input;
      var shown := if channel.Agents? then [] else g.printed;
      var agents' := if channel.Agents? then agents[1..] else agents;
      if g.outcome.Fatal? then Match(Err(g.outcome.failure), [g], terminal', shown, agents', g.server)
      else After(g, shown, PlayMatch(play, channel, howMany - 1, terminal', agents', g.server))
  }

  /**
   * One game of a match, unfolded: the match is that game `g` and then, unless
   * it failed, the remaining `howMany'` games from where `g` left the channel.
   */
  lemma PlayMatchStep(play: (string, seq<string>) -> Run, channel: Channel, howMany: int, howMany': int,
                      terminal: string, agents: seq<string>, server: seq<string>,
                      g: Run, terminal': string, agents': seq<string>, shown: seq<string>)
    requires howMany > 0 && howMany' == howMany - 1
    requires !(channel.Agents? && agents == [])
    requires g == play(if channel.Agents? then agents[0] else terminal, server)
    requires terminal' == (if channel.Agents? then terminal else g.input)
    requires agents' == (if channel.Agents? then agents[1..] else agents)
    requires shown == (if channel.Agents? then [] else g.printed)
    ensures PlayMatch(play, channel, howMany, terminal, agents, server) ==
      if g.outcome.Fatal? then Match(Err(g.outcome.failure), [g], terminal', shown, agents', g.server)
      else After(g, shown, PlayMatch(play, channel, howMany', terminal', agents', g.server))
  {
  }

  /** A finished game `g`, which showed `shown` on the terminal, followed by the rest of the match. */
  function After(g: Run, shown: seq<string>, rest: Match): (mt: Match) {
    var won := if g.outcome == Won then 1 else 0;
    Match(if rest.result.Ok? then Ok(won + rest.result.value) else rest.result,
          [g] + rest.games, rest.terminal, shown + rest.shown, rest.agents, rest.server)
  }

  /** A match that completes plays `howMany` games, none when `howMany` is not positive, and none of them failed. */
  lemma {:induction false} PlayMatchGames(play: (string, seq<string>) -> Run, channel: Channel, howMany: int,
                                          terminal: string, agents: seq<string>, server: seq<string>)
    ensures var mt := PlayMatch(play, channel, howMany, terminal, agents, server);
      mt.result.Ok? ==>
        && |mt.games| == (if howMany <= 0 then 0 else howMany)
        && (forall k :: 0 <= k < |mt.games| ==> !mt.games[k].outcome.Fatal?)
    decreases howMany
  {
    if howMany > 0 && !(channel.Agents? && agents == []) {
      var mt := PlayMatch(play, channel, howMany, terminal, agents, server);
      var g := play(if channel.Agents? then agents[0] else terminal, server);
      if !g.outcome.Fatal? {
        var rest := PlayMatch(play, channel, howMany - 1, if channel.Agents? then terminal else g.input,
                              if channel.Agents? then agents[1..] else agents, g.server);
        PlayMatchGames(play, channel, howMany - 1, if channel.Agents? then terminal else g.input,
                       if channel.Agents? then agents[1..] else agents, g.server);
        assert mt.games == [g] + rest.games;
        forall k | 0 <= k < |mt.games| && mt.result.Ok? ensures !mt.games[k].outcome.Fatal? {
          if k > 0 {
            assert mt.games[k] == rest.games[k - 1];
          }
        }
      }
    }
  }

  /** The tally: a match that completes returns the number of its games that were won. */
  lemma {:induction false} PlayMatchTally(play: (string, seq<string>) -> Run, channel: Channel, howMany: int,
                                          terminal: string, agents: seq<string>, server: seq<string>)
    ensures var mt := PlayMatch(play, channel, howMany, terminal, agents, server);
      mt.result.Ok? ==> mt.result.value == Wins(mt.games)
    decreases howMany
  {
    if howMany > 0 && !(channel.Agents? && agents == []) {
      var mt := PlayMatch(play, channel, howMany, terminal, agents, server);
      var g := play(if channel.Agents? then agents[0] else terminal, server);
      if !g.outcome.Fatal? {
        var rest := PlayMatch(play, channel, howMany - 1, if channel.Agents? then terminal else g.input,
                              if channel.Agents? then agents[1..] else agents, g.server);
        PlayMatchTally(play, channel, howMany - 1, if channel.Agents? then terminal else g.input,
                       if channel.Agents? then agents[1..] else agents, g.server);
        assert mt.games[1..] == rest.games;
      }
    }
  }

  /** The bound on the tally: never more wins than games asked for, and none when no game is asked for. */
  lemma {:induction false} PlayMatchBound(play: (string, seq<string>) -> Run, channel: Channel, howMany: int,
                       terminal: string, agents: seq<string>, server: seq<string>)
    ensures var mt := PlayMatch(play, channel, howMany, terminal, agents, server);
      && (mt.result.Ok? ==> mt.result.value <= (if howMany <= 0 then 0 else howMany))
      && (howMany <= 0 ==> mt.result == Ok(0))
  {
    PlayMatchGames(play, channel, howMany, terminal, agents, server);
    PlayMatchTally(play, channel, howMany, terminal, agents, server);
  }

  /**
   * A match that stops is stopped either by its last game, whose failure it
   * reports, or by an agent that could not be launched; every earlier game
   * finished.
   */
  lemma {:induction false} PlayMatchAbort(play: (string, seq<string>) -> Run, channel: Channel, howMany: int,
                                          terminal: string, agents: seq<string>, server: seq<string>)
    ensures StopsAtFailure(PlayMatch(play, channel, howMany, terminal, agents, server), channel, howMany)
    decreases howMany
  {
    if howMany > 0 && !(channel.Agents? && agents == []) {
      var g := play(if channel.Agents? then agents[0] else terminal, server);
      var terminal' := if channel.Agents? then terminal else g.input;
      var shown := if channel.Agents? then [] else g.printed;
      var agents' := if channel.Agents? then agents[1..] else agents;
      var n := howMany - 1;
      PlayMatchStep(play, channel, howMany, n, terminal, agents, server, g, terminal', agents', shown);
      if !g.outcome.Fatal? {
        PlayMatchAbort(play, channel, n, terminal', agents', g.server);
        AfterStops(g, shown, PlayMatch(play, channel, n, terminal', agents', g.server), channel, n);
      }
    }
  }

  /**
   * How a match that failed ends: it had started, played at most `howMany`
   * games, all but the last of which finished, and either the last game is
   * the one that failed or no agent was left to launch.
   */
  predicate StopsAtFailure(mt: Match, channel: Channel, howMany: int) {
    mt.result.Err? ==>
      && 0 < howMany && |mt.games| <= howMany
      && (forall k :: 0 <= k < |mt.games| - 1 ==> !mt.games[k].outcome.Fatal?)
      && ((mt.games != [] && mt.games[|mt.games| - 1].outcome == Fatal(mt.result.error))
          || (mt.result.error == LaunchFailed && channel.Agents? && mt.agents == []))
  }

  /** A finished game in front of a failed rest of `n` games gives a failed match of `n + 1`. */
  lemma AfterStops(g: Run, shown: seq<string>, rest: Match, channel: Channel, n: int)
    requires !g.outcome.Fatal? && n >= 0
    requires StopsAtFailure(rest, channel, n)
    ensures StopsAtFailure(After(g, shown, rest), channel, n + 1)
  {
    var mt := After(g, shown, rest);
    assert mt.games == [g] + rest.games;
    if mt.result.Err? {
      if rest.games != [] {
        assert mt.games[|mt.games| - 1] == rest.games[|rest.games| - 1];
      }
      forall k | 0 <= k < |mt.games| - 1 ensures !mt.games[k].outcome.Fatal? {
        if k > 0 {
          assert mt.games[k] == rest.games[k - 1];
        }
      }
    }
  }

  /** `PlayGame` under the configuration `cfg`, as the single game of a match. */
  function Player(cfg: Config): (play: (string, seq<string>) -> Run) {
    (input, server) => Play(cfg, input, server)
  }

  /** The requests the games sent, one game after the other. */
  function Sent(games: seq<Run>): (rs: seq<Request>) {
    if games == [] then [] else games[0].requests + Sent(games[1..])
  }

  lemma {:induction false} SentAppend(games: seq<Run>, g: Run)
    ensures Sent(games + [g]) == Sent(games) + g.requests
  {
    if games == [] {
      assert [] + [g] == [g];
    } else {
      assert (games + [g])[1..] == games[1..] + [g];
      SentAppend(games[1..], g);
    }
  }

  lemma {:induction false} WinsAppend(games: seq<Run>, g: Run)
    ensures Wins(games + [g]) == Wins(games) + (if g.outcome == Won then 1 else 0)
  {
    if games == [] {
      assert [] + [g] == [g];
    } else {
      assert (games + [g])[1..] == games[1..] + [g];
      WinsAppend(games[1..], g);
    }
  }

  /**
   * The chaining of a match: game `k` reads its own agent's output, or on
   * the terminal what game `k - 1` left of the input, and gets the server
   * responses game `k - 1` left; the match ends where its last game left
   * the server and the terminal.
   */
  predicate Chained(play: (string, seq<string>) -> Run, channel: Channel, terminal: string, agents: seq<string>,
                    server: seq<string>, mt: Match)
  {
    && (channel.Agents? ==> |mt.games| <= |agents|)
    && (forall k :: 0 <= k < |mt.games| ==>
          mt.games[k] == play(if channel.Agents? then agents[k] else if k == 0 then terminal else mt.games[k - 1].input,
                              if k == 0 then server else mt.games[k - 1].server))
    && mt.server == (if mt.games == [] then server else mt.games[|mt.games| - 1].server)
    && (channel.Terminal? ==> mt.terminal == (if mt.games == [] then terminal else mt.games[|mt.games| - 1].input))
  }

  /** One game of a chained match. */
  lemma ChainedAt(play: (string, seq<string>) -> Run, channel: Channel, terminal: string, agents: seq<string>,
                  server: seq<string>, mt: Match, k: int)
    requires Chained(play, channel, terminal, agents, server, mt)
    requires 0 <= k < |mt.games|
    ensures channel.Agents? ==> k < |agents|
    ensures mt.games[k] == play(if channel.Agents? then agents[k] else if k == 0 then terminal else mt.games[k - 1].input,
                                if k == 0 then server else mt.games[k - 1].server)
  {
  }

  /** Every match is chained: each game starts where the one before it left off. */
  lemma {:induction false} PlayMatchChain(play: (string, seq<string>) -> Run, channel: Channel, howMany: int,
                                          terminal: string, agents: seq<string>, server: seq<string>)
    ensures Chained(play, channel, terminal, agents, server, PlayMatch(play, channel, howMany, terminal, agents, server))
    decreases howMany
  {
    if howMany > 0 && !(channel.Agents? && agents == []) {
      var n := howMany - 1;
      var g := play(if channel.Agents? then agents[0] else terminal, server);
      var terminal' := if channel.Agents? then terminal else g.input;
      var agents' := if channel.Agents? then agents[1..] else agents;
      var shown := if channel.Agents? then [] else g.printed;
      PlayMatchStep(play, channel, howMany, n, terminal, agents, server, g, terminal', agents', shown);
      if !g.outcome.Fatal? {
        PlayMatchChain(play, channel, n, terminal', agents', g.server);
        AfterChained(play, channel, terminal, agents, server, g, shown, PlayMatch(play, channel, n, terminal', agents', g.server));
      }
    }
  }

  /** A game played where the match stands, in front of a rest chained from where it left off, keeps the match chained. */
  lemma AfterChained(play: (string, seq<string>) -> Run, channel: Channel, terminal: string, agents: seq<string>,
                     server: seq<string>, g: Run, shown: seq<string>, rest: Match)
    requires !(channel.Agents? && agents == [])
    requires g == play(if channel.Agents? then agents[0] else terminal, server)
    requires Chained(play, channel, if channel.Agents? then terminal else g.input,
                     if channel.Agents? then agents[1..] else agents, g.server, rest)
    ensures Chained(play, channel, terminal, agents, server, After(g, shown, rest))
  {
    var mt := After(g, shown, rest);
    assert mt.games == [g] + rest.games;
    forall k | 0 <= k < |mt.games|
      ensures mt.games[k] == play(if channel.Agents? then agents[k] else if k == 0 then terminal else mt.games[k - 1].input,
                                  if k == 0 then server else mt.games[k - 1].server)
    {
      AfterChainedAt(play, channel, terminal, agents, server, g, rest, mt.games, k);
    }
    if rest.games != [] {
      assert mt.games[|mt.games| - 1] == rest.games[|rest.games| - 1];
    }
  }

  /** Game `k` of a game `g` followed by a chained rest starts where game `k - 1` left off. */
  lemma AfterChainedAt(play: (string, seq<string>) -> Run, channel: Channel, terminal: string, agents: seq<string>,
                       server: seq<string>, g: Run, rest: Match, games: seq<Run>, k: int)
    requires !(channel.Agents? && agents == [])
    requires g == play(if channel.Agents? then agents[0] else terminal, server)
    requires Chained(play, channel, if channel.Agents? then terminal else g.input,
                     if channel.Agents? then agents[1..] else agents, g.server, rest)
    requires games == [g] + rest.games && 0 <= k < |games|
    ensures channel.Agents? ==> k < |agents|
    ensures games[k] == play(if channel.Agents? then agents[k] else if k == 0 then terminal else games[k - 1].input,
                             if k == 0 then server else games[k - 1].server)
  {
    if k > 0 {
      var j := k - 1;
      var terminal' := if channel.Agents? then terminal else g.input;
      var agents' := if channel.Agents? then agents[1..] else agents;
      ChainedAt(play, channel, terminal', agents', g.server, rest, j);
      assert games[k] == rest.games[j];
      assert games[j] == if j == 0 then g else rest.games[j - 1];
      if channel.Agents? {
        assert agents[k] == agents'[j];
      }
    }
  }

  /** The lines the games printed, one game after the other. */
  function Printed(games: seq<Run>): (lines: seq<string>) {
    if games == [] then [] else games[0].printed + Printed(games[1..])
  }

  /**
   * The channels: agent games leave the terminal alone and use up one agent
   * per game played (which game reads which agent is `Chained`); terminal
   * games show every line they print on the terminal, in order, and launch
   * nothing.
   */
  lemma {:induction false} PlayMatchChannels(play: (string, seq<string>) -> Run, channel: Channel, howMany: int,
                                             terminal: string, agents: seq<string>, server: seq<string>)
    ensures var mt := PlayMatch(play, channel, howMany, terminal, agents, server);
      && (channel.Agents? ==>
            mt.terminal == terminal && mt.shown == [] && |mt.games| <= |agents| && mt.agents == agents[|mt.games|..])
      && (channel.Terminal? ==> mt.agents == agents && mt.shown == Printed(mt.games))
    decreases howMany
  {
    if howMany > 0 && !(channel.Agents? && agents == []) {
      var mt := PlayMatch(play, channel, howMany, terminal, agents, server);
      var g := play(if channel.Agents? then agents[0] else terminal, server);
      if !g.outcome.Fatal? {
        var rest := PlayMatch(play, channel, howMany - 1, if channel.Agents? then terminal else g.input,
                              if channel.Agents? then agents[1..] else agents, g.server);
        PlayMatchChannels(play, channel, howMany - 1, if channel.Agents? then terminal else g.input,
                          if channel.Agents? then agents[1..] else agents, g.server);
        assert mt.games == [g] + rest.games && mt.games[1..] == rest.games;
        if channel.Agents? {
          assert mt.agents == agents[1..][|rest.games|..];
        }
      } else {
        assert mt.games == [g] && mt.games[1..] == [];
      }
    }
  }
}

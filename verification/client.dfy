/**
 * The driver itself: its globals (`CurrentGameID`, the bound `Stdin` and
 * `Stdout`) as the fields of one object, and its routines as methods that
 * update them step by step.  The server and the agents are queues the
 * object draws from, and every request it makes is logged.  `PlayGame` and
 * `PlayGames` are proved to do exactly what `Game.Play` and
 * `Game.PlayMatch` describe, so the lemmas about those functions hold of
 * the methods too.
 */
module Client {
  import opened Wrappers
  import opened Strconv
  import opened Streams
  import opened Protocol
  import opened Game

  /** How the match so far and the rest of it make up the whole match `target`. */
  predicate Splits(target: Match, done: seq<Run>, shown: seq<string>, count: nat, rest: Match) {
    && target.terminal == rest.terminal && target.agents == rest.agents && target.server == rest.server
    && target.games == done + rest.games && target.shown == shown + rest.shown
    && target.result == (if rest.result.Ok? then Ok(count + rest.result.value) else rest.result)
  }

  /** A finished game moves from the rest of the match to the games done. */
  lemma SplitsAfter(target: Match, done: seq<Run>, shown: seq<string>, count: nat, count': nat,
                    g: Run, gShown: seq<string>, next: Match)
    requires Splits(target, done, shown, count, After(g, gShown, next))
    requires count' == count + (if g.outcome == Won then 1 else 0)
    ensures Splits(target, done + [g], shown + gShown, count', next)
  {
    Assoc(done, [g], next.games);
    Assoc(shown, gShown, next.shown);
  }

  /** A failure ends the match: the games done and the failed rest are the whole of it. */
  lemma SplitsStop(target: Match, done: seq<Run>, shown: seq<string>, count: nat, rest: Match)
    requires Splits(target, done, shown, count, rest) && rest.result.Err?
    ensures target == Match(rest.result, done + rest.games, rest.terminal, shown + rest.shown, rest.agents, rest.server)
  {
  }

  /** When nothing is left to play, the games done are the whole match. */
  lemma SplitsDone(target: Match, done: seq<Run>, shown: seq<string>, count: nat,
                   terminal: string, agents: seq<string>, server: seq<string>)
    requires Splits(target, done, shown, count, Match(Ok(0), [], terminal, [], agents, server))
    ensures target == Match(Ok(count), done, terminal, shown, agents, server)
  {
    assert done + [] == done && shown + [] == shown;
  }

  class Client {
    const cfg: Config
    const terminalIn: InStream     // `os.Stdin`
    const terminalOut: OutStream   // `os.Stdout`
    var stdin: InStream            // `Stdin`: where ReadIn reads
    var stdout: OutStream          // `Stdout`: where PrintOut writes
    var currentGameID: string      // `CurrentGameID`
    var server: seq<string>        // the responses the server has yet to send
    var requests: seq<Request>     // the requests sent so far
    var agents: seq<string>        // what each agent still to be launched will write

    constructor (cfg: Config, terminal: string, server: seq<string>, agents: seq<string>)
      ensures this.cfg == cfg && terminalIn.rest == terminal && terminalOut.written == []
      ensures stdin == terminalIn && stdout == terminalOut
      ensures currentGameID == [] && this.server == server && requests == [] && this.agents == agents
    {
      this.cfg := cfg;
      var i := new InStream(terminal);
      var o := new OutStream();
      terminalIn := i;
      terminalOut := o;
      stdin := i;
      stdout := o;
      currentGameID := [];
      this.server := server;
      requests := [];
      this.agents := agents;
    }

    /** `ReadIn`: the next line of the bound input, or `""` at its end. */
    method ReadIn() returns (line: string)
      modifies stdin
      ensures line + stdin.rest == old(stdin.rest)
      ensures (line, stdin.rest) == ReadLine(old(stdin.rest))
    {
      line := ReadLine(stdin.rest).0;
      stdin.rest := ReadLine(stdin.rest).1;
    }

    /** `PrintOut`: one line, newline added, on the bound output. */
    method PrintOut(line: string)
      modifies stdout
      ensures stdout.written == old(stdout.written) + Lines([line])
    {
      stdout.written := stdout.written + line + "\n";
    }

    /** `GameInfo`: the body of the `/info` response, or None when the request fails. */
    method GameInfo() returns (body: Option<string>)
      modifies this`server, this`requests
      ensures requests == old(requests) + [InfoRequest(cfg)]
      ensures old(server) == [] ==> body == None && server == old(server)
      ensures old(server) != [] ==> body == Some(old(server)[0]) && server == old(server)[1..]
    {
      requests := requests + [InfoRequest(cfg)];
      if server == [] {
        return None;
      }
      body := Some(server[0]);
      server := server[1..];
    }

    /** `NewGame`: create a game and keep its id; false when the request fails. */
    method NewGame() returns (ok: bool)
      modifies this`server, this`requests, this`currentGameID
      ensures requests == old(requests) + [NewGameRequest(cfg)]
      ensures ok <==> old(server) != []
      ensures !ok ==> server == old(server) && currentGameID == old(currentGameID)
      ensures ok ==> currentGameID == old(server)[0] && server == old(server)[1..]
    {
      requests := requests + [NewGameRequest(cfg)];
      if server == [] {
        return false;
      }
      currentGameID := server[0];
      server := server[1..];
      ok := true;
    }

    /** `GetTarget`: read a line and parse the guess in it. */
    method GetTarget() returns (target: Result<Move, Failure>)
      modifies stdin
      ensures target == ParseTarget(ReadLine(old(stdin.rest)).0)
      ensures stdin.rest == ReadLine(old(stdin.rest)).1
      ensures target.Ok? ==> IsInt64(target.value.x) && IsInt64(target.value.y)
    {
      var text := ReadIn();
      target := ParseTarget(text);
    }

    /** `OpenCell`: reveal a cell of the current game; the reply, or None when the request fails. */
    method OpenCell(m: Move) returns (body: Option<string>)
      modifies this`server, this`requests
      ensures requests == old(requests) + [OpenRequest(cfg, currentGameID, m)]
      ensures old(server) == [] ==> body == None && server == old(server)
      ensures old(server) != [] ==> body == Some(old(server)[0]) && server == old(server)[1..]
    {
      requests := requests + [OpenRequest(cfg, currentGameID, m)];
      if server == [] {
        return None;
      }
      body := Some(server[0]);
      server := server[1..];
    }

    /**
     * `PlayGame`: print the board parameters, read the first guess, create
     * the game, then reveal guess after guess until a reply is not a count.
     * Everything it does is what `Play` says a game on that input and those
     * responses does.
     */
    method PlayGame() returns (outcome: Outcome)
      modifies this, stdin, stdout
      ensures var r := Play(cfg, old(stdin.rest), old(server));
        && outcome == r.outcome
        && stdin == old(stdin) && stdout == old(stdout) && agents == old(agents)
        && stdin.rest == r.input && server == r.server
        && requests == old(requests) + r.requests
        && stdout.written == old(stdout.written) + Lines(r.printed)
        && currentGameID == (if r.gameID.Some? then r.gameID.value else old(currentGameID))
    {
      ghost var input0, server0, requests0, written0 := stdin.rest, server, requests, stdout.written;
      var info := GameInfo();
      if info.None? {
        PlayStop(cfg, input0, server0);
        return Fatal(Transport);
      }
      PrintOut(info.value);
      var first := GetTarget();
      if first.Err? {
        PlayStop(cfg, input0, server0);
        return Fatal(first.error);
      }
      var created := NewGame();
      if !created {
        PlayStop(cfg, input0, server0);
        return Fatal(Transport);
      }
      PlayStart(cfg, input0, server0);
      ghost var target := Play(cfg, input0, server0);
      ghost var sent: seq<Request>, printed: seq<string> := [InfoRequest(cfg), NewGameRequest(cfg)], [info.value];
      var guess := first.value;
      // The `for true` loop: reveal the guess, print the reply, stop unless
      // it is a count, otherwise read the next guess.
      while true
        invariant stdin == old(stdin) && stdout == old(stdout) && agents == old(agents)
        invariant currentGameID == server0[1]
        invariant requests == requests0 + sent
        invariant stdout.written == written0 + Lines(printed)
        invariant var rest := Reveal(cfg, currentGameID, guess, stdin.rest, server);
          && rest.outcome == target.outcome && rest.input == target.input && rest.server == target.server
          && target.requests == sent + rest.requests
          && target.printed == printed + rest.printed
        decreases |stdin.rest|
      {
        ghost var input1, server1 := stdin.rest, server;
        ghost var rest := Reveal(cfg, currentGameID, guess, input1, server1);
        ghost var open := OpenRequest(cfg, currentGameID, guess);
        Assoc(requests0, sent, [open]);
        var result := OpenCell(guess);
        if result.None? {
          RevealStop(cfg, currentGameID, guess, input1, server1);
          assert printed + [] == printed;
          return Fatal(Transport);
        }
        PrintOut(result.value);
        LinesAppend(printed, [result.value]);
        Assoc(written0, Lines(printed), Lines([result.value]));
        var reply := Classify(result.value);
        if !reply.Continue? {
          RevealStop(cfg, currentGameID, guess, input1, server1);
          return if reply.Win? then Won else Lost;
        }
        assert stdin.rest == input1;
        var next := GetTarget();
        if next.Err? {
          RevealStop(cfg, currentGameID, guess, input1, server1);
          return Fatal(next.error);
        }
        RevealStep(cfg, currentGameID, guess, input1, server1);
        assert |stdin.rest| < |input1|;
        ghost var rest' := Reveal(cfg, currentGameID, next.value, stdin.rest, server);
        Assoc(sent, [open], rest'.requests);
        Assoc(printed, [result.value], rest'.printed);
        sent, printed := sent + [open], printed + [result.value];
        guess := next.value;
      }
    }

    /** `LaunchAI`: start the next agent and bind its output and input; false when it cannot be started. */
    method LaunchAI() returns (ok: bool)
      modifies this`stdin, this`stdout, this`agents
      ensures ok <==> old(agents) != []
      ensures !ok ==> stdin == old(stdin) && stdout == old(stdout) && agents == old(agents)
      ensures ok ==> fresh(stdin) && fresh(stdout) && stdin.rest == old(agents)[0] && stdout.written == []
                     && agents == old(agents)[1..]
    {
      if agents == [] {
        return false;
      }
      stdin := new InStream(agents[0]);
      stdout := new OutStream();
      agents := agents[1..];
      ok := true;
    }

    /**
     * One round of PlayGames: attach the player (a newly launched agent, or the
     * terminal again) and play one game with it.  `launched` is false when no
     * agent could be started, and then nothing else has happened.
     */
    method PlayNext(channel: Channel) returns (launched: bool, outcome: Outcome)
      modifies this, terminalIn, terminalOut
      ensures launched <==> !(channel.Agents? && old(agents) == [])
      ensures !launched ==>
        && agents == old(agents) && server == old(server) && requests == old(requests)
        && terminalIn.rest == old(terminalIn.rest) && terminalOut.written == old(terminalOut.written)
      ensures launched ==>
        var g := Play(cfg, if channel.Agents? then old(agents)[0] else old(terminalIn.rest), old(server));
        && outcome == g.outcome
        && terminalIn.rest == (if channel.Agents? then old(terminalIn.rest) else g.input)
        && terminalOut.written == old(terminalOut.written) + Lines(if channel.Agents? then [] else g.printed)
        && agents == (if channel.Agents? then old(agents)[1..] else old(agents))
        && server == g.server && requests == old(requests) + g.requests
    {
      if channel.Agents? {
        launched := LaunchAI();
        if !launched {
          outcome := Fatal(LaunchFailed);
          return;
        }
      } else {
        stdin := terminalIn;
        stdout := terminalOut;
        launched := true;
      }
      outcome := PlayGame();
      if channel.Agents? {
        assert terminalOut.written == old(terminalOut.written) + [];
      }
    }

    /**
     * `PlayGames`: play `howMany` games on the channel and count the wins.
     * It does exactly what `PlayMatch` says a match does; a failure, which
     * stops the whole program, is the `Err` result.
     */
    method PlayGames(channel: Channel, howMany: int) returns (wins: Result<nat, Failure>)
      modifies this, terminalIn, terminalOut
      ensures var mt := PlayMatch(Player(cfg), channel, howMany, old(terminalIn.rest), old(agents), old(server));
        && wins == mt.result
        && terminalIn.rest == mt.terminal && terminalOut.written == old(terminalOut.written) + Lines(mt.shown)
        && agents == mt.agents && server == mt.server
        && requests == old(requests) + Sent(mt.games)
    {
      ghost var target := PlayMatch(Player(cfg), channel, howMany, terminalIn.rest, agents, server);
      ghost var requests0, written0 := requests, terminalOut.written;
      ghost var done: seq<Run>, shown: seq<string> := [], [];
      var count: nat := 0;
      var i := 0;
      ghost var left := howMany;  // games still to play, howMany - i
      while i < howMany
        invariant left == howMany - i
        invariant requests == requests0 + Sent(done)
        invariant terminalOut.written == written0 + Lines(shown)
        invariant Splits(target, done, shown, count, PlayMatch(Player(cfg), channel, left, terminalIn.rest, agents, server))
        decreases howMany - i
      {
        ghost var terminal1, agents1, server1 := terminalIn.rest, agents, server;
        ghost var rest := PlayMatch(Player(cfg), channel, left, terminal1, agents1, server1);
        var launched, outcome := PlayNext(channel);
        if !launched {
          assert target.result == Err(LaunchFailed) && target.games == done && target.shown == shown by {
            SplitsStop(target, done, shown, count, rest);
            assert done + [] == done && shown + [] == shown;
          }
          return Err(LaunchFailed);
        }
        ghost var g := Play(cfg, if channel.Agents? then agents1[0] else terminal1, server1);
        ghost var gShown := if channel.Agents? then [] else g.printed;
        ghost var left' := left - 1;
        assert requests == requests0 + Sent(done + [g]) by {
          SentAppend(done, g);
          Assoc(requests0, Sent(done), g.requests);
        }
        assert terminalOut.written == written0 + Lines(shown + gShown) by {
          LinesAppend(shown, gShown);
          Assoc(written0, Lines(shown), Lines(gShown));
        }
        ghost var next := PlayMatch(Player(cfg), channel, left', terminalIn.rest, agents, server);
        assert if g.outcome.Fatal? then rest == Match(Err(g.outcome.failure), [g], terminalIn.rest, gShown, agents, server)
               else rest == After(g, gShown, next) by {
          assert Player(cfg)(if channel.Agents? then agents1[0] else terminal1, server1) == g;
          PlayMatchStep(Player(cfg), channel, left, left', terminal1, agents1, server1, g, terminalIn.rest, agents, gShown);
        }
        if outcome.Fatal? {
          assert target == Match(Err(outcome.failure), done + [g], terminalIn.rest, shown + gShown, agents, server) by {
            SplitsStop(target, done, shown, count, rest);
          }
          return Err(outcome.failure);
        }
        ghost var count0 := count;
        if outcome == Won {
          count := count + 1;
        }
        SplitsAfter(target, done, shown, count0, count, g, gShown, next);
        done, shown := done + [g], shown + gShown;
        i, left := i + 1, left';
      }
      SplitsDone(target, done, shown, count, terminalIn.rest, agents, server);
      return Ok(count);
    }
  }
}

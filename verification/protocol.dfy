/**
 * The pure half of the turn protocol: reading a move from a line of input,
 * classifying the server's reply to a reveal, and the requests sent to the
 * game server.
 */
module Protocol {
  import opened Wrappers
  import opened Strings
  import opened Strconv

  /** A guess: the coordinates of the cell to open.  Bounds are the server's business. */
  datatype Move = Move(x: int, y: int)

  /** Why the driver stops with `log.Fatalf`. */
  datatype Failure =
    | BadShape      // the move line is not two comma-separated fields
    | NotInteger    // a field of the move line is not an integer literal
    | Transport     // a request to the server failed
    | LaunchFailed  // the agent program could not be started

  /**
   * What `GetTarget` makes of a line: trim the spaces at both ends of the
   * whole line, split on commas, demand exactly two fields and read each
   * with `strconv.ParseInt(field, 0, 64)`.  The fields themselves are not trimmed.
   */
  function ParseTarget(line: string): (r: Result<Move, Failure>)
    ensures r.Ok? ==> IsInt64(r.value.x) && IsInt64(r.value.y)
  {
    var split := Split(TrimSpace(line), ',');
    if |split| != 2 then Err(BadShape)
    else
      var x := ParseInt(split[0]);
      var y := ParseInt(split[1]);
      if x.None? || y.None? then Err(NotInteger) else Ok(Move(x.value, y.value))
  }

  /** The shape check: the line is rejected as malformed exactly when its trimmed text does not hold one comma. */
  lemma ParseTargetShape(line: string)
    ensures ParseTarget(line) == Err(BadShape) <==> Count(TrimSpace(line), ',') != 1
  {
    SplitLength(TrimSpace(line), ',');
  }

  /**
   * The two fields: for a line made of spaces, a field, a comma, a field and
   * spaces, the move is the two fields' values, or NotInteger when either is
   * not an integer literal.
   */
  lemma ParseTargetOfFields(line: string, pre: string, a: string, b: string, post: string)
    requires line == pre + a + [','] + b + post
    requires AllSpace(pre) && AllSpace(post)
    requires ',' !in a && ',' !in b
    requires Trimmed(a + [','] + b)
    ensures ParseTarget(line) ==
      if ParseInt(a).Some? && ParseInt(b).Some? then Ok(Move(ParseInt(a).value, ParseInt(b).value))
      else Err(NotInteger)
  {
    TrimFields(pre, a, b, post);
    SplitPair(a, b, ',');
    assert Split(TrimSpace(line), ',') == [a, b];
  }

  lemma TrimFields(pre: string, a: string, b: string, post: string)
    requires AllSpace(pre) && AllSpace(post)
    requires Trimmed(a + [','] + b)
    ensures TrimSpace(pre + a + [','] + b + post) == a + [','] + b
  {
    var m := a + [','] + b;
    assert pre + a + [','] + b + post == pre + m + post;
    TrimSpaceOfPadded(pre, m, post);
  }

  /** Spaces are trimmed only at the ends of the line: an accepted line has none left inside. */
  lemma ParseTargetNoInnerSpace(line: string)
    requires ParseTarget(line).Ok?
    ensures forall i :: 0 <= i < |TrimSpace(line)| ==> !IsSpace(TrimSpace(line)[i])
  {
    var t := TrimSpace(line);
    var split := Split(t, ',');
    SplitSpec(t, ',');
    var a, b := split[0], split[1];
    ParseIntAlphabet(a);
    ParseIntAlphabet(b);
    assert split == [a, b];
    assert t == a + [','] + b;
    forall i | 0 <= i < |t| ensures !IsSpace(t[i]) {
      if i < |a| {
        assert t[i] == a[i];
      } else if i > |a| {
        assert t[i] == b[i - |a| - 1];
      }
    }
  }

  /** `%v` never renders a comma or a space. */
  lemma FormatIntChars(n: int)
    ensures FormatInt(n) != [] && ',' !in FormatInt(n)
    ensures !IsSpace(FormatInt(n)[0]) && !IsSpace(FormatInt(n)[|FormatInt(n)| - 1])
  {
    var s := FormatInt(n);
    assert forall i :: 0 <= i < |s| ==> s[i] == '-' || IsDecimalDigit(s[i]) by {
      var k: nat := if n < 0 then -n else n;
      var d := FormatNat(k);
      FormatNatDigits(k);
      assert s == (if n < 0 then "-" else "") + d;
      forall i | 0 <= i < |s| ensures s[i] == '-' || IsDecimalDigit(s[i]) {
        if n < 0 && i > 0 {
          assert s[i] == d[i - 1];
        }
      }
    }
    assert s[0] == '-' || IsDecimalDigit(s[0]);
    assert s[|s| - 1] == '-' || IsDecimalDigit(s[|s| - 1]);
  }

  /** A line of two integer literals around a comma, with end-of-line spaces, is read as their values. */
  lemma ParseTargetOfLiterals(a: string, b: string, post: string, x: int, y: int)
    requires ParseInt(a) == Some(x) && ParseInt(b) == Some(y)
    requires ',' !in a && ',' !in b && AllSpace(post)
    ensures ParseTarget(a + [','] + b + post) == Ok(Move(x, y))
  {
    LiteralsTrimmed(a, b);
    var line := a + [','] + b + post;
    assert line == [] + a + [','] + b + post;
    ParseTargetOfFields(line, [], a, b, post);
  }

  lemma LiteralsTrimmed(a: string, b: string)
    requires ParseInt(a).Some? && ParseInt(b).Some?
    ensures Trimmed(a + [','] + b)
  {
    ParseIntAlphabet(a);
    ParseIntAlphabet(b);
    assert IsLiteralChar(a[0]) && IsLiteralChar(b[|b| - 1]);
    FieldsTrimmed(a, b);
  }

  /**
   * Round trip: a line holding two integers rendered with `%v` (as OpenCell
   * renders coordinates), a comma and any end-of-line spaces is read back as
   * exactly that move when both fit in 64 bits, and is rejected as not an
   * integer otherwise.
   */
  lemma ParseTargetFormatRoundTrip(m: Move, post: string)
    requires AllSpace(post)
    ensures ParseTarget(FormatInt(m.x) + [','] + FormatInt(m.y) + post) ==
      if IsInt64(m.x) && IsInt64(m.y) then Ok(m) else Err(NotInteger)
  {
    var a, b := FormatInt(m.x), FormatInt(m.y);
    FormatIntChars(m.x);
    FormatIntChars(m.y);
    ParseFormatRoundTrip(m.x);
    ParseFormatRoundTrip(m.y);
    FieldsTrimmed(a, b);
    var line := a + [','] + b + post;
    assert line == [] + a + [','] + b + post;
    ParseTargetOfFields(line, [], a, b, post);
  }

  lemma FieldsTrimmed(a: string, b: string)
    requires a != [] && !IsSpace(a[0])
    requires b != [] && !IsSpace(b[|b| - 1])
    ensures Trimmed(a + [','] + b)
  {
    var t := a + [','] + b;
    assert t[0] == a[0] && t[|t| - 1] == b[|b| - 1];
  }

  /** A move line as an agent prints it, newline included. */
  lemma ParseTargetNewlineExample()
    ensures ParseTarget("3,4\n") == Ok(Move(3, 4))
  {
    ParseTargetFormatRoundTrip(Move(3, 4), "\n");
    assert FormatInt(3) == "3" && FormatInt(4) == "4";
    assert "3" + [','] + "4" + "\n" == "3,4\n";
  }

  /** A space after the comma is inside the second field, which is then not an integer. */
  lemma ParseTargetInnerSpaceExample()
    ensures ParseTarget("3, 4") == Err(NotInteger)
  {
    assert ParseInt(" 4") == None by {
      assert SplitPrefix(" 4") == Literal(10, " 4");
      assert !IsDigitIn(" 4"[0], 10);
    }
    FieldsTrimmed("3", " 4");
    assert "3, 4" == [] + "3" + [','] + " 4" + [];
    ParseTargetOfFields("3, 4", [], "3", " 4", []);
  }

  /** A third field makes the line malformed. */
  lemma ParseTargetThreeFieldsExample()
    ensures ParseTarget("3,4,5") == Err(BadShape)
  {
    var t := "3,4,5";
    assert TrimSpace(t) == t by {
      TrimSpaceOfPadded([], t, []);
      assert [] + t + [] == t;
    }
    assert |Split(t, ',')| == 3 by {
      SplitLength(t, ',');
      assert Count(t, ',') == 2;
    }
  }

  /** A field that is not a literal, and the empty line that `ReadIn` returns at end of input. */
  lemma ParseTargetRejectExamples()
    ensures ParseTarget("x,4") == Err(NotInteger)
    ensures ParseTarget("") == Err(BadShape)
  {
    assert ParseInt("x") == None by {
      assert SplitPrefix("x") == Literal(10, "x");
      assert !IsDigitIn("x"[0], 10);
    }
    FieldsTrimmed("x", "4");
    assert "x,4" == [] + "x" + [','] + "4" + [];
    ParseTargetOfFields("x,4", [], "x", "4", []);
  }

  /** What the driver makes of the server's reply to a reveal. */
  datatype Reply = Continue(count: int) | Win | Loss

  /**
   * A reply that ParseInt accepts (the neighbour count) means the game goes
   * on; otherwise the game is over, won when the reply is exactly `win`.
   * The reply is not trimmed.
   */
  function Classify(reply: string): (r: Reply) {
    match ParseInt(reply)
    case Some(n) => Continue(n)
    case None => if reply == "win" then Win else Loss
  }

  lemma ClassifySpec(reply: string)
    ensures Classify(reply).Continue? <==> ParseInt(reply).Some?
    ensures Classify(reply).Continue? ==> Some(Classify(reply).count) == ParseInt(reply)
    ensures Classify(reply) == Win <==> reply == "win"
    ensures Classify(reply) == Loss <==> ParseInt(reply).None? && reply != "win"
  {
    assert SplitPrefix("win") == Literal(10, "win");
    assert !IsDigitIn('w', 10);
    assert !DigitsIn("win", 10);
  }

  /** Replies as the server may send them; a trailing newline turns a count or `win` into a loss. */
  lemma ClassifyExamples()
    ensures Classify("2") == Continue(2) && Classify("0x2") == Continue(2)
    ensures Classify("win") == Win
    ensures Classify("win\n") == Loss && Classify("2\n") == Loss && Classify("boom") == Loss
  {
    ClassifySpec("win");
    assert SplitPrefix("0x2") == Literal(16, "2");
    assert !DigitsIn("2\n", 10) by { assert !IsDigitIn("2\n"[1], 10); }
    assert SplitPrefix("win\n") == Literal(10, "win\n");
    assert !DigitsIn("win\n", 10) by { assert !IsDigitIn("win\n"[0], 10); }
  }

  /**
   * A reply rendered with `%v` continues the game with its value when it fits
   * in 64 bits; a count outside that range is a range error, so a loss.
   */
  lemma ClassifyFormat(n: int)
    ensures Classify(FormatInt(n)) == if IsInt64(n) then Continue(n) else Loss
  {
    ParseFormatRoundTrip(n);
    var s := FormatInt(n);
    if n >= 0 {
      FormatNatDigits(n);
    }
    assert s[0] == '-' || IsDecimalDigit(s[0]);
    assert s != "win" by { assert "win"[0] == 'w'; }
  }

  /** The player and server settings read by the requests: `-server`, `-name`, `-version`. */
  datatype Config = Config(host: string, name: string, version: int)

  /** An HTTP request: a GET of a URL, or a POST of form values to a URL. */
  datatype Request = Get(url: string) | PostForm(url: string, form: map<string, string>)

  function InfoRequest(cfg: Config): (r: Request) {
    Get("http://" + cfg.host + "/info")
  }

  function NewGameRequest(cfg: Config): (r: Request) {
    PostForm("http://" + cfg.host + "/new", map["name" := cfg.name, "version" := FormatInt(cfg.version)])
  }

  function OpenRequest(cfg: Config, id: string, m: Move): (r: Request) {
    PostForm("http://" + cfg.host + "/open", map["id" := id, "x" := FormatInt(m.x), "y" := FormatInt(m.y)])
  }

  /** The coordinates of a reveal reach the server intact: its fields read back as the move. */
  lemma OpenRequestCarriesMove(cfg: Config, id: string, m: Move)
    requires IsInt64(m.x) && IsInt64(m.y)
    ensures var form := OpenRequest(cfg, id, m).form;
      form["id"] == id && ParseInt(form["x"]) == Some(m.x) && ParseInt(form["y"]) == Some(m.y)
  {
    ParseFormatRoundTrip(m.x);
    ParseFormatRoundTrip(m.y);
  }

  /** A reveal is never mistaken for a game creation. */
  lemma OpenIsNotNew(cfg: Config, id: string, m: Move)
    ensures OpenRequest(cfg, id, m) != NewGameRequest(cfg)
  {
    assert |OpenRequest(cfg, id, m).url| != |NewGameRequest(cfg).url|;
  }
}

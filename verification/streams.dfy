/**
 * Line-oriented text streams: what `ReadIn` takes from the bound input and
 * what `PrintOut` appends to the bound output.
 */
module Streams {

  /**
   * `bufio.Reader.ReadString('\n')` with its error discarded: the text up to
   * and including the first newline, or everything that is left when there is
   * none (so `""` once the stream is exhausted).  Returns the line and the rest.
   */
  function ReadLine(s: string): (r: (string, string))
    ensures r.0 + r.1 == s
    ensures s == [] ==> r.0 == []
    ensures s != [] ==> r.0 != [] && '\n' !in r.0[..|r.0| - 1] && (r.0[|r.0| - 1] == '\n' || r.1 == [])
  {
    if s == [] then ([], [])
    else if s[0] == '\n' then ([s[0]], s[1..])
    else
      var (line, rest) := ReadLine(s[1..]);
      assert line != [] ==> ([s[0]] + line)[..|line|] == [s[0]] + line[..|line| - 1];
      ([s[0]] + line, rest)
  }

  /** The text `fmt.Fprintln` writes for each of `lines` in turn. */
  function Lines(lines: seq<string>): (text: string) {
    if lines == [] then [] else lines[0] + "\n" + Lines(lines[1..])
  }

  lemma {:induction false} LinesAppend(a: seq<string>, b: seq<string>)
    ensures Lines(a + b) == Lines(a) + Lines(b)
  {
    if a != [] {
      assert (a + b)[1..] == a[1..] + b;
      LinesAppend(a[1..], b);
    } else {
      assert a + b == b;
    }
  }

  /** An input stream: the text not yet read from it. */
  class InStream {
    var rest: string

    constructor (text: string)
      ensures rest == text
    {
      rest := text;
    }
  }

  /** An output stream: the text written to it so far. */
  class OutStream {
    var written: string

    constructor ()
      ensures written == []
    {
      written := [];
    }
  }
}

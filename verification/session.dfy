/**
 * The interactive loop of `main` (app/main.py): each line the user types is
 * either an exit phrase, which ends the session, or a prompt, which is sent
 * to the model and answered by one call of `query_model`.
 *
 * Console input is a given sequence of lines and the model server is a given
 * sequence of response streams, one per turn.
 */
module Session {
  import opened Stream

  /** Python's `str.lower` on one character, restricted to ASCII letters. */
  function LowerChar(c: char): char {
    if 'A' <= c <= 'Z' then (c as int + 32) as char else c
  }

  /** Python's `str.lower`, restricted to ASCII letters. */
  function Lower(s: string): string {
    seq(|s|, i requires 0 <= i < |s| => LowerChar(s[i]))
  }

  /** The exit test of `main`: the lower-cased input is `quit` or `exit`. */
  predicate IsExit(input: string) {
    Lower(input) in ["quit", "exit"]
  }

  /** A character lower-cases to the letter `x` exactly when it is `x` or its capital. */
  lemma LowerCharIs(c: char, x: char)
    requires 'a' <= x <= 'z'
    ensures LowerChar(c) == x <==> c == x || c == (x as int - 32) as char
  {
  }

  /** `word` written with each letter in either case. */
  predicate AnyCase(input: string, word: string)
    requires forall i | 0 <= i < |word| :: 'a' <= word[i] <= 'z'
  {
    |input| == |word| &&
    forall i | 0 <= i < |word| :: input[i] == word[i] || input[i] == (word[i] as int - 32) as char
  }

  lemma {:induction false} LowerIsWord(input: string, word: string)
    requires forall i | 0 <= i < |word| :: 'a' <= word[i] <= 'z'
    ensures Lower(input) == word <==> AnyCase(input, word)
  {
    if |input| == |word| {
      forall i | 0 <= i < |word|
        ensures LowerChar(input[i]) == word[i] <==> input[i] == word[i] || input[i] == (word[i] as int - 32) as char
      {
        LowerCharIs(input[i], word[i]);
      }
      if AnyCase(input, word) {
        assert Lower(input) == word;
      }
    }
  }

  /**
   * The exit phrases are exactly `quit` and `exit` with every letter in
   * either case, and nothing else.
   */
  lemma {:induction false} ExitIffAnyCase(input: string)
    ensures IsExit(input) <==> AnyCase(input, "quit") || AnyCase(input, "exit")
  {
    LowerIsWord(input, "quit");
    LowerIsWord(input, "exit");
  }

  /** Any capitalisation of an exit word ends the session. */
  lemma ExitExamples()
    ensures IsExit("QUIT") && IsExit("Exit") && IsExit("exit") && IsExit("qUiT")
  {
    assert Lower("QUIT") == "quit";
    assert Lower("Exit") == "exit";
    assert Lower("exit") == "exit";
    assert Lower("qUiT") == "quit";
  }

  /** Longer words, padded words and the empty line are prompts, not exit phrases. */
  lemma NonExitExamples()
    ensures !IsExit("quitting") && !IsExit(" quit") && !IsExit("exit ") && !IsExit("")
  {
  }

  /** How the loop of `main` ends. */
  datatype End =
    | Quit
      // an exit phrase was typed
    | InputExhausted
      // no input was left: `input()` raises `EOFError`
    | Crashed
      // a reply was cut short by an exception `query_model` does not catch

  /** The replies of a session, one per prompt sent, and how it ended. */
  datatype Transcript = Transcript(replies: seq<Reply>, end: End)

  /**
   * The loop of `main`: the i-th input line is answered from `streams[i]`.
   * Any line that is not an exit phrase, the empty line included, is sent
   * as a prompt.
   */
  function Run(inputs: seq<string>, streams: seq<seq<Line>>): (t: Transcript)
    requires |inputs| <= |streams|
    ensures |t.replies| <= |inputs|
    ensures forall i | 0 <= i < |t.replies| :: !IsExit(inputs[i]) && t.replies[i] == Respond(streams[i])
    ensures forall i | 0 <= i < |t.replies| - 1 :: t.replies[i].Finished?
    ensures t.end == Crashed <==> |t.replies| > 0 && t.replies[|t.replies| - 1].Aborted?
    ensures t.end == Quit ==> |t.replies| < |inputs| && IsExit(inputs[|t.replies|])
    ensures t.end == InputExhausted ==> |t.replies| == |inputs|
    decreases |inputs|
  {
    if |inputs| == 0 then Transcript([], InputExhausted)
    else if IsExit(inputs[0]) then Transcript([], Quit)
    else
      var reply := Respond(streams[0]);
      if reply.Aborted? then Transcript([reply], Crashed)
      else
        var later := Run(inputs[1..], streams[1..]);
        var replies := [reply] + later.replies;
        assert |replies| - 1 == |later.replies|;
        assert |later.replies| > 0 ==> replies[|replies| - 1] == later.replies[|later.replies| - 1];
        Transcript(replies, later.end)
  }
}

/**
 * The line-processing loop of `query_model` (app/main.py): the body of a
 * streamed `/api/generate` response is read line by line; blank lines are
 * skipped, lines that are not JSON are skipped, each frame's `response` text
 * is echoed, and the loop stops at the first frame whose `done` is true. A
 * final newline follows, unless an exception the loop does not catch ends
 * the call first.
 *
 * The network and the JSON decoder are abstracted away: the input is the
 * sequence of lines as the decoder classifies them.
 */
module Stream {
  import opened Optional

  /** One line of the response body, as `line.decode` and `json.loads` see it. */
  datatype Line =
    | Blank
      // an empty line: the `if line:` test fails
    | Malformed
      // `json.loads` raised `JSONDecodeError`, which the loop catches
    | Unhandled
      // decoding raised an exception the loop does not catch: the bytes are
      // not UTF-8 (`UnicodeDecodeError`), or the JSON value is not an object
      // (a `TypeError` or `AttributeError` from the key lookups)
    | Frame(response: Option<string>, done: Option<bool>)
      // a JSON object; each field is `None` when its key is missing

  /** How one call of `query_model` ends, with everything it wrote to the console. */
  datatype Reply =
    | Finished(text: string)
      // the loop ended by `break` or by running out of lines; `text` includes
      // the final newline
    | Aborted(text: string)
      // an uncaught exception left the call; `text` is what had been printed

  /** The text a frame prints: its `response`, or nothing when the key is missing. */
  function Said(response: Option<string>): string {
    response.GetOr("")
  }

  /** The text a line contributes to the console. */
  function Echo(l: Line): string {
    if l.Frame? then Said(l.response) else ""
  }

  /** `data.get("done", False)`: a missing `done` key counts as not done. */
  predicate IsDone(l: Line) {
    l.Frame? && l.done.GetOr(false)
  }

  /** A line after which no further line is read. */
  predicate Terminal(l: Line) {
    IsDone(l) || l.Unhandled?
  }

  /** The same ending, with `s` printed first. */
  function Prepend(s: string, r: Reply): Reply {
    match r
    case Finished(t) => Finished(s + t)
    case Aborted(t) => Aborted(s + t)
  }

  /** The echoes of all `lines`, in order. */
  function Concat(lines: seq<Line>): string {
    if |lines| == 0 then "" else Echo(lines[0]) + Concat(lines[1..])
  }

  /** The index of the first terminal line, or `|lines|` when there is none. */
  function StopAt(lines: seq<Line>): (k: nat)
    ensures k <= |lines|
    ensures forall j | 0 <= j < k :: !Terminal(lines[j])
    ensures k < |lines| ==> Terminal(lines[k])
  {
    if |lines| == 0 || Terminal(lines[0]) then 0 else 1 + StopAt(lines[1..])
  }

  /**
   * `query_model` (app/main.py lines 16-27) as a fold over the decoded lines
   * that stops at the first terminal line.
   */
  function Respond(lines: seq<Line>): (r: Reply)
    ensures r.Finished? ==> |r.text| > 0 && r.text[|r.text| - 1] == '\n'
    ensures r.Aborted? <==> StopAt(lines) < |lines| && lines[StopAt(lines)].Unhandled?
    decreases |lines|
  {
    if |lines| == 0 then Finished("\n")
    else
      match lines[0]
      case Blank => Respond(lines[1..])
      case Malformed => Respond(lines[1..])
      case Unhandled => Aborted("")
      case Frame(response, done) =>
        if done.GetOr(false) then Finished(Said(response) + "\n")
        else Prepend(Said(response), Respond(lines[1..]))
  }

  /**
   * The reply described directly rather than line by line: the echoes of
   * every line up to and including the first `done` frame (or of all lines
   * when none is done), then one newline; or, when an uncaught exception
   * comes first, the echoes of the lines before it and no newline.
   */
  function Expected(lines: seq<Line>): Reply {
    var k := StopAt(lines);
    if k == |lines| then Finished(Concat(lines) + "\n")
    else if lines[k].Unhandled? then Aborted(Concat(lines[..k]))
    else Finished(Concat(lines[..k + 1]) + "\n")
  }

  lemma {:induction false} ConcatAppend(a: seq<Line>, b: seq<Line>)
    ensures Concat(a + b) == Concat(a) + Concat(b)
    decreases |a|
  {
    if |a| == 0 {
      assert a + b == b;
    } else {
      assert (a + b)[1..] == a[1..] + b;
      ConcatAppend(a[1..], b);
    }
  }

  /** Reading a prefix of the echoes one line at a time. */
  lemma ConcatPrefix(lines: seq<Line>, n: nat)
    requires 1 <= n <= |lines|
    ensures Concat(lines[..n]) == Echo(lines[0]) + Concat(lines[1..][..n - 1])
  {
    assert lines[..n][0] == lines[0];
    assert lines[..n][1..] == lines[1..][..n - 1];
  }

  /** The direct description, one non-terminal line at a time. */
  lemma ExpectedCons(lines: seq<Line>)
    requires |lines| > 0 && !Terminal(lines[0])
    ensures Expected(lines) == Prepend(Echo(lines[0]), Expected(lines[1..]))
  {
    var rest := lines[1..];
    var k := StopAt(rest);
    assert StopAt(lines) == k + 1;
    if k == |rest| {
    } else if rest[k].Unhandled? {
      ConcatPrefix(lines, k + 1);
    } else {
      ConcatPrefix(lines, k + 2);
    }
  }

  /** The fold and the direct description agree on every stream. */
  lemma {:induction false} RespondIsExpected(lines: seq<Line>)
    ensures Respond(lines) == Expected(lines)
    decreases |lines|
  {
    if |lines| == 0 {
    } else if Terminal(lines[0]) {
      assert StopAt(lines) == 0;
      if lines[0].Unhandled? {
        assert lines[..0] == [];
      } else {
        ConcatPrefix(lines, 1);
        assert lines[1..][..0] == [];
      }
    } else {
      RespondIsExpected(lines[1..]);
      ExpectedCons(lines);
      assert Respond(lines) == Prepend(Echo(lines[0]), Respond(lines[1..]));
    }
  }

  /** Blank and undecodable lines neither print nor end the loop. */
  lemma {:induction false} SkippedLineInvisible(a: seq<Line>, l: Line, b: seq<Line>)
    requires l.Blank? || l.Malformed?
    ensures Respond(a + [l] + b) == Respond(a + b)
    decreases |a|
  {
    if |a| == 0 {
      assert a + [l] + b == [l] + b;
      assert ([l] + b)[1..] == b;
      assert a + b == b;
    } else {
      assert (a + [l] + b)[0] == a[0];
      assert (a + [l] + b)[1..] == a[1..] + [l] + b;
      assert (a + b)[0] == a[0];
      assert (a + b)[1..] == a[1..] + b;
      SkippedLineInvisible(a[1..], l, b);
    }
  }

  /** Two lines that print the same text and end the loop alike are interchangeable. */
  lemma {:induction false} SameEffectSameReply(a: seq<Line>, l1: Line, l2: Line, b: seq<Line>)
    requires Echo(l1) == Echo(l2)
    requires IsDone(l1) == IsDone(l2)
    requires l1.Unhandled? == l2.Unhandled?
    ensures Respond(a + [l1] + b) == Respond(a + [l2] + b)
    decreases |a|
  {
    if |a| == 0 {
      assert a + [l1] + b == [l1] + b;
      assert a + [l2] + b == [l2] + b;
      assert ([l1] + b)[1..] == b;
      assert ([l2] + b)[1..] == b;
      assert Respond([l1] + b) == Respond([l2] + b) by {
        if !Terminal(l1) {
          assert Respond([l1] + b) == Prepend(Echo(l1), Respond(b));
          assert Respond([l2] + b) == Prepend(Echo(l2), Respond(b));
        }
      }
    } else {
      assert (a + [l1] + b)[0] == a[0];
      assert (a + [l1] + b)[1..] == a[1..] + [l1] + b;
      assert (a + [l2] + b)[0] == a[0];
      assert (a + [l2] + b)[1..] == a[1..] + [l2] + b;
      SameEffectSameReply(a[1..], l1, l2, b);
    }
  }

  /** A frame without a `done` key behaves as one with `"done": false`. */
  lemma {:induction false} AbsentDoneIsFalse(a: seq<Line>, response: Option<string>, b: seq<Line>)
    ensures Respond(a + [Frame(response, None)] + b) == Respond(a + [Frame(response, Some(false))] + b)
  {
    SameEffectSameReply(a, Frame(response, None), Frame(response, Some(false)), b);
  }

  /** A frame without a `response` key prints nothing. */
  lemma {:induction false} AbsentResponseSilent(a: seq<Line>, done: Option<bool>, b: seq<Line>)
    ensures Respond(a + [Frame(None, done)] + b) == Respond(a + [Frame(Some(""), done)] + b)
    ensures Respond(a + [Frame(None, None)] + b) == Respond(a + b)
  {
    SameEffectSameReply(a, Frame(None, done), Frame(Some(""), done), b);
    SameEffectSameReply(a, Frame(None, None), Blank, b);
    SkippedLineInvisible(a, Blank, b);
  }

  /** Once the loop has stopped, no later line changes the reply. */
  lemma {:induction false} LaterLinesIgnored(lines: seq<Line>, tail: seq<Line>)
    requires StopAt(lines) < |lines|
    ensures Respond(lines + tail) == Respond(lines)
    decreases |lines|
  {
    assert (lines + tail)[0] == lines[0];
    if !Terminal(lines[0]) {
      assert (lines + tail)[1..] == lines[1..] + tail;
      LaterLinesIgnored(lines[1..], tail);
    }
  }

  lemma PrependTwice(x: string, y: string, r: Reply)
    ensures Prepend(x, Prepend(y, r)) == Prepend(x + y, r)
  {
    assert x + (y + r.text) == (x + y) + r.text;
  }

  /** One step of the fold over a line that does not stop it. */
  lemma RespondStep(lines: seq<Line>)
    requires |lines| > 0 && !Terminal(lines[0])
    ensures Respond(lines) == Prepend(Echo(lines[0]), Respond(lines[1..]))
  {
  }

  /** A stretch of non-terminal lines prints its echoes, in order, before whatever follows. */
  lemma {:induction false} PrefixPrepends(a: seq<Line>, rest: seq<Line>)
    requires forall i | 0 <= i < |a| :: !Terminal(a[i])
    ensures Respond(a + rest) == Prepend(Concat(a), Respond(rest))
    decreases |a|
  {
    if |a| == 0 {
      assert a + rest == rest;
    } else {
      var s := a + rest;
      assert s[0] == a[0];
      assert s[1..] == a[1..] + rest;
      assert !Terminal(a[0]);
      assert forall i | 0 <= i < |a[1..]| :: !Terminal(a[1..][i]);
      RespondStep(s);
      PrefixPrepends(a[1..], rest);
      PrependTwice(Echo(a[0]), Concat(a[1..]), Respond(rest));
    }
  }

  /**
   * Two consecutive stretches of non-terminal lines print the text of the
   * first, then the text of the second, before whatever follows: nothing is
   * reordered or repeated.
   */
  lemma {:induction false} StretchesInOrder(a: seq<Line>, b: seq<Line>, rest: seq<Line>)
    requires forall i | 0 <= i < |a| :: !Terminal(a[i])
    requires forall i | 0 <= i < |b| :: !Terminal(b[i])
    ensures Respond(a + b + rest) == Prepend(Concat(a) + Concat(b), Respond(rest))
  {
    assert a + b + rest == (a + b) + rest;
    PrefixPrepends(a + b, rest);
    ConcatAppend(a, b);
  }

  /**
   * A `done` frame that also carries text prints that text, after everything
   * before it, and then the final newline.
   */
  lemma {:induction false} DoneFrameEmitted(a: seq<Line>, response: string, b: seq<Line>)
    requires forall i | 0 <= i < |a| :: !Terminal(a[i])
    ensures Respond(a + [Frame(Some(response), Some(true))] + b) == Finished(Concat(a) + response + "\n")
  {
    var done := Frame(Some(response), Some(true));
    assert a + [done] + b == a + ([done] + b);
    PrefixPrepends(a, [done] + b);
    assert ([done] + b)[0] == done;
    assert Respond([done] + b) == Finished(response + "\n");
    assert Concat(a) + (response + "\n") == Concat(a) + response + "\n";
  }

  /**
   * A stream with no `done` frame and no uncaught failure is echoed in full,
   * then followed by exactly one newline.
   */
  lemma {:induction false} ExhaustedStream(lines: seq<Line>)
    requires forall i | 0 <= i < |lines| :: !Terminal(lines[i])
    ensures Respond(lines) == Finished(Concat(lines) + "\n")
  {
    assert lines + [] == lines;
    PrefixPrepends(lines, []);
  }

  /** An undecodable first line, then text, then `done`: only the text is echoed. */
  lemma MalformedThenFrames()
    ensures Respond([Malformed, Frame(Some("hi"), None), Frame(None, Some(true))]) == Finished("hi\n")
  {
    var s := [Malformed, Frame(Some("hi"), None), Frame(None, Some(true))];
    assert s[1..] == [Frame(Some("hi"), None), Frame(None, Some(true))];
    assert s[1..][1..] == [Frame(None, Some(true))];
  }
}

# plushy_pet: the streamed reply of `query_model`

This project models the one piece of logic in the plushy_pet chat loop
(`app/main.py`): how `query_model` turns the newline-delimited JSON stream of
an Ollama `/api/generate` response into the text it echoes, and how `main`
recognises an exit phrase and drives one `query_model` call per prompt.

- `optional.dfy`: `Optional.Option`, standing for a JSON key that may be missing.
- `stream.dfy`: module `Stream`. A response line, after decoding, is a
  `Line`: `Blank`, `Malformed` (the decoder raised `JSONDecodeError`),
  `Unhandled` (decoding raised an exception the loop does not catch), or
  `Frame(response, done)` with each key optional. `Respond` is the loop of
  lines 16-27 as a fold over the lines that stops at the first terminal
  line; it returns `Finished(text)` when the loop ends by `break` or by
  running out of lines (`text` includes the final newline), or
  `Aborted(text)` when an uncaught exception ends the call (the text already
  printed, with no final newline). `Expected` describes the same reply
  directly: the echoes of every line up to and including the first `done`
  frame, then one newline; when no frame is done, the echoes of every line,
  then one newline; and when an uncaught exception comes first, the echoes
  of the lines before it, with no newline.
- `session.dfy`: module `Session`. `IsExit` is the exit test of line 33
  (`user_input.lower() in ["quit", "exit"]`); `Run` is the loop of `main`
  over a given sequence of input lines, answering the i-th prompt from the
  i-th given response stream.

Points of the code's behaviour the model keeps:
- an empty input line is sent to the model as a prompt, because `main` only
  tests for the exit phrases;
- bytes that are not UTF-8, and JSON values that are not objects, raise
  exceptions that `except json.JSONDecodeError` does not catch, so they end
  the call without the final newline and, since `main` has no handler, end
  the session (`Line.Unhandled`, `Reply.Aborted`, `End.Crashed`);
- the reply text is only echoed to the console.

## Model

| member | source | states |
|---|---|---|
| Stream.Respond | app/main.py:16-27 | a call that is not cut short always prints a final newline last; it is cut short exactly when the first line that stops the loop is one whose decoding raises an uncaught exception |
| Stream.StopAt | app/main.py:16-26 | the loop reads lines up to the first one that stops it (a frame whose `done` is true, or an uncaught failure): every line before that index is non-terminal and the line at it is terminal |
| Stream.RespondIsExpected | app/main.py:16-27 | the echoed text is the in-order concatenation of the `response` fields of every line up to and including the first `done` frame (all lines when none is done), followed by exactly one newline; an uncaught failure first yields the text of the lines before it and no newline |
| Stream.SkippedLineInvisible | app/main.py:17-26 | removing a blank line or a line that fails JSON decoding, anywhere in the stream, does not change the reply: such a line prints nothing and never ends the loop |
| Stream.SameEffectSameReply | app/main.py:20-24 | a line matters only through the text it prints, whether it is a `done` frame, and whether its decoding raises an uncaught exception: two lines that agree on all three are interchangeable anywhere in the stream |
| Stream.AbsentDoneIsFalse | app/main.py:23 | a frame without a `done` key gives the same reply as the same frame with `"done": false` |
| Stream.AbsentResponseSilent | app/main.py:20-22 | a frame without a `response` key prints nothing, and a frame with neither key is as if it were absent |
| Stream.LaterLinesIgnored | app/main.py:23-24 | once a terminal line has been read, appending any further lines leaves the reply unchanged |
| Stream.DoneFrameEmitted | app/main.py:20-24 | when no earlier line stops the loop, a `done` frame that carries text prints that text after the text of the preceding lines, then the newline, and nothing that follows is read |
| Stream.ExhaustedStream | app/main.py:16-27 | a stream with no `done` frame and no line whose decoding raises an uncaught exception is echoed in full and followed by one newline |
| Stream.PrefixPrepends | app/main.py:16-22 | a stretch of lines none of which stops the loop prints the `response` texts of its frames in stream order, each once, in front of whatever the rest of the stream prints |
| Stream.StretchesInOrder | app/main.py:16-22 | two consecutive stretches of lines, neither containing a line that stops the loop, print the `response` texts of the first stretch and then those of the second, each once, in front of whatever the rest of the stream prints |
| Stream.MalformedThenFrames | app/main.py:16-27 | an undecodable line, then `{"response": "hi"}`, then `{"done": true}` echoes `hi` and a newline |
| Session.ExitIffAnyCase | app/main.py:33 | an input is an exit phrase exactly when it is `quit` or `exit` with each letter in either case |
| Session.ExitExamples | app/main.py:33 | `QUIT`, `Exit`, `exit` and `qUiT` are exit phrases |
| Session.NonExitExamples | app/main.py:33 | `quitting`, ` quit`, `exit ` and the empty line are not exit phrases, so they are sent as prompts |
| Session.Run | app/main.py:31-37 | each input before the first exit phrase gets exactly one reply, in order, from its own stream; the session ends at the first exit phrase, when input runs out, or right after the first reply cut short by an uncaught exception, and every earlier reply finished |

## Left out

- The HTTP request and the streaming of the body (lines 12-16) are replaced by
  a given sequence of lines; a connection error raised while iterating has the
  same effect as an `Unhandled` line and can be modelled as one.
- `json.loads` and UTF-8 decoding (line 19) are abstracted to the `Line`
  classification; which byte strings fall in which class is not modelled.
- A `response` value that is not a string is printed through `str()`, and a
  non-boolean `done` value is tested for truthiness; the model takes the
  printed text and the truth value as already computed by the decoder.
- The console output of `query_model` (`print` and `flush`, lines 22 and 27)
  is represented by the returned text, not by console effects. The greeting
  (line 30), the `\nYou: ` input prompt (line 32), the farewell (line 34) and
  the `"Pet: "` prefix (line 36) are not modelled.
- `OLLAMA_HOST`, `MODEL_NAME` and the request payload (lines 7-13) are
  configuration and are not modelled.
- Session.IsExit: lower-cases ASCII letters only; Python's `str.lower` also
  maps other letters, but none of them lower-cases to a single letter of
  `quit` or `exit`, so the exit test is unaffected.
- Session.Run: requires at least as many response streams as input lines,
  one per possible turn; streams beyond the turns actually taken are ignored.
- Interruption by the user (`KeyboardInterrupt`) is not modelled.

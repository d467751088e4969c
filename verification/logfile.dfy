/**
 * The log file of lib/logfile.ts: one append stream is held lazily, every message is written
 * to it as one line, and SIGHUP releases and closes it so that the next message reopens the
 * file (after it has been rotated away, say).
 */
module FileLog {
  import opened Wrappers
  import opened Text

  /**
   * `String(message).replace(/\n*$/, "\n")`: the run of newlines at the end, possibly empty,
   * becomes exactly one.
   */
  function Line(message: string): (r: string)
    ensures |r| > 0 && r[|r| - 1] == '\n'
  {
    message[..|message| - TrailingRun(message, '\n')] + "\n"
  }

  /** A written line ends in exactly one newline, and the text before it is the message's. */
  lemma {:induction false} LineEndsOnce(message: string)
    ensures TrailingRun(Line(message), '\n') == 1
    ensures Line(message)[..|Line(message)| - 1] == message[..|message| - TrailingRun(message, '\n')]
  {
    var body := message[..|message| - TrailingRun(message, '\n')];
    var r := Line(message);
    assert r[..|r| - 1] == body;
    if body != [] {
      assert body[|body| - 1] != '\n';
    }
  }

  /** Writing an already written line again writes the same line. */
  lemma {:induction false} LineIdempotent(message: string)
    ensures Line(Line(message)) == Line(message)
  {
    LineEndsOnce(message);
    var r := Line(message);
    assert r[..|r| - TrailingRun(r, '\n')] == r[..|r| - 1];
  }

  /**
   * The closure's state: the lines written to each stream opened so far (in opening order),
   * the stream `writable` holds, if any, and the streams that were closed.
   */
  datatype LoggerState = LoggerState(streams: seq<seq<string>>, held: Option<nat>, closed: set<nat>)

  /** At most one stream is open: every stream but the held one is closed, the held one is not. */
  predicate Valid(s: LoggerState) {
    && (s.held.Some? ==> s.held.value < |s.streams| && s.held.value !in s.closed)
    && (forall i | 0 <= i < |s.streams| && Some(i) != s.held :: i in s.closed)
    && (forall i | i in s.closed :: i < |s.streams|)
  }

  /** `openFile()`: the held stream, or a new append stream when none is held. */
  function Open(s: LoggerState): (t: LoggerState)
    ensures t.held.Some? && t.held.value < |t.streams|
  {
    if s.held.Some? && s.held.value < |s.streams| then s
    else LoggerState(s.streams + [[]], Some(|s.streams|), s.closed)
  }

  /** `log(message)`: one line written to the stream `openFile()` yields. */
  function Write(s: LoggerState, message: string): (t: LoggerState)
    ensures t.held.Some? && t.held.value < |t.streams|
  {
    var o := Open(s);
    var w := o.held.value;
    o.(streams := o.streams[w := o.streams[w] + [Line(message)]])
  }

  /** The SIGHUP handler: log the signal, then release and close the stream it went to. */
  function Reopened(s: LoggerState): (t: LoggerState)
    ensures t.held.None?
  {
    var o := Write(s, "logger: SIGHUP");
    o.(held := None, closed := o.closed + {o.held.value})
  }

  /** `fileLogger(file)` returns after opening the file once. */
  function Start(): (s: LoggerState)
    ensures Valid(s) && s.held == Some(0) && s.streams == [[]]
  {
    Open(LoggerState([], None, {}))
  }

  /** Each operation keeps at most one stream open. */
  lemma {:induction false} ValidKept(s: LoggerState, message: string)
    requires Valid(s)
    ensures Valid(Open(s)) && Valid(Write(s, message)) && Valid(Reopened(s))
  {
    var o := Open(s);
    assert Valid(o);
    var w := Write(s, message);
    assert |w.streams| == |o.streams| && w.held == o.held && w.closed == o.closed;
    var h := Write(s, "logger: SIGHUP");
    assert |h.streams| == |o.streams| && h.held == o.held && h.closed == o.closed;
  }

  /** A message goes to the held stream and only there; no stream is opened while one is held. */
  lemma {:induction false} WriteToHeld(s: LoggerState, message: string)
    requires Valid(s) && s.held.Some?
    ensures var t := Write(s, message);
            && t.held == s.held && t.closed == s.closed && |t.streams| == |s.streams|
            && t.streams[s.held.value] == s.streams[s.held.value] + [Line(message)]
            && forall i | 0 <= i < |s.streams| && i != s.held.value :: t.streams[i] == s.streams[i]
  {
  }

  /**
   * After SIGHUP the signal line is the last thing the old stream receives: the next message
   * opens a new stream, which holds exactly that message, and the closed one is left as it was.
   */
  lemma {:induction false} NextLogAfterReopen(s: LoggerState, message: string)
    requires Valid(s)
    ensures var k := Open(s).held.value;
            var r := Reopened(s);
            var t := Write(r, message);
            && k < |r.streams| && k in r.closed
            && r.streams[k] == Open(s).streams[k] + [Line("logger: SIGHUP")]
            && t.held == Some(|r.streams|)
            && t.streams == r.streams + [[Line(message)]]
  {
    var o := Open(s);
    var k := o.held.value;
    var h := Write(s, "logger: SIGHUP");
    assert h.held == Some(k) && |h.streams| == |o.streams|;
    var r := Reopened(s);
    assert r.streams == h.streams && r.closed == h.closed + {k};
    var n := Open(r);
    assert n.held == Some(|r.streams|) && n.streams == r.streams + [[]];
    var line := Line(message);
    var u := n.streams[|r.streams| := n.streams[|r.streams|] + [line]];
    assert |u| == |r.streams| + 1 && u[|r.streams|] == [line];
    assert forall i | 0 <= i < |r.streams| :: u[i] == r.streams[i];
    assert u == r.streams + [[line]];
    assert r.streams[k] == h.streams[k] == o.streams[k] + [Line("logger: SIGHUP")];
  }

  /** `fileLogger(file)`, with the stream as the index of the opened streams. */
  class FileLogger {
    const file: string
    var streams: seq<seq<string>>
    var writable: Option<nat>
    var closed: set<nat>

    function Value(): LoggerState
      reads this
    {
      LoggerState(streams, writable, closed)
    }

    /** Opens the file once before returning, so exactly one stream is held. */
    constructor (file: string)
      ensures Value() == Start() && Valid(Value()) && this.file == file
    {
      this.file := file;
      streams := [];
      writable := None;
      closed := {};
      new;
      var _ := OpenFile();
    }

    /** `openFile()` */
    method OpenFile() returns (w: nat)
      modifies this
      ensures Value() == Open(old(Value())) && Value().held == Some(w)
    {
      if writable.Some? && writable.value < |streams| {
        return writable.value;
      }
      streams := streams + [[]];
      writable := Some(|streams| - 1);
      w := |streams| - 1;
    }

    /** `logger.log(message)` */
    method Log(message: string)
      modifies this
      ensures Value() == Write(old(Value()), message)
    {
      var w := OpenFile();
      streams := streams[w := streams[w] + [Line(message)]];
    }

    /** The SIGHUP handler. */
    method Reopen()
      modifies this
      ensures Value() == Reopened(old(Value()))
    {
      Log("logger: SIGHUP");
      var written := writable;
      writable := None;
      if written.Some? {
        closed := closed + {written.value};
      }
    }
  }
}

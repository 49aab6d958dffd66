/** The server-sent-events connection of the HTTP transport: `Send` turns
    each response into one `text/event-stream` frame and writes it, with
    its error paths. The frames are checked against a reader of the
    event-stream format of section 9.2 (Server-sent events) of the WHATWG
    HTML Living Standard. JSON encoding and the writer are parameters. */
module Sse {
  import opened Types

  /** `SSEEvent` and `SSEMessage`, the two values of `SSEMsgType`. */
  const SSEEvent: nat := 0
  const SSEMessage: nat := 1

  const ErrClosed: string := "connection is already closed"
  const ErrUnsupportType: string := "unsupport sse message type"

  /** What `json.Marshal` is asked to encode: a response's Data, or the
      whole response envelope {cmd, seqno, code, msg, data}. */
  datatype JsonInput =
    | DataOf(v: Value)
    | Envelope(cmd: string, seqno: string, code: int, msg: string, data: Value)

  /** The result of `json.Marshal`. */
  datatype Json = Json(text: string) | JsonErr(err: string)

  /** The frame for one response, or the error that stops `Send` before it
      is written. */
  datatype FrameResult = Text(s: string) | Fail(err: string)

  function Frame(msgType: nat, resp: Response, enc: JsonInput -> Json): (f: FrameResult)
    ensures msgType != SSEEvent && msgType != SSEMessage ==> f == Fail(ErrUnsupportType)
  {
    if msgType == SSEEvent then
      var head := (if resp.seqno != "" then "id: " + resp.seqno + "\n" else "") + "event: " + resp.cmd + "\n";
      if resp.data == Nil then Text(head + "\n\n")
      else
        match enc(DataOf(resp.data))
        case JsonErr(e) => Fail(e)
        case Json(t) => Text(head + "data: " + t + "\n" + "\n\n")
    else if msgType == SSEMessage then
      match enc(Envelope(resp.cmd, resp.seqno, resp.code, resp.msg, resp.data))
      case JsonErr(e) => Fail(e)
      case Json(t) => Text("data: " + t + "\n" + "\n\n")
    else Fail(ErrUnsupportType)
  }

  /** Every frame ends with the blank line that terminates an event. */
  lemma FrameEndsBlank(msgType: nat, resp: Response, enc: JsonInput -> Json)
    ensures var f := Frame(msgType, resp, enc);
            f.Text? ==> |f.s| >= 2 && f.s[|f.s| - 2..] == "\n\n"
  {
  }

  /** The outcome of `Send` from response `i` on: the frames written, the
      error returned, and whether the connection was destroyed. The write
      of frame number `failAt` (if any) fails with `writeErr`. */
  datatype SendRun = SendRun(frames: seq<string>, err: Option<string>, destroyed: bool)

  function SendFrom(v: seq<Response>, i: nat, msgType: nat, enc: JsonInput -> Json, failAt: Option<nat>, writeErr: string): (r: SendRun)
    requires i <= |v|
    ensures |r.frames| <= |v| - i
    ensures r.err.None? <==> |r.frames| == |v| - i
    ensures r.destroyed ==> r.err == Some(writeErr)
    decreases |v| - i
  {
    if i == |v| then SendRun([], None, false)
    else
      match Frame(msgType, v[i], enc)
      case Fail(e) => SendRun([], Some(e), false)
      case Text(t) =>
        if failAt == Some(i) then SendRun([], Some(writeErr), true)
        else
          var rest := SendFrom(v, i + 1, msgType, enc, failAt, writeErr);
          SendRun([t] + rest.frames, rest.err, rest.destroyed)
  }

  class SseConn {
    var hasWriter: bool         // `w != nil`
    var msgType: nat
    var isClose: bool
    var written: seq<string>    // the frames written so far
    var notified: seq<string>   // the errors sent on `notifyErr`

    constructor (msgType: nat)
      ensures hasWriter && this.msgType == msgType && !isClose
      ensures written == [] && notified == []
    {
      hasWriter := true;
      this.msgType := msgType;
      isClose := false;
      written := [];
      notified := [];
    }

    /** `destroy`: reports the error and marks the connection closed. */
    method Destroy(err: string)
      modifies this
      ensures notified == old(notified) + [err] && isClose
      ensures hasWriter == old(hasWriter) && msgType == old(msgType) && written == old(written)
    {
      notified := notified + [err];
      isClose := true;
    }

    /** The frame of one response, built as `Send` builds it. */
    method BuildFrame(resp: Response, enc: JsonInput -> Json) returns (f: FrameResult)
      ensures f == Frame(msgType, resp, enc)
    {
      var msg := "";
      if msgType == SSEEvent {
        if resp.seqno != "" {
          msg := msg + ("id: " + resp.seqno + "\n");
          assert msg == "id: " + resp.seqno + "\n";
        }
        msg := msg + ("event: " + resp.cmd + "\n");
        assert msg == (if resp.seqno != "" then "id: " + resp.seqno + "\n" else "") + "event: " + resp.cmd + "\n";
        if resp.data != Nil {
          var dataBt := enc(DataOf(resp.data));
          if dataBt.JsonErr? {
            return Fail(dataBt.err);
          }
          msg := msg + ("data: " + dataBt.text + "\n");
        }
      } else if msgType == SSEMessage {
        var dataBt := enc(Envelope(resp.cmd, resp.seqno, resp.code, resp.msg, resp.data));
        if dataBt.JsonErr? {
          return Fail(dataBt.err);
        }
        msg := msg + ("data: " + dataBt.text + "\n");
        assert msg == "data: " + dataBt.text + "\n";
      } else {
        return Fail(ErrUnsupportType);
      }
      f := Text(msg + "\n\n");
    }

    /** `Send(v...)`: one frame per response, in order. An encoding error or
        an unsupported message type is returned before that frame is
        written; a write error destroys the connection and is returned. */
    method Send(v: seq<Response>, enc: JsonInput -> Json, failAt: Option<nat>, writeErr: string) returns (err: Option<string>)
      modifies this
      ensures msgType == old(msgType) && hasWriter == old(hasWriter)
      ensures !old(hasWriter) ==> err == Some(ErrClosed) && written == old(written)
                                  && notified == old(notified) + [ErrClosed] && isClose
      ensures old(hasWriter) ==>
                var r := SendFrom(v, 0, msgType, enc, failAt, writeErr);
                && err == r.err && written == old(written) + r.frames
                && notified == old(notified) + (if r.destroyed then [writeErr] else [])
                && isClose == (old(isClose) || r.destroyed)
    {
      if !hasWriter {
        err := Some(ErrClosed);
        Destroy(ErrClosed);
        return;
      }
      ghost var total := SendFrom(v, 0, msgType, enc, failAt, writeErr);
      ghost var done: seq<string> := [];
      var i := 0;
      while i < |v|
        invariant 0 <= i <= |v| && msgType == old(msgType) && hasWriter
        invariant notified == old(notified) && isClose == old(isClose)
        invariant written == old(written) + done
        invariant var rest := SendFrom(v, i, msgType, enc, failAt, writeErr);
                  total == SendRun(done + rest.frames, rest.err, rest.destroyed)
      {
        var f := BuildFrame(v[i], enc);
        SendFromStep(v, i, msgType, enc, failAt, writeErr);
        if f.Fail? {
          err := Some(f.err);
          assert done + [] == done;
          return;
        }
        if failAt == Some(i) {
          Destroy(writeErr);
          err := Some(writeErr);
          assert done + [] == done;
          return;
        }
        written := written + [f.s];
        ghost var rest := SendFrom(v, i + 1, msgType, enc, failAt, writeErr);
        WrittenAssoc(done, f.s, rest.frames);
        done := done + [f.s];
        i := i + 1;
      }
      assert done + [] == done;
      err := None;
    }
  }

  lemma WrittenAssoc(done: seq<string>, frame: string, rest: seq<string>)
    ensures done + ([frame] + rest) == (done + [frame]) + rest
  {
  }

  /** One step of `SendFrom`: the frame of response `i` either stops the
      run (an encoding error or a failed write) or is followed by the rest. */
  lemma SendFromStep(v: seq<Response>, i: nat, msgType: nat, enc: JsonInput -> Json, failAt: Option<nat>, writeErr: string)
    requires i < |v|
    ensures var r := SendFrom(v, i, msgType, enc, failAt, writeErr);
            var f := Frame(msgType, v[i], enc);
            && (f.Fail? ==> r == SendRun([], Some(f.err), false))
            && (f.Text? && failAt == Some(i) ==> r == SendRun([], Some(writeErr), true))
            && (f.Text? && failAt != Some(i) ==>
                  var rest := SendFrom(v, i + 1, msgType, enc, failAt, writeErr);
                  r == SendRun([f.s] + rest.frames, rest.err, rest.destroyed))
  {
  }

  /** Frame `k` written by a run from `i` is the frame of response `i + k`. */
  lemma {:induction false} SendFromFrames(v: seq<Response>, i: nat, msgType: nat, enc: JsonInput -> Json, failAt: Option<nat>, writeErr: string)
    requires i <= |v|
    ensures var r := SendFrom(v, i, msgType, enc, failAt, writeErr);
            forall k :: 0 <= k < |r.frames| ==> Frame(msgType, v[i + k], enc) == Text(r.frames[k])
    decreases |v| - i
  {
    if i < |v| {
      SendFromStep(v, i, msgType, enc, failAt, writeErr);
      SendFromFrames(v, i + 1, msgType, enc, failAt, writeErr);
    }
  }

  /** With no responses, `Send` writes nothing and returns nil. */
  lemma SendNothing(msgType: nat, enc: JsonInput -> Json, failAt: Option<nat>, writeErr: string)
    ensures SendFrom([], 0, msgType, enc, failAt, writeErr) == SendRun([], None, false)
  {
  }

  /** An unsupported message type writes nothing and reports itself. */
  lemma UnsupportedTypeWritesNothing(v: seq<Response>, msgType: nat, enc: JsonInput -> Json, failAt: Option<nat>, writeErr: string)
    requires v != [] && msgType != SSEEvent && msgType != SSEMessage
    ensures SendFrom(v, 0, msgType, enc, failAt, writeErr) == SendRun([], Some(ErrUnsupportType), false)
  {
  }

  // ---------------------------------------------------------------------
  // Reading an event stream (section 9.2.6 of the WHATWG HTML standard)

  /** The complete lines of `s`, each without its line feed, the first one
      starting with `cur`. Only LF ends a line here. */
  function LinesFrom(s: string, cur: string): seq<string>
    decreases |s|
  {
    if s == [] then []
    else if s[0] == '\n' then [cur] + LinesFrom(s[1..], "")
    else LinesFrom(s[1..], cur + [s[0]])
  }

  function Lines(s: string): seq<string>
  {
    LinesFrom(s, "")
  }

  lemma {:induction false} LinesFromLine(a: string, b: string, cur: string)
    requires '\n' !in a
    ensures LinesFrom(a + "\n" + b, cur) == [cur + a] + LinesFrom(b, "")
    decreases |a|
  {
    if a == [] {
      assert a + "\n" + b == "\n" + b;
      assert (a + "\n" + b)[1..] == b;
      assert cur + a == cur;
    } else {
      assert (a + "\n" + b)[0] == a[0];
      assert (a + "\n" + b)[1..] == a[1..] + "\n" + b;
      LinesFromLine(a[1..], b, cur + [a[0]]);
      assert cur + [a[0]] + a[1..] == cur + a;
    }
  }

  /** A line followed by a line feed is one line of the stream. */
  lemma LinesCons(a: string, b: string)
    requires '\n' !in a
    ensures Lines(a + "\n" + b) == [a] + Lines(b)
  {
    LinesFromLine(a, b, "");
    assert "" + a == a;
  }

  /** The field name (up to the first colon) and the rest of a line. */
  function SplitColon(line: string): (string, string, bool)
    decreases |line|
  {
    if line == [] then ("", "", false)
    else if line[0] == ':' then ("", line[1..], true)
    else
      var r := SplitColon(line[1..]);
      ([line[0]] + r.0, r.1, r.2)
  }

  /** A line's field name and value: the value follows the first colon,
      without one leading space; a line with no colon is a name alone. */
  function Field(line: string): (string, string)
  {
    var r := SplitColon(line);
    if !r.2 then (line, "")
    else if r.1 != [] && r.1[0] == ' ' then (r.0, r.1[1..])
    else (r.0, r.1)
  }

  lemma {:induction false} SplitColonNamed(n: string, v: string)
    requires ':' !in n
    ensures SplitColon(n + ":" + v) == (n, v, true)
    decreases |n|
  {
    if n == [] {
      assert n + ":" + v == ":" + v;
      assert (":" + v)[1..] == v;
    } else {
      assert (n + ":" + v)[1..] == n[1..] + ":" + v;
      SplitColonNamed(n[1..], v);
      assert [n[0]] + n[1..] == n;
    }
  }

  lemma FieldNamed(n: string, v: string)
    requires ':' !in n
    ensures Field(n + ": " + v) == (n, v)
  {
    assert n + ": " + v == n + ":" + (" " + v);
    SplitColonNamed(n, " " + v);
    assert (" " + v)[1..] == v;
  }

  /** An event dispatched to the page: its type, data and last event ID. */
  datatype Event = Event(kind: string, data: string, id: string)

  /** The reader's buffers: event type, data and last event ID. */
  datatype Reader = Reader(kind: string, data: string, lastId: string)

  /** Processing one field. */
  function Process(st: Reader, name: string, value: string): Reader
  {
    if name == "event" then st.(kind := value)
    else if name == "data" then st.(data := st.data + value + "\n")
    else if name == "id" && '\0' !in value then st.(lastId := value)
    else st
  }

  /** The data buffer without its final line feed. */
  function Chomp(d: string): string
  {
    if d != [] && d[|d| - 1] == '\n' then d[..|d| - 1] else d
  }

  /** Interpreting lines: a blank line dispatches the buffered event (none
      when the data buffer is empty), a line starting with a colon is a
      comment, any other line is a field. */
  function Interpret(lines: seq<string>, st: Reader): (seq<Event>, Reader)
    decreases |lines|
  {
    if lines == [] then ([], st)
    else
      var line := lines[0];
      if line == "" then
        if st.data == "" then Interpret(lines[1..], st.(kind := ""))
        else
          var ev := Event(if st.kind == "" then "message" else st.kind, Chomp(st.data), st.lastId);
          var r := Interpret(lines[1..], Reader("", "", st.lastId));
          ([ev] + r.0, r.1)
      else if line[0] == ':' then Interpret(lines[1..], st)
      else
        var f := Field(line);
        Interpret(lines[1..], Process(st, f.0, f.1))
  }

  /** A field line `name: value` is processed as that field. */
  lemma InterpretField(name: string, value: string, rest: seq<string>, st: Reader)
    requires ':' !in name && name != []
    ensures Interpret([name + ": " + value] + rest, st) == Interpret(rest, Process(st, name, value))
  {
    var line := name + ": " + value;
    FieldNamed(name, value);
    assert line[0] == name[0] && line != [];
    assert ([line] + rest)[0] == line && ([line] + rest)[1..] == rest;
  }

  /** The data buffer of one line loses its line feed on dispatch. */
  lemma ChompLine(t: string)
    ensures Chomp(t + "\n") == t
  {
    assert (t + "\n")[..|t|] == t;
  }

  /** The two blank lines that end every frame. */
  lemma BlankPair()
    ensures Lines("\n\n") == ["", ""]
  {
    LinesCons("", "");
    assert Lines("") == [];
    LinesCons("", "\n");
    assert "" + "\n" + "" == "\n";
    assert "" + "\n" + "\n" == "\n\n";
  }

  /** The two blank lines after a frame's fields: the first dispatches the
      buffered event, if there is data, and the second finds nothing. */
  lemma BlankLines(st: Reader)
    ensures st.data == "" ==> Interpret(["", ""], st).0 == []
    ensures st.data != "" ==>
              Interpret(["", ""], st).0 == [Event(if st.kind == "" then "message" else st.kind, Chomp(st.data), st.lastId)]
  {
    assert ["", ""][1..] == [""];
    assert [""][1..] == [];
  }

  /** A text with no line break and no NUL. */
  predicate OneLine(s: string)
  {
    '\n' !in s && '\0' !in s
  }

  /** A field line at the head of a stream is processed as that field. */
  lemma FieldLine(name: string, value: string, rest: string, st: Reader)
    requires ':' !in name && name != [] && '\n' !in name && '\n' !in value
    ensures Interpret(Lines(name + ": " + value + "\n" + rest), st) == Interpret(Lines(rest), Process(st, name, value))
  {
    LinesCons(name + ": " + value, rest);
    InterpretField(name, value, Lines(rest), st);
  }

  /** A data line and the blank lines, read with an empty data buffer,
      dispatch one event carrying that line's value. */
  lemma DataDispatch(t: string, st: Reader)
    requires OneLine(t) && st.data == ""
    ensures Interpret(Lines("data: " + t + "\n" + "\n\n"), st).0
            == [Event(if st.kind == "" then "message" else st.kind, t, st.lastId)]
  {
    assert "data: " + t == "data" + ": " + t;
    FieldLine("data", t, "\n\n", st);
    BlankPair();
    assert "" + t + "\n" == t + "\n";
    ChompLine(t);
    BlankLines(st.(data := t + "\n"));
  }

  /** The event and data lines of an event frame, read from empty type and
      data buffers, dispatch one event. */
  lemma EventBody(cmd: string, t: string, st: Reader)
    requires OneLine(cmd) && OneLine(t)
    requires st.kind == "" && st.data == ""
    ensures Interpret(Lines("event: " + cmd + "\n" + ("data: " + t + "\n" + "\n\n")), st).0
            == [Event(if cmd == "" then "message" else cmd, t, st.lastId)]
  {
    assert "event: " + cmd == "event" + ": " + cmd;
    FieldLine("event", cmd, "data: " + t + "\n" + "\n\n", st);
    DataDispatch(t, st.(kind := cmd));
  }

  /** An id line at the head of a stream sets the last event ID. */
  lemma IdLine(id: string, rest: string, st: Reader)
    requires OneLine(id)
    ensures Interpret(Lines("id: " + id + "\n" + rest), st) == Interpret(Lines(rest), st.(lastId := id))
  {
    assert "id: " + id == "id" + ": " + id;
    FieldLine("id", id, rest, st);
  }

  /** An event frame is the optional id line followed by its body. */
  lemma EventFrameText(resp: Response, enc: JsonInput -> Json, body: string)
    requires resp.data == Nil ==> body == "event: " + resp.cmd + "\n" + "\n\n"
    requires resp.data != Nil ==> enc(DataOf(resp.data)).Json? && body == "event: " + resp.cmd + "\n" + ("data: " + enc(DataOf(resp.data)).text + "\n" + "\n\n")
    ensures resp.seqno != "" ==> Frame(SSEEvent, resp, enc) == Text("id: " + resp.seqno + "\n" + body)
    ensures resp.seqno == "" ==> Frame(SSEEvent, resp, enc) == Text(body)
  {
  }

  /** In event mode, a response with Data reaches a reader as exactly one
      event whose type is the command (or "message" for an empty command),
      whose data is the encoded Data, and whose ID is the sequence number
      (or the previous ID when the sequence number is empty). Code and Msg
      are not sent. */
  lemma EventFrameDelivered(resp: Response, enc: JsonInput -> Json, lastId: string)
    requires resp.data != Nil && enc(DataOf(resp.data)).Json?
    requires OneLine(resp.seqno) && OneLine(resp.cmd) && OneLine(enc(DataOf(resp.data)).text)
    ensures var f := Frame(SSEEvent, resp, enc);
            var t := enc(DataOf(resp.data)).text;
            && f.Text?
            && Interpret(Lines(f.s), Reader("", "", lastId)).0
               == [Event(if resp.cmd == "" then "message" else resp.cmd, t,
                         if resp.seqno != "" then resp.seqno else lastId)]
  {
    var t := enc(DataOf(resp.data)).text;
    var body := "event: " + resp.cmd + "\n" + ("data: " + t + "\n" + "\n\n");
    var st := Reader("", "", lastId);
    EventFrameText(resp, enc, body);
    if resp.seqno != "" {
      IdLine(resp.seqno, body, st);
      EventBody(resp.cmd, t, st.(lastId := resp.seqno));
    } else {
      EventBody(resp.cmd, t, st);
    }
  }

  /** In event mode, a response whose Data is nil produces a frame with no
      data line, which a reader drops without dispatching any event. */
  lemma EventWithoutDataIsDropped(resp: Response, enc: JsonInput -> Json, lastId: string)
    requires resp.data == Nil
    requires OneLine(resp.seqno) && OneLine(resp.cmd)
    ensures var f := Frame(SSEEvent, resp, enc);
            f.Text? && Interpret(Lines(f.s), Reader("", "", lastId)).0 == []
  {
    var body := "event: " + resp.cmd + "\n" + "\n\n";
    var st := Reader("", "", lastId);
    var st1 := if resp.seqno != "" then st.(lastId := resp.seqno) else st;
    EventFrameText(resp, enc, body);
    assert "event: " + resp.cmd == "event" + ": " + resp.cmd;
    FieldLine("event", resp.cmd, "\n\n", st1);
    BlankPair();
    BlankLines(st1.(kind := resp.cmd));
    if resp.seqno != "" {
      IdLine(resp.seqno, body, st);
    }
  }

  /** In message mode, every response reaches a reader as one event of
      type "message" whose data is the encoded envelope. */
  lemma MessageFrameDelivered(resp: Response, enc: JsonInput -> Json, lastId: string)
    requires enc(Envelope(resp.cmd, resp.seqno, resp.code, resp.msg, resp.data)).Json?
    requires OneLine(enc(Envelope(resp.cmd, resp.seqno, resp.code, resp.msg, resp.data)).text)
    ensures var f := Frame(SSEMessage, resp, enc);
            var t := enc(Envelope(resp.cmd, resp.seqno, resp.code, resp.msg, resp.data)).text;
            f.Text? && Interpret(Lines(f.s), Reader("", "", lastId)).0 == [Event("message", t, lastId)]
  {
    var t := enc(Envelope(resp.cmd, resp.seqno, resp.code, resp.msg, resp.data)).text;
    assert Frame(SSEMessage, resp, enc) == Text("data: " + t + "\n" + "\n\n");
    DataDispatch(t, Reader("", "", lastId));
  }
}

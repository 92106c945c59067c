/** Demultiplexing a pod exec stream: channels 1 to 3 of the frames, captured under a byte limit. */
module ExecStream {
  import Sorting
  import opened WebSocket

  const MEBIBYTE := 1024 * 1024
  const OP_TEXT: Byte := 0x1
  const OP_BINARY: Byte := 0x2
  const OP_CLOSE: Byte := 0x8
  const OP_PING: Byte := 0x9
  const OP_PONG: Byte := 0xA

  function MaxExecResponseBytes(limitBytes: int): (limit: nat)
    ensures 0 < limit <= MEBIBYTE
    ensures 0 < limitBytes <= MEBIBYTE ==> limit == limitBytes
    ensures limitBytes <= 0 || limitBytes > MEBIBYTE ==> limit == MEBIBYTE
  {
    if limitBytes > 0 && limitBytes < MEBIBYTE then limitBytes else MEBIBYTE
  }

  type FrameContent = (Byte, Bytes)

  /** How a status message is judged: the exit code found in it, and whether it is blank. */
  datatype StatusReading = StatusReading(code: Bytes -> int, blank: Bytes -> bool)

  datatype Capture = Capture(stdout: Bytes, stderr: Bytes, exitCode: int)

  const NOTHING := Capture([], [], 0)

  // ----- One frame -----

  function Clip(s: Bytes, limit: nat): Bytes {
    if |s| <= limit then s else s[..limit]
  }

  /** The beginning of the data: all of it, or as much as the limit allows. */
  ghost predicate IsClip(out: Bytes, data: Bytes, limit: nat) {
    out <= data && |out| == if |data| <= limit then |data| else limit
  }

  lemma ClipIs(data: Bytes, limit: nat)
    ensures IsClip(Clip(data, limit), data, limit)
  {
  }

  /** Appends as much as the limit still allows. */
  method WriteLimited(dst: Bytes, data: Bytes, limit: nat) returns (dst': Bytes)
    ensures |dst| <= limit ==> dst' == Clip(dst + data, limit) && IsClip(dst', dst + data, limit)
    ensures |dst| >= limit ==> dst' == dst
  {
    var remain := limit - |dst|;
    if remain <= 0 {
      assert |dst| == limit ==> (dst + data)[..limit] == dst;
      assert |dst| == limit && data == [] ==> dst + data == dst;
      return dst;
    }
    var cut := data;
    if |cut| > remain { cut := cut[..remain]; }
    assert |data| > remain ==> (dst + data)[..limit] == dst + data[..remain];
    return dst + cut;
  }

  predicate CarriesData(f: FrameContent) {
    (f.0 == OP_TEXT || f.0 == OP_BINARY) && |f.1| > 0
  }

  /** The channel a frame writes to: 0 when it writes to none. */
  function Channel(f: FrameContent): nat {
    if CarriesData(f) && (f.1[0] == 1 || f.1[0] == 2 || f.1[0] == 3) then f.1[0] as int else 0
  }

  function Data(f: FrameContent): Bytes {
    if Channel(f) != 0 then f.1[1..] else []
  }

  function NextExitCode(code: int, data: Bytes, st: StatusReading): int {
    if st.code(data) != 0 then st.code(data)
    else if !st.blank(data) && code == 0 then 1
    else code
  }

  function Handle(c: Capture, f: FrameContent, limit: nat, st: StatusReading): Capture {
    match Channel(f)
    case 1 => c.(stdout := Clip(c.stdout + Data(f), limit))
    case 2 => c.(stderr := Clip(c.stderr + Data(f), limit))
    case 3 => c.(stderr := Clip(c.stderr + Data(f), limit), exitCode := NextExitCode(c.exitCode, Data(f), st))
    case _ => c
  }

  /** A text or binary frame whose first byte names the channel. */
  ghost predicate On(f: FrameContent, channel: Byte) {
    (f.0 == 0x1 || f.0 == 0x2) && f.1 != [] && f.1[0] == channel
  }

  /** One frame, by its first byte: 1 adds the other bytes to the output, 2 and 3 add them to the error output, and
      3 may set the exit code; any other frame changes nothing. */
  lemma HandleByFirstByte(c: Capture, f: FrameContent, limit: nat, st: StatusReading)
    ensures var c' := Handle(c, f, limit, st);
      && (if On(f, 1) then IsClip(c'.stdout, c.stdout + f.1[1..], limit) else c'.stdout == c.stdout)
      && (if On(f, 2) || On(f, 3) then IsClip(c'.stderr, c.stderr + f.1[1..], limit) else c'.stderr == c.stderr)
      && (if On(f, 3) then
            c'.exitCode == (if st.code(f.1[1..]) != 0 then st.code(f.1[1..])
                            else if c.exitCode == 0 && !st.blank(f.1[1..]) then 1 else c.exitCode)
          else c'.exitCode == c.exitCode)
  {
    if f.1 != [] {
      ClipIs(c.stdout + f.1[1..], limit);
      ClipIs(c.stderr + f.1[1..], limit);
    }
  }

  predicate Full(c: Capture, limit: nat) {
    |c.stdout| + |c.stderr| >= limit
  }

  // ----- The whole stream -----

  /** Why the loop ended; only a broken stream is an error to the caller. */
  datatype Ending = LimitReached | Closed | EndOfInput | Broken(error: Error)

  datatype Session = Session(capture: Capture, consumed: seq<FrameContent>, ending: Ending)

  /** What the next turn of the loop finds. */
  datatype Turn = Halt(ending: Ending) | Take(content: FrameContent, rest: Bytes)

  lemma ParsedPayloadBound(s: Bytes)
    ensures Parse(s).Frame? ==> |Parse(s).payload| <= MAX_PAYLOAD
  {
  }

  function NextTurn(s: Bytes, c: Capture, limit: nat): (t: Turn)
    ensures t.Take? ==> |t.rest| < |s| && |t.content.1| <= MAX_PAYLOAD && t.content.0 != OP_CLOSE
  {
    if Full(c, limit) then Halt(LimitReached)
    else match Parse(s)
      case Failed(e) => Halt(if e == Eof then EndOfInput else Broken(e))
      case Frame(op, payload, rest) =>
        ParseShrinks(s);
        ParsedPayloadBound(s);
        if op == OP_CLOSE then Halt(Closed) else Take((op, payload), rest)
  }

  function Read(s: Bytes, c: Capture, limit: nat, st: StatusReading): Session
    decreases |s|
  {
    match NextTurn(s, c, limit)
    case Halt(ending) => Session(c, [], ending)
    case Take(content, rest) =>
      var r := Read(rest, Handle(c, content, limit, st), limit, st);
      r.(consumed := [content] + r.consumed)
  }

  /** The pongs owed for the pings of a stream, each with the ping's payload. */
  function PongsFor(fs: seq<FrameContent>): seq<FrameContent> {
    if fs == [] then [] else (if fs[0].0 == OP_PING then [(OP_PONG, fs[0].1)] else []) + PongsFor(fs[1..])
  }

  predicate IsPing(f: FrameContent) {
    f.0 == 0x9
  }

  predicate Pongs(ping: FrameContent, pong: FrameContent) {
    pong.0 == 0xA && pong.1 == ping.1
  }

  /** One pong for each ping, in order, with the same payload. */
  lemma {:induction false} PongsExact(fs: seq<FrameContent>)
    ensures Sorting.Picks(IsPing, Pongs, fs, PongsFor(fs))
    decreases |fs|
  {
    if fs != [] {
      var head, rest := fs[0], fs[1..];
      PongsExact(rest);
      var own := if IsPing(head) then [(OP_PONG, head.1)] else [];
      Sorting.PicksCons(IsPing, Pongs, head, own, rest, PongsFor(rest));
      assert [head] + rest == fs;
    }
  }

  lemma PongsSnoc(fs: seq<FrameContent>, f: FrameContent)
    ensures PongsFor(fs + [f]) == PongsFor(fs) + if f.0 == OP_PING then [(OP_PONG, f.1)] else []
    decreases |fs|
  {
    if fs == [] {
      assert fs + [f] == [f];
    } else {
      assert (fs + [f])[1..] == fs[1..] + [f];
      PongsSnoc(fs[1..], f);
    }
  }

  lemma StreamCons(m: Message, rest: seq<Message>)
    requires Writable(m) && AllWritable(rest)
    ensures AllWritable([m] + rest) && Stream([m] + rest) == Wire(m) + Stream(rest)
  {
    var all := [m] + rest;
    assert all[0] == m && all[1..] == rest;
  }

  lemma JoinThree(a: Bytes, b: Bytes, c: Bytes)
    ensures a + (b + c) == (a + b) + c
  {
  }

  lemma {:induction false} StreamSnoc(ms: seq<Message>, m: Message)
    requires AllWritable(ms) && Writable(m)
    ensures AllWritable(ms + [m]) && Stream(ms + [m]) == Stream(ms) + Wire(m)
    decreases |ms|
  {
    if ms == [] {
      assert ms + [m] == [m] + [];
      StreamCons(m, []);
    } else {
      var first, rest := ms[0], ms[1..];
      assert ms == [first] + rest && ms + [m] == [first] + (rest + [m]);
      StreamSnoc(rest, m);
      StreamCons(first, rest);
      StreamCons(first, rest + [m]);
      JoinThree(Wire(first), Stream(rest), Wire(m));
    }
  }

  /** The session seen from the middle of the loop. */
  ghost predicate Reading(session: Session, input: Bytes, c: Capture, consumed: seq<FrameContent>, limit: nat,
                          st: StatusReading) {
    var r := Read(input, c, limit, st);
    session == r.(consumed := consumed + r.consumed)
  }

  lemma ReadingTakes(session: Session, input: Bytes, c: Capture, consumed: seq<FrameContent>, limit: nat,
                     st: StatusReading)
    requires Reading(session, input, c, consumed, limit, st)
    ensures var t := NextTurn(input, c, limit);
      if t.Take? then Reading(session, t.rest, Handle(c, t.content, limit, st), consumed + [t.content], limit, st)
      else session == Session(c, consumed, t.ending)
  {
    var t := NextTurn(input, c, limit);
    if t.Take? {
      var r := Read(t.rest, Handle(c, t.content, limit, st), limit, st);
      assert consumed + ([t.content] + r.consumed) == (consumed + [t.content]) + r.consumed;
    } else {
      assert consumed + [] == consumed;
    }
  }

  /** The pongs written so far answer the pings consumed so far. */
  ghost predicate Answered(out: Bytes, before: Bytes, pongs: seq<Message>, consumed: seq<FrameContent>) {
    AllWritable(pongs) && out == before + Stream(pongs) && Contents(pongs) == PongsFor(consumed)
  }

  lemma ContentsSnoc(ms: seq<Message>, m: Message)
    ensures Contents(ms + [m]) == Contents(ms) + [(m.opcode, m.payload)]
  {
    var whole, parts := Contents(ms + [m]), Contents(ms) + [(m.opcode, m.payload)];
    assert forall i :: 0 <= i <= |ms| ==> whole[i] == parts[i];
  }

  /** One more message on the wire, answering one more frame. */
  lemma OneAnswer(out: Bytes, before: Bytes, pongs: seq<Message>, consumed: seq<FrameContent>, f: FrameContent,
                  pong: Message)
    requires Answered(out, before, pongs, consumed) && Writable(pong)
    requires f.0 == OP_PING && (pong.opcode, pong.payload) == (OP_PONG, f.1)
    ensures Answered(out + Wire(pong), before, pongs + [pong], consumed + [f])
  {
    StreamSnoc(pongs, pong);
    PongsSnoc(consumed, f);
    ContentsSnoc(pongs, pong);
    JoinThree(before, Stream(pongs), Wire(pong));
  }

  lemma OnePong(out: Bytes, before: Bytes, pongs: seq<Message>, consumed: seq<FrameContent>, payload: Bytes, key: Bytes)
    requires |payload| <= MAX_PAYLOAD && |key| == 4 && Answered(out, before, pongs, consumed)
    ensures Answered(out + Encode(OP_PONG, payload, key), before, pongs + [Message(OP_PONG, payload, key)],
      consumed + [(OP_PING, payload)])
  {
    OneAnswer(out, before, pongs, consumed, (OP_PING, payload), Message(OP_PONG, payload, key));
  }

  /** A pong with the ping's payload, under a random mask key. */
  method AnswerPing(w: Writer, payload: Bytes, ghost before: Bytes, ghost pongs: seq<Message>,
                    ghost consumed: seq<FrameContent>)
    returns (ghost pongs': seq<Message>)
    requires |payload| <= MAX_PAYLOAD && Answered(w.out, before, pongs, consumed)
    modifies w
    ensures Answered(w.out, before, pongs', consumed + [(OP_PING, payload)])
  {
    var k0: Byte, k1: Byte, k2: Byte, k3: Byte := *, *, *, *;
    var key := [k0, k1, k2, k3];
    OnePong(w.out, before, pongs, consumed, payload, key);
    w.WriteFrame(OP_PONG, payload, key);
    pongs' := pongs + [Message(OP_PONG, payload, key)];
  }

  lemma NoPong(out: Bytes, before: Bytes, pongs: seq<Message>, consumed: seq<FrameContent>, f: FrameContent)
    requires Answered(out, before, pongs, consumed) && f.0 != OP_PING
    ensures Answered(out, before, pongs, consumed + [f])
  {
    PongsSnoc(consumed, f);
  }

  /** Writes one data frame to its channel. */
  method Dispatch(c: Capture, opcode: Byte, payload: Bytes, limit: nat, st: StatusReading) returns (c': Capture)
    requires (opcode == OP_TEXT || opcode == OP_BINARY) && |payload| > 0
    requires |c.stdout| <= limit && |c.stderr| <= limit
    ensures c' == Handle(c, (opcode, payload), limit, st)
    ensures |c'.stdout| <= limit && |c'.stderr| <= limit
  {
    var channel, data := payload[0], payload[1..];
    c' := c;
    if channel == 1 {
      var out := WriteLimited(c.stdout, data, limit);
      c' := c.(stdout := out);
    } else if channel == 2 {
      var out := WriteLimited(c.stderr, data, limit);
      c' := c.(stderr := out);
    } else if channel == 3 {
      var out := WriteLimited(c.stderr, data, limit);
      c' := c.(stderr := out);
      var code := st.code(data);
      if code != 0 {
        c' := c'.(exitCode := code);
      } else if !st.blank(data) && c.exitCode == 0 {
        c' := c'.(exitCode := 1);
      }
    }
  }

  /** What the loop does with a frame that is not a close. */
  method Turnover(w: Writer, c: Capture, opcode: Byte, payload: Bytes, limit: nat, st: StatusReading,
                  ghost before: Bytes, ghost pongs: seq<Message>, ghost consumed: seq<FrameContent>)
    returns (c': Capture, ghost pongs': seq<Message>)
    requires |payload| <= MAX_PAYLOAD && Answered(w.out, before, pongs, consumed)
    requires |c.stdout| <= limit && |c.stderr| <= limit
    modifies w
    ensures c' == Handle(c, (opcode, payload), limit, st)
    ensures |c'.stdout| <= limit && |c'.stderr| <= limit
    ensures Answered(w.out, before, pongs', consumed + [(opcode, payload)])
  {
    c', pongs' := c, pongs;
    if opcode == OP_PING {
      pongs' := AnswerPing(w, payload, before, pongs, consumed);
    } else {
      NoPong(w.out, before, pongs, consumed, (opcode, payload));
      if (opcode == OP_TEXT || opcode == OP_BINARY) && |payload| > 0 {
        c' := Dispatch(c, opcode, payload, limit, st);
      }
    }
  }

  /** The loop of the exec call: reads frames, answers pings, captures output, stops at the limit, at a
      close frame or at the end of the input. The mask keys of the pongs are random. */
  method ReadExec(r: Reader, w: Writer, limitBytes: int, st: StatusReading)
    returns (c: Capture, err: bool, ghost session: Session, ghost pongs: seq<Message>)
    modifies r, w
    ensures session == Read(old(r.input), NOTHING, MaxExecResponseBytes(limitBytes), st)
    ensures c == session.capture && err == session.ending.Broken?
    ensures Answered(w.out, old(w.out), pongs, session.consumed)
  {
    var limit := MaxExecResponseBytes(limitBytes);
    session := Read(r.input, NOTHING, limit, st);
    c, pongs, err := NOTHING, [], false;
    ghost var consumed: seq<FrameContent> := [];
    while |c.stdout| + |c.stderr| < limit
      invariant |c.stdout| <= limit && |c.stderr| <= limit && !err
      invariant Reading(session, r.input, c, consumed, limit, st)
      invariant Answered(w.out, old(w.out), pongs, consumed)
      decreases |r.input|
    {
      ReadingTakes(session, r.input, c, consumed, limit, st);
      ghost var t := NextTurn(r.input, c, limit);
      var f := r.ReadFrame();
      if f.Failed? { return c, f.error != Eof, session, pongs; }
      if f.opcode == OP_CLOSE { return; }
      assert t == Take((f.opcode, f.payload), r.input);
      c, pongs := Turnover(w, c, f.opcode, f.payload, limit, st, old(w.out), pongs, consumed);
      consumed := consumed + [(f.opcode, f.payload)];
    }
    ReadingTakes(session, r.input, c, consumed, limit, st);
  }

  // ----- What is captured -----

  /** What follows the first byte of the text and binary frames that begin with one of the given bytes, in order. */
  ghost function DataOn(fs: seq<FrameContent>, channels: set<Byte>): Bytes {
    if fs == [] then []
    else
      var f := fs[|fs| - 1];
      DataOn(fs[..|fs| - 1], channels) +
      if (f.0 == 0x1 || f.0 == 0x2) && f.1 != [] && f.1[0] in channels then f.1[1..] else []
  }

  ghost function Replayed(fs: seq<FrameContent>, limit: nat, st: StatusReading): Capture {
    if fs == [] then NOTHING else Handle(Replayed(fs[..|fs| - 1], limit, st), fs[|fs| - 1], limit, st)
  }

  lemma ClipAppend(x: Bytes, data: Bytes, limit: nat)
    ensures Clip(Clip(x, limit) + data, limit) == Clip(x + data, limit)
  {
  }

  lemma {:induction false} ReplayedData(fs: seq<FrameContent>, limit: nat, st: StatusReading)
    ensures Replayed(fs, limit, st).stdout == Clip(DataOn(fs, {1}), limit)
    ensures Replayed(fs, limit, st).stderr == Clip(DataOn(fs, {2, 3}), limit)
    decreases |fs|
  {
    if fs != [] {
      var front, last := fs[..|fs| - 1], fs[|fs| - 1];
      ReplayedData(front, limit, st);
      assert DataOn(front, {1}) + [] == DataOn(front, {1}) && DataOn(front, {2, 3}) + [] == DataOn(front, {2, 3});
      if last.1 != [] {
        ClipAppend(DataOn(front, {1}), last.1[1..], limit);
        ClipAppend(DataOn(front, {2, 3}), last.1[1..], limit);
      }
    }
  }

  /** No proper prefix of the frames reaches the limit. */
  ghost predicate OpenUntilLast(fs: seq<FrameContent>, limit: nat, st: StatusReading) {
    forall n :: 0 <= n < |fs| ==> !Full(Replayed(fs[..n], limit, st), limit)
  }

  lemma OpenSnoc(fs: seq<FrameContent>, f: FrameContent, limit: nat, st: StatusReading)
    requires OpenUntilLast(fs, limit, st) && !Full(Replayed(fs, limit, st), limit)
    ensures OpenUntilLast(fs + [f], limit, st)
    ensures Replayed(fs + [f], limit, st) == Handle(Replayed(fs, limit, st), f, limit, st)
  {
    var fs' := fs + [f];
    assert fs'[..|fs|] == fs;
    forall n | 0 <= n < |fs'| ensures !Full(Replayed(fs'[..n], limit, st), limit) {
      if n < |fs| { assert fs'[..n] == fs[..n]; }
    }
  }

  lemma ConsumedMore(done: seq<FrameContent>, f: FrameContent, tail: seq<FrameContent>)
    ensures done + ([f] + tail) == (done + [f]) + tail
  {
  }

  lemma ReadFrom(s: Bytes, c: Capture, done: seq<FrameContent>, limit: nat, st: StatusReading)
    requires NextTurn(s, c, limit).Take?
    ensures var t := NextTurn(s, c, limit);
      var r' := Read(t.rest, Handle(c, t.content, limit, st), limit, st);
      && Read(s, c, limit, st).capture == r'.capture
      && done + Read(s, c, limit, st).consumed == (done + [t.content]) + r'.consumed
  {
    var t := NextTurn(s, c, limit);
    var tail := Read(t.rest, Handle(c, t.content, limit, st), limit, st).consumed;
    ConsumedMore(done, t.content, tail);
  }

  /** The frames consumed from a state are those after it; none is consumed once the limit is reached. */
  lemma {:induction false} ReadReplays(s: Bytes, c: Capture, done: seq<FrameContent>, limit: nat, st: StatusReading)
    requires OpenUntilLast(done, limit, st) && c == Replayed(done, limit, st)
    ensures Read(s, c, limit, st).capture == Replayed(done + Read(s, c, limit, st).consumed, limit, st)
    ensures OpenUntilLast(done + Read(s, c, limit, st).consumed, limit, st)
    decreases |s|
  {
    var t := NextTurn(s, c, limit);
    if t.Halt? {
      assert done + [] == done;
    } else {
      OpenSnoc(done, t.content, limit, st);
      var done', c' := done + [t.content], Handle(c, t.content, limit, st);
      ReadReplays(t.rest, c', done', limit, st);
      ReadFrom(s, c, done, limit, st);
    }
  }

  /** Every status message is blank and names no code. */
  ghost predicate AllSucceeded(fs: seq<FrameContent>, st: StatusReading) {
    forall i :: 0 <= i < |fs| && On(fs[i], 3) ==> st.code(fs[i].1[1..]) == 0 && st.blank(fs[i].1[1..])
  }

  /** The last status message that names a code, if there is one, is at `i`. */
  ghost predicate LastCode(fs: seq<FrameContent>, st: StatusReading, i: nat) {
    && i < |fs| && On(fs[i], 3) && st.code(fs[i].1[1..]) != 0
    && forall j :: i < j < |fs| && On(fs[j], 3) ==> st.code(fs[j].1[1..]) == 0
  }

  ghost predicate NamesNoCode(fs: seq<FrameContent>, st: StatusReading) {
    forall i :: 0 <= i < |fs| && On(fs[i], 3) ==> st.code(fs[i].1[1..]) == 0
  }

  /** The exit code is the last one named; when none is, it is 0 or 1, by whether all messages are blank. */
  ghost predicate ExitCodeOf(code: int, fs: seq<FrameContent>, st: StatusReading) {
    && (forall i: nat :: LastCode(fs, st, i) ==> code == st.code(fs[i].1[1..]))
    && (NamesNoCode(fs, st) ==> code == if AllSucceeded(fs, st) then 0 else 1)
  }

  lemma {:induction false} ExitCodeExact(fs: seq<FrameContent>, limit: nat, st: StatusReading)
    ensures ExitCodeOf(Replayed(fs, limit, st).exitCode, fs, st)
    ensures Replayed(fs, limit, st).exitCode == 0 <==> AllSucceeded(fs, st)
    decreases |fs|
  {
    if fs != [] {
      var n := |fs| - 1;
      var front, last := fs[..n], fs[n];
      ExitCodeExact(front, limit, st);
      HandleByFirstByte(Replayed(front, limit, st), last, limit, st);
      assert forall i :: 0 <= i < n ==> front[i] == fs[i];
      forall i: nat | LastCode(fs, st, i) ensures Replayed(fs, limit, st).exitCode == st.code(fs[i].1[1..]) {
        if i < n { assert LastCode(front, st, i); }
      }
    }
  }

  /** A session's capture is that of its frames, and no frame was consumed past the limit. */
  lemma ReadIsReplay(s: Bytes, limit: nat, st: StatusReading)
    ensures var r := Read(s, NOTHING, limit, st);
      r.capture == Replayed(r.consumed, limit, st) && OpenUntilLast(r.consumed, limit, st)
  {
    ReadReplays(s, NOTHING, [], limit, st);
    assert [] + Read(s, NOTHING, limit, st).consumed == Read(s, NOTHING, limit, st).consumed;
  }

  /** What frames leave behind when no proper prefix of them reaches the limit. */
  lemma ReplayedBounds(fs: seq<FrameContent>, limit: nat, st: StatusReading)
    requires limit > 0 && OpenUntilLast(fs, limit, st)
    ensures var c, n := Replayed(fs, limit, st), |fs|;
      && c.stdout == Clip(DataOn(fs, {1}), limit) && c.stderr == Clip(DataOn(fs, {2, 3}), limit)
      && (n > 0 ==> |DataOn(fs[..n - 1], {1})| + |DataOn(fs[..n - 1], {2, 3})| < limit)
      && |c.stdout| <= limit && |c.stderr| <= limit && |c.stdout| + |c.stderr| <= 2 * limit - 1
  {
    ReplayedData(fs, limit, st);
    var n := |fs|;
    if n > 0 {
      var front := fs[..n - 1];
      ReplayedData(front, limit, st);
      assert !Full(Replayed(front, limit, st), limit);
    }
  }

  /** Whatever the peer sends: each output is the in-order data of the frames that begin with its bytes, up to the
      limit; only the last consumed frame can have been cut, the two outputs together stay below twice the limit,
      and the exit code is the last one named, zero exactly when every status message is blank and names none. */
  lemma CapturedOutput(s: Bytes, limitBytes: int, st: StatusReading)
    ensures
      var limit := MaxExecResponseBytes(limitBytes);
      var r := Read(s, NOTHING, limit, st);
      var n := |r.consumed|;
      && IsClip(r.capture.stdout, DataOn(r.consumed, {1}), limit)
      && IsClip(r.capture.stderr, DataOn(r.consumed, {2, 3}), limit)
      && (n > 0 ==> |DataOn(r.consumed[..n - 1], {1})| + |DataOn(r.consumed[..n - 1], {2, 3})| < limit)
      && |r.capture.stdout| <= limit && |r.capture.stderr| <= limit
      && |r.capture.stdout| + |r.capture.stderr| <= 2 * limit - 1
      && ExitCodeOf(r.capture.exitCode, r.consumed, st)
      && (r.capture.exitCode == 0 <==> AllSucceeded(r.consumed, st))
  {
    var limit := MaxExecResponseBytes(limitBytes);
    var r := Read(s, NOTHING, limit, st);
    ReadIsReplay(s, limit, st);
    ReplayedBounds(r.consumed, limit, st);
    ClipIs(DataOn(r.consumed, {1}), limit);
    ClipIs(DataOn(r.consumed, {2, 3}), limit);
    ExitCodeExact(r.consumed, limit, st);
  }

  /** A non-zero exit code never returns to zero. */
  lemma ExitCodeSticks(s: Bytes, c: Capture, limit: nat, st: StatusReading)
    requires c.exitCode != 0
    ensures Read(s, c, limit, st).capture.exitCode != 0
    decreases |s|
  {
    var t := NextTurn(s, c, limit);
    if t.Take? { ExitCodeSticks(t.rest, Handle(c, t.content, limit, st), limit, st); }
  }

  // ----- From the server's messages to the captured output -----

  /** What the frames of a well-formed stream give, without the wire format. */
  function Demultiplex(fs: seq<FrameContent>, c: Capture, limit: nat, st: StatusReading): Capture
    decreases |fs|
  {
    if |c.stdout| + |c.stderr| >= limit || fs == [] || fs[0].0 == 0x8 then c
    else Demultiplex(fs[1..], Handle(c, fs[0], limit, st), limit, st)
  }

  /** End to end: the bytes of any message sequence, masked or not, give the capture of its messages,
      and the stream is never reported broken. */
  lemma {:induction false} StreamCapture(ms: seq<Message>, c: Capture, limit: nat, st: StatusReading)
    requires AllWritable(ms)
    ensures Read(Stream(ms), c, limit, st).capture == Demultiplex(Contents(ms), c, limit, st)
    ensures !Read(Stream(ms), c, limit, st).ending.Broken?
    decreases |ms|
  {
    if ms != [] && !Full(c, limit) {
      var m, rest := ms[0], ms[1..];
      assert Writable(m) && AllWritable(rest);
      assert Stream(ms) == Wire(m) + Stream(rest);
      FrameRoundTrip(m.opcode, m.payload, m.key, Stream(rest));
      OpcodeBits(m.opcode);
      assert Contents(ms)[0] == (m.opcode, m.payload) && Contents(ms)[1..] == Contents(rest);
      if m.opcode != OP_CLOSE {
        StreamCapture(rest, Handle(c, (m.opcode, m.payload), limit, st), limit, st);
      }
    }
  }
}

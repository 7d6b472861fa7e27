/**
 Demultiplexing a container log body (agent/src/logs.rs).

 Docker sends the output of a container without a terminal as frames: one byte for the stream,
 three zero bytes, the payload length as a big-endian 32-bit number, the payload ("Stream format"
 of ContainerAttach in the Docker Engine API v1.41). `Encode` is that format. Reading back what
 was encoded, whole or cut off anywhere, is compared with the lines that went in.
 */
module Logs {
  import opened Globs

  const FRAME_HEADER_LEN := 8
  const STREAM_STDERR: Byte := 2
  const NEWLINE: Byte := 10

  datatype Line = Line(stderr: bool, text: seq<Byte>)

  // ---------- lines ----------

  /** The pieces between newlines; one more than there are newlines. */
  function Pieces(bytes: seq<Byte>): (pieces: seq<seq<Byte>>)
    ensures pieces != []
    ensures forall i :: 0 <= i < |pieces| ==> NEWLINE !in pieces[i]
  {
    if bytes == [] then [[]]
    else
      var rest := Pieces(bytes[1..]);
      if bytes[0] == NEWLINE then [[]] + rest else [[bytes[0]] + rest[0]] + rest[1..]
  }

  function WithNewlines(pieces: seq<seq<Byte>>): seq<Byte>
    requires pieces != []
  {
    if |pieces| == 1 then pieces[0] else pieces[0] + [NEWLINE] + WithNewlines(pieces[1..])
  }

  /** The pieces with newlines put back between them are the bytes. */
  lemma {:induction false} PiecesJoinBack(bytes: seq<Byte>)
    ensures WithNewlines(Pieces(bytes)) == bytes
  {
    if bytes != [] {
      PiecesJoinBack(bytes[1..]);
      var rest := Pieces(bytes[1..]);
      assert bytes == [bytes[0]] + bytes[1..];
      if bytes[0] == NEWLINE {
        assert ([[]] + rest)[1..] == rest;
      } else {
        assert ([[bytes[0]] + rest[0]] + rest[1..])[1..] == rest[1..];
      }
    }
  }

  predicate IsSpace(b: Byte) {
    b == 32 || 9 <= b <= 13
  }

  /** Tab, line feed, vertical tab, form feed, carriage return and the space. */
  lemma SpacesAre(b: Byte)
    ensures IsSpace(b) <==> b in {9, 10, 11, 12, 13, 32}
  {
  }

  function TrimEnd(bytes: seq<Byte>): (text: seq<Byte>)
    ensures text <= bytes
    ensures text == [] || !IsSpace(text[|text| - 1])
    ensures forall i :: |text| <= i < |bytes| ==> IsSpace(bytes[i])
  {
    if bytes != [] && IsSpace(bytes[|bytes| - 1]) then TrimEnd(bytes[..|bytes| - 1]) else bytes
  }

  /** The pieces that are not empty, each without the white space at its end. */
  function Kept(stderr: bool, pieces: seq<seq<Byte>>): seq<Line> {
    if pieces == [] then []
    else
      var last := pieces[|pieces| - 1];
      Kept(stderr, pieces[..|pieces| - 1]) + if last == [] then [] else [Line(stderr, TrimEnd(last))]
  }

  function Lines(stderr: bool, bytes: seq<Byte>): seq<Line> {
    Kept(stderr, Pieces(bytes))
  }

  // ---------- what lines are, piece by piece ----------

  lemma {:induction false} OnePiece(text: seq<Byte>)
    requires NEWLINE !in text
    ensures Pieces(text) == [text]
  {
    if text != [] {
      OnePiece(text[1..]);
      assert [text[0]] + text[1..] == text;
    }
  }

  function FirstLonger(b: Byte, pieces: seq<seq<Byte>>): seq<seq<Byte>>
    requires pieces != []
  {
    if b == NEWLINE then [[]] + pieces else [[b] + pieces[0]] + pieces[1..]
  }

  lemma FirstLongerAcross(b: Byte, p: seq<seq<Byte>>, q: seq<seq<Byte>>)
    requires p != []
    ensures FirstLonger(b, p + q) == FirstLonger(b, p) + q
  {
  }

  lemma {:induction false} PiecesAcross(a: seq<Byte>, b: seq<Byte>)
    ensures Pieces(a + [NEWLINE] + b) == Pieces(a) + Pieces(b)
  {
    var whole := a + [NEWLINE] + b;
    if a == [] {
      assert whole[1..] == b && Pieces(whole) == FirstLonger(NEWLINE, Pieces(b));
    } else {
      PiecesAcross(a[1..], b);
      assert whole[0] == a[0] && whole[1..] == a[1..] + [NEWLINE] + b;
      assert Pieces(whole) == FirstLonger(a[0], Pieces(whole[1..])) && Pieces(a) == FirstLonger(a[0], Pieces(a[1..]));
      FirstLongerAcross(a[0], Pieces(a[1..]), Pieces(b));
    }
  }

  lemma {:induction false} KeptAcross(stderr: bool, a: seq<seq<Byte>>, b: seq<seq<Byte>>)
    ensures Kept(stderr, a + b) == Kept(stderr, a) + Kept(stderr, b)
    decreases |b|
  {
    if b == [] {
      assert a + b == a;
    } else {
      KeptAcross(stderr, a, b[..|b| - 1]);
      assert (a + b)[..|a + b| - 1] == a + b[..|b| - 1];
    }
  }

  /** A newline separates: the lines before it and the lines behind it, nothing else. */
  lemma LinesAcross(stderr: bool, a: seq<Byte>, b: seq<Byte>)
    ensures Lines(stderr, a + [NEWLINE] + b) == Lines(stderr, a) + Lines(stderr, b)
  {
    PiecesAcross(a, b);
    KeptAcross(stderr, Pieces(a), Pieces(b));
  }

  /** Without a newline there is one line, or none in an empty text; it loses white space at its end. */
  lemma {:induction false} SingleLine(stderr: bool, text: seq<Byte>)
    requires NEWLINE !in text
    ensures Lines(stderr, text) == if text == [] then [] else [Line(stderr, TrimEnd(text))]
  {
    OnePiece(text);
    assert [text][..0] == [] && Kept(stderr, []) == [];
  }

  /** A text that a line shows as it is. */
  predicate Plain(text: seq<Byte>) {
    text != [] && NEWLINE !in text && !IsSpace(text[|text| - 1])
  }

  /** The texts as a program prints them, each with its newline. */
  function PrintedLines(texts: seq<seq<Byte>>): seq<Byte> {
    if texts == [] then [] else texts[0] + [NEWLINE] + PrintedLines(texts[1..])
  }

  function Shown(stderr: bool, texts: seq<seq<Byte>>): (lines: seq<Line>)
    ensures |lines| == |texts|
    ensures forall i :: 0 <= i < |texts| ==> lines[i] == Line(stderr, texts[i])
  {
    seq(|texts|, i requires 0 <= i < |texts| => Line(stderr, texts[i]))
  }

  /** What is printed line by line is read line by line. */
  lemma {:induction false} PrintedLinesRead(stderr: bool, texts: seq<seq<Byte>>)
    requires forall i :: 0 <= i < |texts| ==> Plain(texts[i])
    ensures Lines(stderr, PrintedLines(texts)) == Shown(stderr, texts)
  {
    if texts == [] {
      SingleLine(stderr, []);
    } else {
      LinesAcross(stderr, texts[0], PrintedLines(texts[1..]));
      SingleLine(stderr, texts[0]);
      PrintedLinesRead(stderr, texts[1..]);
      assert Shown(stderr, texts) == [Line(stderr, texts[0])] + Shown(stderr, texts[1..]);
    }
  }

  /** The same without the last newline. */
  lemma {:induction false} JoinedLinesRead(stderr: bool, texts: seq<seq<Byte>>)
    requires texts != [] && forall i :: 0 <= i < |texts| ==> Plain(texts[i])
    ensures Lines(stderr, WithNewlines(texts)) == Shown(stderr, texts)
  {
    SingleLine(stderr, texts[0]);
    if |texts| > 1 {
      LinesAcross(stderr, texts[0], WithNewlines(texts[1..]));
      JoinedLinesRead(stderr, texts[1..]);
      assert Shown(stderr, texts) == [Line(stderr, texts[0])] + Shown(stderr, texts[1..]);
    }
  }

  // ---------- the decoder ----------

  function LengthAt(bytes: seq<Byte>): nat
    requires |bytes| >= FRAME_HEADER_LEN
  {
    Number(bytes[4], bytes[5], bytes[6], bytes[7])
  }

  function Number(a: int, b: int, c: int, d: int): int {
    a * 0x100_0000 + b * 0x1_0000 + c * 0x100 + d
  }

  function Min(a: nat, b: nat): nat {
    if a <= b then a else b
  }

  /** The frames from here on; it stops at a frame that has nothing in it. */
  function FrameLines(bytes: seq<Byte>): seq<Line>
    decreases |bytes|
  {
    if |bytes| < FRAME_HEADER_LEN then []
    else
      var n := Available(bytes);
      if n == 0 then []
      else Lines(bytes[0] == STREAM_STDERR, bytes[8..8 + n]) + FrameLines(bytes[8 + n..])
  }

  /** How much of the announced payload is there. */
  function Available(bytes: seq<Byte>): (n: nat)
    requires |bytes| >= FRAME_HEADER_LEN
    ensures n <= |bytes| - FRAME_HEADER_LEN
  {
    Min(LengthAt(bytes), |bytes| - FRAME_HEADER_LEN)
  }

  predicate LooksMultiplexed(body: seq<Byte>) {
    |body| >= FRAME_HEADER_LEN && body[0] <= STREAM_STDERR && body[1] == 0 && body[2] == 0 && body[3] == 0
  }

  function Demux(body: seq<Byte>): seq<Line> {
    if LooksMultiplexed(body) then FrameLines(body) else Lines(false, body)
  }

  method DemuxLogStream(body: seq<Byte>) returns (lines: seq<Line>)
    ensures lines == Demux(body)
  {
    if !LooksMultiplexed(body) {
      lines := PushLines([], false, body);
      return;
    }
    lines := [];
    var offset := 0;
    assert body[0..] == body;
    while offset + FRAME_HEADER_LEN <= |body|
      invariant 0 <= offset <= |body|
      invariant lines + FrameLines(body[offset..]) == FrameLines(body)
      decreases |body| - offset
    {
      var streamType := body[offset];
      var length := LengthAt(body[offset..]);
      var start := offset + FRAME_HEADER_LEN;
      var end := Min(start + length, |body|);
      FrameAt(body, offset, end);
      if start >= end {
        break;
      }
      Associate(lines, Lines(streamType == STREAM_STDERR, body[start..end]), FrameLines(body[end..]));
      lines := PushLines(lines, streamType == STREAM_STDERR, body[start..end]);
      offset := end;
    }
  }

  method PushLines(before: seq<Line>, isStderr: bool, bytes: seq<Byte>) returns (lines: seq<Line>)
    ensures lines == before + Lines(isStderr, bytes)
  {
    lines := before;
    var pieces := Pieces(bytes);
    for i := 0 to |pieces|
      invariant lines == before + Kept(isStderr, pieces[..i])
    {
      assert pieces[..i + 1][..i] == pieces[..i];
      if pieces[i] != [] {
        lines := lines + [Line(isStderr, TrimEnd(pieces[i]))];
      }
    }
    assert pieces[..|pieces|] == pieces;
  }

  lemma FrameAt(body: seq<Byte>, offset: nat, end: nat)
    requires offset + FRAME_HEADER_LEN <= |body|
    requires end == offset + FRAME_HEADER_LEN + Available(body[offset..])
    ensures FrameLines(body[offset..]) ==
            if end <= offset + FRAME_HEADER_LEN then []
            else Lines(body[offset] == STREAM_STDERR, body[offset + 8..end]) + FrameLines(body[end..])
  {
    assert body[offset..][8..end - offset] == body[offset + 8..end];
    assert body[offset..][end - offset..] == body[end..];
  }

  lemma Associate(a: seq<Line>, b: seq<Line>, c: seq<Line>)
    ensures a + (b + c) == (a + b) + c
  {
  }

  // ---------- the format ----------

  datatype Frame = Frame(stream: Byte, payload: seq<Byte>)

  predicate Fits(frame: Frame) {
    |frame.payload| < 0x1_0000_0000
  }

  function BigEndian(n: nat): (bytes: seq<Byte>)
    requires n < 0x1_0000_0000
    ensures |bytes| == 4
  {
    [n / 0x100_0000, n / 0x1_0000 % 0x100, n / 0x100 % 0x100, n % 0x100]
  }

  function Encode(frame: Frame): (bytes: seq<Byte>)
    requires Fits(frame)
    ensures |bytes| == FRAME_HEADER_LEN + |frame.payload|
  {
    [frame.stream, 0, 0, 0] + BigEndian(|frame.payload|) + frame.payload
  }

  predicate AllFit(frames: seq<Frame>) {
    forall i :: 0 <= i < |frames| ==> Fits(frames[i])
  }

  function EncodeAll(frames: seq<Frame>): seq<Byte>
    requires AllFit(frames)
  {
    if frames == [] then [] else Encode(frames[0]) + EncodeAll(frames[1..])
  }

  function FrameText(frame: Frame): seq<Line> {
    Lines(frame.stream == STREAM_STDERR, frame.payload)
  }

  function AllLines(frames: seq<Frame>): seq<Line> {
    if frames == [] then [] else FrameText(frames[0]) + AllLines(frames[1..])
  }

  lemma BigEndianReads(n: nat)
    requires n < 0x1_0000_0000
    ensures var b := BigEndian(n); Number(b[0], b[1], b[2], b[3]) == n
  {
    assert n / 0x1_0000 == n / 0x100_0000 * 0x100 + n / 0x1_0000 % 0x100;
    assert n / 0x100 == n / 0x1_0000 * 0x100 + n / 0x100 % 0x100;
  }

  lemma FrontHeader(frame: Frame, rest: seq<Byte>, n: nat)
    requires Fits(frame) && FRAME_HEADER_LEN <= n <= |Encode(frame) + rest|
    ensures var text := (Encode(frame) + rest)[..n];
            LengthAt(text) == |frame.payload| && text[0] == frame.stream
  {
    var text := (Encode(frame) + rest)[..n];
    var length := BigEndian(|frame.payload|);
    BigEndianReads(|frame.payload|);
    assert text[0] == Encode(frame)[0];
    assert text[4] == Encode(frame)[4] == length[0] && text[5] == Encode(frame)[5] == length[1];
    assert text[6] == Encode(frame)[6] == length[2] && text[7] == Encode(frame)[7] == length[3];
  }

  lemma SliceOfSum(a: seq<Byte>, b: seq<Byte>, c: seq<Byte>, n: nat)
    requires |a| <= n <= |a| + |b| + |c|
    ensures var m := Min(|b|, n - |a|);
            && (a + b + c)[..n][|a|..|a| + m] == b[..m]
            && (a + b + c)[..n][|a| + m..] == if m < |b| then [] else c[..n - |a| - m]
  {
    var text := (a + b + c)[..n];
    var m := Min(|b|, n - |a|);
    assert text[|a|..|a| + m] == b[..m];
    if m < |b| {
      assert |text| == |a| + m;
    } else {
      assert text[|a| + m..] == c[..n - |a| - m];
    }
  }

  /** The frame at the front of a text that starts with its header. */
  lemma FrontFrame(frame: Frame, rest: seq<Byte>, n: nat)
    requires Fits(frame) && FRAME_HEADER_LEN <= n <= |Encode(frame) + rest|
    ensures var text := (Encode(frame) + rest)[..n];
            var m := Min(|frame.payload|, n - FRAME_HEADER_LEN);
            && LengthAt(text) == |frame.payload| && text[0] == frame.stream
            && text[8..8 + m] == frame.payload[..m]
            && text[8 + m..] == if m < |frame.payload| then [] else rest[..n - 8 - m]
  {
    FrontHeader(frame, rest, n);
    SliceOfSum([frame.stream, 0, 0, 0] + BigEndian(|frame.payload|), frame.payload, rest, n);
  }

  // ---------- reading back, whole or cut ----------

  /** What the first `n` bytes of the encoded frames say, frame by frame. */
  function CutLines(frames: seq<Frame>, n: nat): seq<Line> {
    if frames == [] || n < FRAME_HEADER_LEN then []
    else
      var m := Min(|frames[0].payload|, n - FRAME_HEADER_LEN);
      if m == 0 then []
      else
        Lines(frames[0].stream == STREAM_STDERR, frames[0].payload[..m]) + CutLines(frames[1..], n - 8 - m)
  }

  /** The same three cases of the expected lines. */
  lemma CutWhole(frames: seq<Frame>, n: nat)
    requires frames != [] && frames[0].payload != [] && n >= FRAME_HEADER_LEN + |frames[0].payload|
    ensures CutLines(frames, n) ==
            FrameText(frames[0]) + CutLines(frames[1..], n - FRAME_HEADER_LEN - |frames[0].payload|)
  {
    assert frames[0].payload[..|frames[0].payload|] == frames[0].payload;
  }

  lemma CutInside(frames: seq<Frame>, n: nat)
    requires frames != [] && FRAME_HEADER_LEN < n < FRAME_HEADER_LEN + |frames[0].payload|
    ensures CutLines(frames, n) ==
            Lines(frames[0].stream == STREAM_STDERR, frames[0].payload[..n - FRAME_HEADER_LEN])
  {
    assert CutLines(frames[1..], 0) == [];
  }

  lemma {:induction false} ReadsCut(frames: seq<Frame>, n: nat)
    requires AllFit(frames) && n <= |EncodeAll(frames)|
    ensures FrameLines(EncodeAll(frames)[..n]) == CutLines(frames, n)
    decreases frames
  {
    if frames == [] || n < FRAME_HEADER_LEN {
      assert |EncodeAll(frames)[..n]| < FRAME_HEADER_LEN;
    } else {
      var frame, rest := frames[0], EncodeAll(frames[1..]);
      if n == FRAME_HEADER_LEN || frame.payload == [] {
        ReadsEmptyFrame(frame, rest, n);
      } else if n < FRAME_HEADER_LEN + |frame.payload| {
        ReadsCutFrame(frame, rest, n);
        CutInside(frames, n);
      } else {
        ReadsWholeFrame(frame, rest, n);
        ReadsCut(frames[1..], n - FRAME_HEADER_LEN - |frame.payload|);
        CutWhole(frames, n);
      }
    }
  }

  lemma FrontWholeFrame(frame: Frame, rest: seq<Byte>, n: nat)
    requires Fits(frame) && FRAME_HEADER_LEN + |frame.payload| <= n <= |Encode(frame) + rest|
    ensures var text, m := (Encode(frame) + rest)[..n], |frame.payload|;
            && LengthAt(text) == m && text[0] == frame.stream
            && text[8..8 + m] == frame.payload && text[8 + m..] == rest[..n - 8 - m]
  {
    FrontFrame(frame, rest, n);
    assert frame.payload[..|frame.payload|] == frame.payload;
  }

  lemma ReadsWholeText(text: seq<Byte>, frame: Frame, rest: seq<Byte>)
    requires |text| == FRAME_HEADER_LEN + |frame.payload| + |rest| && frame.payload != []
    requires LengthAt(text) == |frame.payload| && text[0] == frame.stream
    requires text[8..8 + |frame.payload|] == frame.payload && text[8 + |frame.payload|..] == rest
    ensures FrameLines(text) == FrameText(frame) + FrameLines(rest)
  {
    UnfoldFrames(text, |frame.payload|);
  }

  /** A frame that is there as a whole: its lines, then those of the rest. */
  lemma ReadsWholeFrame(frame: Frame, rest: seq<Byte>, n: nat)
    requires Fits(frame) && frame.payload != []
    requires FRAME_HEADER_LEN + |frame.payload| <= n <= |Encode(frame) + rest|
    ensures FrameLines((Encode(frame) + rest)[..n]) ==
            FrameText(frame) + FrameLines(rest[..n - FRAME_HEADER_LEN - |frame.payload|])
  {
    FrontWholeFrame(frame, rest, n);
    ReadsWholeText((Encode(frame) + rest)[..n], frame, rest[..n - FRAME_HEADER_LEN - |frame.payload|]);
  }

  /** A frame whose payload is cut: the lines of what is there. */
  lemma ReadsCutFrame(frame: Frame, rest: seq<Byte>, n: nat)
    requires Fits(frame)
    requires FRAME_HEADER_LEN < n < FRAME_HEADER_LEN + |frame.payload|
    ensures n <= |Encode(frame) + rest|
    ensures FrameLines((Encode(frame) + rest)[..n]) ==
            Lines(frame.stream == STREAM_STDERR, frame.payload[..n - FRAME_HEADER_LEN])
  {
    FrontFrame(frame, rest, n);
    UnfoldFrames((Encode(frame) + rest)[..n], n - FRAME_HEADER_LEN);
    NoFramesInNothing();
  }

  /** A frame without payload in what is there: nothing, and nothing behind it. */
  lemma ReadsEmptyFrame(frame: Frame, rest: seq<Byte>, n: nat)
    requires Fits(frame) && FRAME_HEADER_LEN <= n <= |Encode(frame) + rest|
    requires n == FRAME_HEADER_LEN || frame.payload == []
    ensures FrameLines((Encode(frame) + rest)[..n]) == []
  {
    FrontHeader(frame, rest, n);
    UnfoldFrames((Encode(frame) + rest)[..n], 0);
  }

  lemma NoFramesInNothing()
    ensures FrameLines([]) == []
  {
  }

  lemma {:induction false} UnfoldFrames(text: seq<Byte>, m: nat)
    requires |text| >= FRAME_HEADER_LEN && m == Available(text)
    ensures FrameLines(text) ==
            if m == 0 then [] else Lines(text[0] == STREAM_STDERR, text[8..8 + m]) + FrameLines(text[8 + m..])
  {
  }

  /** The number of frames that are complete within the first `n` bytes. */
  function Complete(frames: seq<Frame>, n: nat): (count: nat)
    ensures count <= |frames|
  {
    if frames == [] || n < FRAME_HEADER_LEN + |frames[0].payload| then 0
    else 1 + Complete(frames[1..], n - FRAME_HEADER_LEN - |frames[0].payload|)
  }

  /** The part of the first incomplete payload that is within the first `n` bytes. */
  function CutPayload(frames: seq<Frame>, n: nat): seq<Byte> {
    if frames == [] || n < FRAME_HEADER_LEN then []
    else if n < FRAME_HEADER_LEN + |frames[0].payload| then frames[0].payload[..n - FRAME_HEADER_LEN]
    else CutPayload(frames[1..], n - FRAME_HEADER_LEN - |frames[0].payload|)
  }

  function CutText(frames: seq<Frame>, n: nat): seq<Line> {
    var k := Complete(frames, n);
    if k == |frames| then [] else Lines(frames[k].stream == STREAM_STDERR, CutPayload(frames, n))
  }

  predicate NoneEmpty(frames: seq<Frame>) {
    forall i :: 0 <= i < |frames| ==> frames[i].payload != []
  }

  lemma NoLinesInNothing(stderr: bool)
    ensures Lines(stderr, []) == []
  {
    var pieces: seq<seq<Byte>> := [[]];
    assert Pieces([]) == pieces && pieces[..|pieces| - 1] == [];
    assert Kept(stderr, []) == [];
  }

  lemma {:induction false} CutLinesAre(frames: seq<Frame>, n: nat)
    requires NoneEmpty(frames)
    ensures CutLines(frames, n) == AllLines(frames[..Complete(frames, n)]) + CutText(frames, n)
  {
    if frames != [] {
      NoLinesInNothing(frames[0].stream == STREAM_STDERR);
      if n < FRAME_HEADER_LEN + |frames[0].payload| {
        assert frames[..0] == [] && CutLines(frames[1..], 0) == [];
      } else {
        var m := n - FRAME_HEADER_LEN - |frames[0].payload|;
        CutLinesAre(frames[1..], m);
        AfterFirstFrame(frames, n);
        Associate(FrameText(frames[0]), AllLines(frames[1..][..Complete(frames[1..], m)]), CutText(frames[1..], m));
      }
    }
  }

  lemma AfterFirstFrame(frames: seq<Frame>, n: nat)
    requires frames != [] && frames[0].payload != [] && n >= FRAME_HEADER_LEN + |frames[0].payload|
    ensures var m := n - FRAME_HEADER_LEN - |frames[0].payload|;
            && CutLines(frames, n) == FrameText(frames[0]) + CutLines(frames[1..], m)
            && AllLines(frames[..Complete(frames, n)]) ==
               FrameText(frames[0]) + AllLines(frames[1..][..Complete(frames[1..], m)])
            && CutText(frames, n) == CutText(frames[1..], m)
  {
    CutWhole(frames, n);
    FirstOfPrefix(frames, Complete(frames, n));
    SameCut(frames, n);
  }

  lemma SameCut(frames: seq<Frame>, n: nat)
    requires frames != [] && n >= FRAME_HEADER_LEN + |frames[0].payload|
    ensures CutText(frames, n) == CutText(frames[1..], n - FRAME_HEADER_LEN - |frames[0].payload|)
  {
    var m := n - FRAME_HEADER_LEN - |frames[0].payload|;
    var k := Complete(frames[1..], m);
    assert Complete(frames, n) == k + 1;
    assert k < |frames| - 1 ==> frames[k + 1] == frames[1..][k];
    assert CutPayload(frames, n) == CutPayload(frames[1..], m);
  }

  lemma FirstOfPrefix(frames: seq<Frame>, k: nat)
    requires 0 < k <= |frames|
    ensures AllLines(frames[..k]) == FrameText(frames[0]) + AllLines(frames[1..][..k - 1])
  {
    assert frames[..k][1..] == frames[1..][..k - 1];
  }

  /** A body of at least a header is recognised by the stream byte of its first frame. */
  lemma RecognisedByFirstFrame(frames: seq<Frame>, n: nat)
    requires AllFit(frames) && FRAME_HEADER_LEN <= n <= |EncodeAll(frames)|
    ensures LooksMultiplexed(EncodeAll(frames)[..n]) <==> frames[0].stream <= STREAM_STDERR
  {
    var body := EncodeAll(frames)[..n];
    assert body[..4] == [frames[0].stream, 0, 0, 0];
    assert body[0] == body[..4][0] && body[1] == body[..4][1] && body[2] == body[..4][2] && body[3] == body[..4][3];
  }

  /**
   Any cut of at least a header of a stream of non-empty frames reads as the lines of the
   complete frames, in order and with their streams, and those of the part of the next payload.
   */
  lemma CutStreamReadsBack(frames: seq<Frame>, n: nat)
    requires AllFit(frames) && NoneEmpty(frames) && FRAME_HEADER_LEN <= n <= |EncodeAll(frames)|
    requires frames[0].stream <= STREAM_STDERR
    ensures Demux(EncodeAll(frames)[..n]) == AllLines(frames[..Complete(frames, n)]) + CutText(frames, n)
  {
    RecognisedByFirstFrame(frames, n);
    ReadsCut(frames, n);
    CutLinesAre(frames, n);
  }

  // ---------- frames with nothing in them ----------

  /** The index of the first frame without payload, or the number of frames. */
  function FirstEmpty(frames: seq<Frame>): (k: nat)
    ensures k <= |frames|
    ensures k < |frames| ==> frames[k].payload == []
    ensures forall i :: 0 <= i < k ==> frames[i].payload != []
  {
    if frames == [] || frames[0].payload == [] then 0 else 1 + FirstEmpty(frames[1..])
  }

  lemma {:induction false} ReadsUpToFirstEmpty(frames: seq<Frame>)
    requires AllFit(frames)
    ensures CutLines(frames, |EncodeAll(frames)|) == AllLines(frames[..FirstEmpty(frames)])
  {
    if frames != [] && frames[0].payload != [] {
      ReadsUpToFirstEmpty(frames[1..]);
      FirstOfPrefix(frames, FirstEmpty(frames));
      CutWhole(frames, |EncodeAll(frames)|);
      assert |EncodeAll(frames)| == |Encode(frames[0])| + |EncodeAll(frames[1..])|;
      assert frames[0].payload[..|frames[0].payload|] == frames[0].payload;
    }
  }

  lemma {:induction false} LinesSplit(frames: seq<Frame>, k: nat)
    requires k <= |frames|
    ensures AllLines(frames) == AllLines(frames[..k]) + AllLines(frames[k..])
    decreases frames
  {
    if k == 0 {
      assert frames[..0] == [] && frames[0..] == frames;
    } else {
      LinesSplit(frames[1..], k - 1);
      FirstOfPrefix(frames, k);
      assert frames[k..] == frames[1..][k - 1..];
      Associate(FrameText(frames[0]), AllLines(frames[1..][..k - 1]), AllLines(frames[k..]));
    }
  }

  predicate OnlyNewlines(bytes: seq<Byte>) {
    forall i :: 0 <= i < |bytes| ==> bytes[i] == NEWLINE
  }

  predicate AllPiecesEmpty(pieces: seq<seq<Byte>>) {
    forall i :: 0 <= i < |pieces| ==> pieces[i] == []
  }

  lemma {:induction false} PiecesEmpty(bytes: seq<Byte>)
    ensures AllPiecesEmpty(Pieces(bytes)) <==> OnlyNewlines(bytes)
  {
    if bytes != [] {
      PiecesEmpty(bytes[1..]);
      var rest := Pieces(bytes[1..]);
      assert bytes == [bytes[0]] + bytes[1..];
      if bytes[0] == NEWLINE {
        assert AllPiecesEmpty([[]] + rest) <==> AllPiecesEmpty(rest) by {
          assert forall i :: 0 <= i < |rest| ==> ([[]] + rest)[i + 1] == rest[i];
        }
      } else {
        assert Pieces(bytes)[0] != [];
      }
    }
  }

  lemma {:induction false} KeptEmpty(stderr: bool, pieces: seq<seq<Byte>>)
    ensures Kept(stderr, pieces) == [] <==> AllPiecesEmpty(pieces)
  {
    if pieces != [] {
      var before := pieces[..|pieces| - 1];
      KeptEmpty(stderr, before);
      assert pieces == before + [pieces[|pieces| - 1]];
    }
  }

  predicate Silent(frames: seq<Frame>) {
    forall i :: 0 <= i < |frames| ==> OnlyNewlines(frames[i].payload)
  }

  lemma SilentFirst(frames: seq<Frame>)
    requires frames != []
    ensures Silent(frames) <==> OnlyNewlines(frames[0].payload) && Silent(frames[1..])
  {
    assert frames == [frames[0]] + frames[1..];
  }

  lemma SilentFrame(frame: Frame)
    ensures FrameText(frame) == [] <==> OnlyNewlines(frame.payload)
  {
    PiecesEmpty(frame.payload);
    KeptEmpty(frame.stream == STREAM_STDERR, Pieces(frame.payload));
  }

  lemma {:induction false} NoLinesExactly(frames: seq<Frame>)
    ensures AllLines(frames) == [] <==> Silent(frames)
  {
    if frames != [] {
      NoLinesExactly(frames[1..]);
      SilentFrame(frames[0]);
      SilentFirst(frames);
      assert |AllLines(frames)| == |FrameText(frames[0])| + |AllLines(frames[1..])|;
    }
  }

  /** The whole body reads as the frames up to the first empty one. */
  lemma {:induction false} WholeBodyReads(frames: seq<Frame>)
    requires AllFit(frames) && frames != [] && frames[0].stream <= STREAM_STDERR
    ensures Demux(EncodeAll(frames)) == AllLines(frames[..FirstEmpty(frames)])
  {
    var body := EncodeAll(frames);
    assert body[..|body|] == body;
    RecognisedByFirstFrame(frames, |body|);
    ReadsCut(frames, |body|);
    ReadsUpToFirstEmpty(frames);
  }

  /**
   Everything is read back exactly when no frame behind the first empty one has a line. The
   condition holds in particular when no frame is empty.
   */
  lemma {:induction false} ReadsBackExactly(frames: seq<Frame>)
    requires AllFit(frames) && frames != [] && frames[0].stream <= STREAM_STDERR
    ensures Demux(EncodeAll(frames)) == AllLines(frames) <==> Silent(frames[FirstEmpty(frames)..])
  {
    var k := FirstEmpty(frames);
    WholeBodyReads(frames);
    LinesSplit(frames, k);
    NoLinesExactly(frames[k..]);
    if AllLines(frames[..k]) == AllLines(frames) {
      assert |AllLines(frames[k..])| == 0;
    }
  }

  /** A frame without payload hides every line behind it. */
  lemma {:induction false} EmptyFrameHidesLines(first: Frame, stream: Byte, last: Frame)
    requires Fits(first) && Fits(last) && first.stream <= STREAM_STDERR
    requires first.payload != [] && !OnlyNewlines(last.payload)
    ensures var frames := [first, Frame(stream, []), last];
            AllFit(frames) && Demux(EncodeAll(frames)) == FrameText(first) != AllLines(frames)
  {
    var frames := [first, Frame(stream, []), last];
    assert frames[1..][0].payload == [];
    assert FirstEmpty(frames) == 1;
    assert frames[1..][1] == last;
    ReadsBackExactly(frames);
    WholeBodyReads(frames);
    assert frames[..1] == [first] && [first][1..] == [];
  }

  // ---------- what is taken for frames ----------

  lemma Quotients(q: nat, r: nat)
    ensures r < 0x100_0000 ==> (q * 0x100_0000 + r) / 0x100_0000 == q
    ensures r < 0x1_0000 ==> (q * 0x1_0000 + r) / 0x1_0000 == q
    ensures r < 0x100 ==> (q * 0x100 + r) / 0x100 == q && (q * 0x100 + r) % 0x100 == r
  {
  }

  lemma {:induction false} LengthReadsBack(a: Byte, b: Byte, c: Byte, d: Byte)
    ensures 0 <= Number(a, b, c, d) < 0x1_0000_0000
    ensures BigEndian(Number(a, b, c, d)) == [a, b, c, d]
  {
    var n := Number(a, b, c, d);
    assert n / 0x100_0000 == a by {
      Quotients(a, b * 0x1_0000 + c * 0x100 + d);
    }
    assert n / 0x1_0000 % 0x100 == b by {
      Quotients(a * 0x100 + b, c * 0x100 + d);
      Quotients(a, b);
    }
    assert n / 0x100 % 0x100 == c && n % 0x100 == d by {
      Quotients(a * 0x1_0000 + b * 0x100 + c, d);
      Quotients(a * 0x100 + b, c);
    }
  }

  /** A body is taken for frames exactly when it begins with the header of some frame of a known stream. */
  lemma FramedExactly(body: seq<Byte>)
    ensures LooksMultiplexed(body) <==>
            |body| >= FRAME_HEADER_LEN
            && exists frame :: Fits(frame) && frame.stream <= STREAM_STDERR
                               && body[..FRAME_HEADER_LEN] == Encode(frame)[..FRAME_HEADER_LEN]
  {
    if LooksMultiplexed(body) {
      var n := LengthAt(body);
      LengthReadsBack(body[4], body[5], body[6], body[7]);
      var frame := Frame(body[0], seq(n, _ => 0));
      assert Encode(frame)[..FRAME_HEADER_LEN] == [body[0], 0, 0, 0] + BigEndian(n);
      assert body[..FRAME_HEADER_LEN] == [body[0], 0, 0, 0] + [body[4], body[5], body[6], body[7]];
    }
    if |body| >= FRAME_HEADER_LEN {
      forall frame | Fits(frame) && frame.stream <= STREAM_STDERR
                     && body[..FRAME_HEADER_LEN] == Encode(frame)[..FRAME_HEADER_LEN]
        ensures LooksMultiplexed(body)
      {
        var header := Encode(frame)[..FRAME_HEADER_LEN];
        assert body[0] == header[0] && body[1] == header[1] && body[2] == header[2] && body[3] == header[3];
      }
    }
  }

  // ---------- from what was printed to what is shown ----------

  /** Something printed at once, on one of the two streams. */
  datatype Output = Output(stderr: bool, texts: seq<seq<Byte>>)

  predicate Legible(o: Output) {
    && o.texts != [] && (forall i :: 0 <= i < |o.texts| ==> Plain(o.texts[i]))
    && |PrintedLines(o.texts)| < 0x1_0000_0000
  }

  predicate AllLegible(outputs: seq<Output>) {
    forall i :: 0 <= i < |outputs| ==> Legible(outputs[i])
  }

  /** Stream 1 is the standard output, stream 2 the standard error. */
  function Framed(o: Output): Frame {
    Frame(if o.stderr then 2 else 1, PrintedLines(o.texts))
  }

  function Frames(outputs: seq<Output>): (frames: seq<Frame>)
    ensures |frames| == |outputs|
    ensures forall i :: 0 <= i < |outputs| ==> frames[i] == Framed(outputs[i])
  {
    seq(|outputs|, i requires 0 <= i < |outputs| => Framed(outputs[i]))
  }

  function AllShown(outputs: seq<Output>): seq<Line> {
    if outputs == [] then [] else Shown(outputs[0].stderr, outputs[0].texts) + AllShown(outputs[1..])
  }

  lemma {:induction false} FramesShow(outputs: seq<Output>)
    requires AllLegible(outputs)
    ensures AllLines(Frames(outputs)) == AllShown(outputs)
  {
    if outputs != [] {
      FramesShow(outputs[1..]);
      assert Frames(outputs)[1..] == Frames(outputs[1..]);
      PrintedLinesRead(outputs[0].stderr, outputs[0].texts);
    }
  }

  lemma {:induction false} NoFirstEmpty(frames: seq<Frame>)
    requires forall i :: 0 <= i < |frames| ==> frames[i].payload != []
    ensures FirstEmpty(frames) == |frames|
  {
    if frames != [] {
      NoFirstEmpty(frames[1..]);
    }
  }

  /** What a container printed is shown text by text, in order, each on its stream. */
  lemma {:induction false} OutputsAreShown(outputs: seq<Output>)
    requires AllLegible(outputs) && outputs != []
    ensures AllFit(Frames(outputs)) && Demux(EncodeAll(Frames(outputs))) == AllShown(outputs)
  {
    var frames := Frames(outputs);
    NoFirstEmpty(frames);
    ReadsBackExactly(frames);
    FramesShow(outputs);
  }

  /** The output of a terminal is not framed: its lines are shown as they are, as standard output. */
  lemma {:induction false} TerminalIsShown(texts: seq<seq<Byte>>)
    requires forall i :: 0 <= i < |texts| ==> Plain(texts[i])
    ensures !LooksMultiplexed(PrintedLines(texts)) ==> Demux(PrintedLines(texts)) == Shown(false, texts)
    ensures texts != [] && !LooksMultiplexed(WithNewlines(texts)) ==> Demux(WithNewlines(texts)) == Shown(false, texts)
  {
    PrintedLinesRead(false, texts);
    if texts != [] {
      JoinedLinesRead(false, texts);
    }
  }
}

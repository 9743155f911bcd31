/**
  The demultiplexer of Docker log streams: frames of an 8-byte header (stream
  type, three unused bytes, big-endian payload length) followed by the payload,
  as in the "Stream format" section of the Docker Engine API's attach endpoint.
 */
module LogDemux {
  import opened Wrappers
  import opened Sequences

  newtype byte = b: int | 0 <= b < 256

  const NEWLINE: byte := 10
  const STDERR: byte := 2
  const HEADER_SIZE := 8
  const SIZE_LIMIT := 0x1_0000_0000

  /** One call of the line callback. */
  datatype Line = Line(text: seq<byte>, stderr: bool)

  /** io.EOF is returned when nothing was read, io.ErrUnexpectedEOF when the read stopped part-way. */
  datatype ReadError = EndOfFile | UnexpectedEndOfFile

  datatype Outcome = Outcome(lines: seq<Line>, error: Option<ReadError>)

  // ---------------------------------------------------------------------
  // Lines of a payload
  // ---------------------------------------------------------------------

  /** strings.TrimRight(payload, "\n") */
  function TrimRight(s: seq<byte>): seq<byte> {
    if s != [] && s[|s| - 1] == NEWLINE then TrimRight(s[..|s| - 1]) else s
  }

  function NonEmpty(parts: seq<seq<byte>>): seq<seq<byte>> {
    if parts == [] then [] else Kept(parts[0]) + NonEmpty(parts[1..])
  }

  function Kept(part: seq<byte>): seq<seq<byte>> { if part == [] then [] else [part] }

  /** The non-empty pieces between newlines: plain splitting. */
  function PlainLines(s: seq<byte>): seq<seq<byte>> { NonEmpty(Split(s, NEWLINE)) }

  /** What the source computes: trim on the right, split, skip the empty pieces. */
  function PayloadLines(payload: seq<byte>): seq<seq<byte>> { NonEmpty(Split(TrimRight(payload), NEWLINE)) }

  function Tagged(texts: seq<seq<byte>>, stderr: bool): seq<Line> {
    if texts == [] then [] else [Line(texts[0], stderr)] + Tagged(texts[1..], stderr)
  }

  // ---------------------------------------------------------------------
  // The demultiplexer: a recursive reference and the source's loop
  // ---------------------------------------------------------------------

  function Size(h: seq<byte>): nat
    requires |h| >= HEADER_SIZE
  {
    h[7] as nat + h[6] as nat * 0x100 + h[5] as nat * 0x1_0000 + h[4] as nat * 0x100_0000
  }

  /** Too short to hold a header, or the payload its header announces. */
  predicate Incomplete(s: seq<byte>) {
    |s| < HEADER_SIZE || |s| < HEADER_SIZE + Size(s)
  }

  function ErrorAt(tail: seq<byte>): Option<ReadError>
    requires Incomplete(tail)
  {
    if tail == [] then None
    else if |tail| == HEADER_SIZE then Some(EndOfFile)
    else Some(UnexpectedEndOfFile)
  }

  /** The lines of one frame. */
  function LinesOf(payload: seq<byte>, stderr: bool): seq<Line> { Tagged(PayloadLines(payload), stderr) }

  /** Complete frames off the front, each giving its lines; then whatever the tail deserves. */
  function Demux(input: seq<byte>): Outcome {
    if Incomplete(input) then Outcome([], ErrorAt(input))
    else
      var end := HEADER_SIZE + Size(input);
      DemuxFrame(LinesOf(input[HEADER_SIZE..end], input[0] == STDERR), Demux(input[end..]))
  }

  function DemuxFrame(here: seq<Line>, rest: Outcome): Outcome { Outcome(here + rest.lines, rest.error) }

  /** bufio.Reader over the log stream. */
  class Reader {
    const input: seq<byte>
    var pos: nat

    ghost predicate Valid()
      reads this
    {
      pos <= |input|
    }

    /** What has not been read yet. */
    ghost function Left(): seq<byte>
      requires Valid()
      reads this
    {
      input[pos..]
    }

    constructor (input: seq<byte>)
      ensures Valid() && Left() == input
    {
      this.input := input;
      pos := 0;
    }

    /** io.ReadFull: fills the whole buffer, or says why it could not. */
    method ReadFull(dest: array<byte>) returns (error: Option<ReadError>)
      requires Valid()
      modifies this`pos, dest
      ensures Valid()
      ensures error.None? <==> dest.Length <= |old(Left())|
      ensures error.None? ==> dest[..] == old(Left())[..dest.Length] && Left() == old(Left())[dest.Length..]
      ensures error.Some? ==> error.value == if old(Left()) == [] then EndOfFile else UnexpectedEndOfFile
    {
      var n := if dest.Length <= |input| - pos then dest.Length else |input| - pos;
      forall i | 0 <= i < n {
        dest[i] := input[pos + i];
      }
      if n < dest.Length {
        error := Some(if n == 0 then EndOfFile else UnexpectedEndOfFile);
      } else {
        error := None;
      }
      pos := pos + n;
    }
  }

  lemma SizeInHeader(s: seq<byte>)
    requires |s| >= HEADER_SIZE
    ensures Size(s[..HEADER_SIZE]) == Size(s)
  {}

  method EmitLines(texts: seq<seq<byte>>, stderr: bool, lines: seq<Line>) returns (r: seq<Line>)
    ensures r == lines + Tagged(NonEmpty(texts), stderr)
  {
    r := lines;
    for i := 0 to |texts|
      invariant r + Tagged(NonEmpty(texts[i..]), stderr) == lines + Tagged(NonEmpty(texts), stderr)
    {
      ghost var rest := texts[i + 1..];
      assert texts[i..] == [texts[i]] + rest;
      if texts[i] != [] {
        assert NonEmpty(texts[i..]) == [texts[i]] + NonEmpty(rest);
        assert Tagged([texts[i]] + NonEmpty(rest), stderr) == [Line(texts[i], stderr)] + Tagged(NonEmpty(rest), stderr);
        assert r + ([Line(texts[i], stderr)] + Tagged(NonEmpty(rest), stderr))
            == (r + [Line(texts[i], stderr)]) + Tagged(NonEmpty(rest), stderr);
        r := r + [Line(texts[i], stderr)];
      } else {
        assert NonEmpty(texts[i..]) == NonEmpty(rest);
      }
    }
  }

  /** What the loop owes after `done`: the outcome of the bytes still `left`. */
  ghost predicate Owes(input: seq<byte>, done: seq<Line>, left: seq<byte>) {
    Demux(input) == Outcome(done + Demux(left).lines, Demux(left).error)
  }

  lemma OwesNothing(input: seq<byte>, done: seq<Line>, left: seq<byte>)
    requires Owes(input, done, left) && Incomplete(left)
    ensures Demux(input) == Outcome(done, ErrorAt(left))
  {
    assert done + [] == done;
  }

  /** A payload cut short: the header was there, the announced bytes are not. */
  lemma PayloadCutShort(left: seq<byte>)
    requires HEADER_SIZE <= |left| < HEADER_SIZE + Size(left)
    ensures Incomplete(left)
    ensures ErrorAt(left) == Some(if left[HEADER_SIZE..] == [] then EndOfFile else UnexpectedEndOfFile)
  {}

  lemma PayloadOfBody(left: seq<byte>, size: nat)
    requires HEADER_SIZE + size <= |left|
    ensures left[..HEADER_SIZE][0] == left[0]
    ensures left[HEADER_SIZE..][..size] == left[HEADER_SIZE..HEADER_SIZE + size]
    ensures left[HEADER_SIZE..][size..] == left[HEADER_SIZE + size..]
  {}

  lemma DemuxOne(input: seq<byte>, end: nat, here: seq<Line>, rest: Outcome)
    requires !Incomplete(input) && end == HEADER_SIZE + Size(input)
    requires here == LinesOf(input[HEADER_SIZE..end], input[0] == STDERR) && rest == Demux(input[end..])
    ensures Demux(input) == DemuxFrame(here, rest)
  {}

  lemma OwesTheRest(input: seq<byte>, done: seq<Line>, left: seq<byte>, end: nat)
    requires Owes(input, done, left) && !Incomplete(left) && end == HEADER_SIZE + Size(left)
    ensures Owes(input, done + LinesOf(left[HEADER_SIZE..end], left[0] == STDERR), left[end..])
  {
    var here := LinesOf(left[HEADER_SIZE..end], left[0] == STDERR);
    var rest := Demux(left[end..]);
    DemuxOne(left, end, here, rest);
    Associative(done, here, rest.lines);
  }

  /** demuxLogs: one header buffer reused by every pass, a fresh buffer per payload. */
  method DemuxLogs(input: seq<byte>) returns (lines: seq<Line>, error: Option<ReadError>)
    ensures Outcome(lines, error) == Demux(input)
  {
    var reader := new Reader(input);
    var header := new byte[HEADER_SIZE];
    lines, error := [], None;
    while true
      invariant fresh(reader) && fresh(header) && reader.Valid()
      invariant Owes(input, lines, reader.Left())
      decreases |reader.Left()|
    {
      ghost var left := reader.Left();
      error := reader.ReadFull(header);
      if error.Some? {
        OwesNothing(input, lines, left);
        if error == Some(EndOfFile) {
          error := None;
        }
        return;
      }
      SizeInHeader(left);
      ghost var body := reader.Left();
      assert |body| == |left| - HEADER_SIZE;
      var streamType, payloadSize := header[0], Size(header[..]);
      ghost var end := HEADER_SIZE + payloadSize;
      var payload := new byte[payloadSize];
      error := reader.ReadFull(payload);
      if error.Some? {
        PayloadCutShort(left);
        OwesNothing(input, lines, left);
        return;
      }
      OwesTheRest(input, lines, left, end);
      PayloadOfBody(left, payloadSize);
      lines := EmitLines(Split(TrimRight(payload[..]), NEWLINE), streamType == STDERR, lines);
    }
  }

  // ---------------------------------------------------------------------
  // Frames
  // ---------------------------------------------------------------------

  datatype Frame = Frame(stream: byte, unused: seq<byte>, payload: seq<byte>)

  predicate WellFormed(f: Frame) { |f.unused| == 3 && |f.payload| < SIZE_LIMIT }

  predicate AllWellFormed(frames: seq<Frame>) { forall i :: 0 <= i < |frames| ==> WellFormed(frames[i]) }

  function BigEndian(n: nat): (r: seq<byte>)
    requires n < SIZE_LIMIT
    ensures |r| == 4
  {
    [(n / 0x100_0000) as byte, (n / 0x1_0000 % 0x100) as byte, (n / 0x100 % 0x100) as byte, (n % 0x100) as byte]
  }

  function EncodeFrame(f: Frame): seq<byte>
    requires WellFormed(f)
  {
    [f.stream] + f.unused + BigEndian(|f.payload|) + f.payload
  }

  function Encode(frames: seq<Frame>): seq<byte>
    requires AllWellFormed(frames)
  {
    if frames == [] then [] else EncodeFrame(frames[0]) + Encode(frames[1..])
  }

  function FrameLines(f: Frame): seq<Line> { LinesOf(f.payload, f.stream == STDERR) }

  function AllLines(frames: seq<Frame>): seq<Line> {
    if frames == [] then [] else FrameLines(frames[0]) + AllLines(frames[1..])
  }

  lemma FrameShape(f: Frame, rest: seq<byte>)
    requires WellFormed(f)
    ensures var s := EncodeFrame(f) + rest;
            && |s| >= HEADER_SIZE + |f.payload| && Size(s) == |f.payload| && !Incomplete(s)
            && s[0] == f.stream && s[1..4] == f.unused
            && s[HEADER_SIZE..HEADER_SIZE + |f.payload|] == f.payload
            && s[HEADER_SIZE + |f.payload|..] == rest
            && |EncodeFrame(f)| == HEADER_SIZE + |f.payload|
  {
    var s := EncodeFrame(f) + rest;
    var n := |f.payload|;
    assert s[4..8] == BigEndian(n);
    assert s[4] == BigEndian(n)[0] && s[5] == BigEndian(n)[1] && s[6] == BigEndian(n)[2] && s[7] == BigEndian(n)[3];
    DigitsOf(n);
  }

  lemma DigitsOf(n: nat)
    ensures n == n % 0x100 + n / 0x100 % 0x100 * 0x100 + n / 0x1_0000 % 0x100 * 0x1_0000 + n / 0x100_0000 * 0x100_0000
  {
    var q := n / 0x100;
    DivTwice(n, 0x100, q);
    DivTwice(q, 0x100, q / 0x100);
    assert n == q * 0x100 + n % 0x100;
    assert q == n / 0x1_0000 * 0x100 + q % 0x100;
    assert n / 0x1_0000 == n / 0x100_0000 * 0x100 + n / 0x1_0000 % 0x100;
  }

  lemma DivTwice(n: nat, d: nat, q: nat)
    requires d == 0x100 && q == n / d
    ensures n / 0x1_0000 == q / 0x100
    ensures n / 0x100_0000 == q / 0x1_0000
  {}

  /** Any complete frames followed by an incomplete tail: the frames' lines, and the tail's error. */
  lemma {:induction false} DemuxDecodes(frames: seq<Frame>, tail: seq<byte>)
    requires AllWellFormed(frames) && Incomplete(tail)
    ensures Demux(Encode(frames) + tail) == Outcome(AllLines(frames), ErrorAt(tail))
  {
    if frames == [] {
      assert Encode(frames) + tail == tail;
    } else {
      var rest := Encode(frames[1..]) + tail;
      assert Encode(frames) + tail == EncodeFrame(frames[0]) + rest;
      FrameShape(frames[0], rest);
      DemuxDecodes(frames[1..], tail);
    }
  }

  /** Round trip: an encoded stream ends without error and gives exactly the lines of its payloads, in order. */
  lemma FrameRoundTrip(frames: seq<Frame>)
    requires AllWellFormed(frames)
    ensures Demux(Encode(frames)) == Outcome(AllLines(frames), None)
  {
    DemuxDecodes(frames, []);
    assert Encode(frames) + [] == Encode(frames);
  }

  lemma {:induction false} EncodeAppend(a: seq<Frame>, b: seq<Frame>)
    requires AllWellFormed(a) && AllWellFormed(b)
    ensures Encode(a + b) == Encode(a) + Encode(b)
  {
    if a == [] {
      assert a + b == b;
    } else {
      assert (a + b)[1..] == a[1..] + b;
      EncodeAppend(a[1..], b);
    }
  }

  /** `k` is the number of frames that lie whole within the first `n` bytes. */
  ghost predicate CompleteWithin(frames: seq<Frame>, n: nat, k: nat)
    requires AllWellFormed(frames)
  {
    && k <= |frames|
    && |Encode(frames[..k])| <= n
    && (k < |frames| ==> n < |Encode(frames[..k + 1])|)
  }

  lemma {:induction false} SomeComplete(frames: seq<Frame>, n: nat) returns (k: nat)
    requires AllWellFormed(frames) && n <= |Encode(frames)|
    ensures CompleteWithin(frames, n, k)
  {
    k := 0;
    while k < |frames| && |Encode(frames[..k + 1])| <= n
      invariant k <= |frames| && |Encode(frames[..k])| <= n
    {
      k := k + 1;
    }
  }

  /** A proper prefix of a frame is incomplete. */
  lemma FramePrefixIncomplete(f: Frame, m: nat)
    requires WellFormed(f) && m < |EncodeFrame(f)|
    ensures Incomplete(EncodeFrame(f)[..m])
  {
    FrameShape(f, []);
    assert EncodeFrame(f) + [] == EncodeFrame(f);
  }

  lemma PrefixIsFramesAndTail(frames: seq<Frame>, n: nat, k: nat) returns (tail: seq<byte>)
    requires AllWellFormed(frames) && n <= |Encode(frames)| && CompleteWithin(frames, n, k)
    ensures Encode(frames)[..n] == Encode(frames[..k]) + tail && Incomplete(tail)
  {
    var done := Encode(frames[..k]);
    var m := n - |done|;
    assert frames == frames[..k] + frames[k..];
    EncodeAppend(frames[..k], frames[k..]);
    tail := Encode(frames[k..])[..m];
    if k < |frames| {
      var f := frames[k];
      assert frames[..k + 1] == frames[..k] + [f];
      EncodeAppend(frames[..k], [f]);
      assert Encode([f]) == EncodeFrame(f) + Encode([f][1..]) == EncodeFrame(f);
      FramePrefixIncomplete(f, m);
      assert frames[k..][1..] == frames[k + 1..];
      assert tail == EncodeFrame(f)[..m];
    }
  }

  /**
    Truncation: cutting the stream anywhere gives exactly the lines of the frames
    that are complete. A cut on a frame boundary is no error, one right after a
    header is the end of the file, any other is an unexpected one.
   */
  lemma Truncation(frames: seq<Frame>, n: nat) returns (k: nat)
    requires AllWellFormed(frames) && n <= |Encode(frames)|
    ensures CompleteWithin(frames, n, k)
    ensures var r, left := Demux(Encode(frames)[..n]), n - |Encode(frames[..k])|;
            && r.lines == AllLines(frames[..k])
            && r.error == if left == 0 then None else if left == 8 then Some(EndOfFile) else Some(UnexpectedEndOfFile)
  {
    k := SomeComplete(frames, n);
    var tail := PrefixIsFramesAndTail(frames, n, k);
    assert |tail| == n - |Encode(frames[..k])|;
    DemuxDecodes(frames[..k], tail);
  }

  /** The frames and the tail of an arbitrary byte string. */
  function Frames(input: seq<byte>): (seq<Frame>, seq<byte>) {
    if Incomplete(input) then ([], input)
    else
      var end := HEADER_SIZE + Size(input);
      var (frames, tail) := Frames(input[end..]);
      ([Frame(input[0], input[1..4], input[HEADER_SIZE..end])] + frames, tail)
  }

  lemma HeaderRebuilds(s: seq<byte>)
    requires |s| >= HEADER_SIZE
    ensures Size(s) < SIZE_LIMIT && BigEndian(Size(s)) == s[4..8]
  {
    var a, b, c, d := s[4] as int, s[5] as int, s[6] as int, s[7] as int;
    assert Size(s) / 0x100 == c + b * 0x100 + a * 0x1_0000;
    assert Size(s) / 0x1_0000 == b + a * 0x100;
    assert Size(s) / 0x100_0000 == a;
  }

  lemma FrontFrame(input: seq<byte>, end: nat)
    requires !Incomplete(input) && end == HEADER_SIZE + Size(input)
    ensures var f := Frame(input[0], input[1..4], input[HEADER_SIZE..end]);
            WellFormed(f) && EncodeFrame(f) == input[..end]
  {
    HeaderRebuilds(input);
  }

  lemma FramesOne(input: seq<byte>, end: nat)
    requires !Incomplete(input) && end == HEADER_SIZE + Size(input)
    ensures Frames(input)
            == ([Frame(input[0], input[1..4], input[HEADER_SIZE..end])] + Frames(input[end..]).0, Frames(input[end..]).1)
  {}

  lemma EncodeOne(f: Frame, frames: seq<Frame>)
    requires WellFormed(f) && AllWellFormed(frames)
    ensures AllWellFormed([f] + frames) && Encode([f] + frames) == EncodeFrame(f) + Encode(frames)
  {
    assert ([f] + frames)[1..] == frames;
  }

  lemma PutBack(input: seq<byte>, end: nat, f: Frame, frames: seq<Frame>, tail: seq<byte>)
    requires WellFormed(f) && AllWellFormed(frames) && end <= |input|
    requires EncodeFrame(f) == input[..end] && Encode(frames) + tail == input[end..]
    ensures AllWellFormed([f] + frames) && Encode([f] + frames) + tail == input
  {
    var front, back := EncodeFrame(f), Encode(frames);
    EncodeOne(f, frames);
    Associative(front, back, tail);
    assert input == input[..end] + input[end..];
  }

  /** Every byte string is, in exactly one way, complete frames followed by an incomplete tail. */
  lemma {:induction false} EveryStreamIsFrames(input: seq<byte>)
    ensures var (frames, tail) := Frames(input);
            AllWellFormed(frames) && Incomplete(tail) && Encode(frames) + tail == input
  {
    if !Incomplete(input) {
      var end := HEADER_SIZE + Size(input);
      var (frames, tail) := Frames(input[end..]);
      var f := Frame(input[0], input[1..4], input[HEADER_SIZE..end]);
      EveryStreamIsFrames(input[end..]);
      FrontFrame(input, end);
      FramesOne(input, end);
      PutBack(input, end, f, frames, tail);
    }
  }

  /** Hence the demultiplexer's outcome on any bytes at all: its frames' lines and its tail's error. */
  lemma DemuxOfAnything(input: seq<byte>)
    ensures Incomplete(Frames(input).1)
    ensures Demux(input) == Outcome(AllLines(Frames(input).0), ErrorAt(Frames(input).1))
  {
    EveryStreamIsFrames(input);
    DemuxDecodes(Frames(input).0, Frames(input).1);
  }

  lemma {:induction false} FramesUnique(frames: seq<Frame>, tail: seq<byte>)
    requires AllWellFormed(frames) && Incomplete(tail)
    ensures Frames(Encode(frames) + tail) == (frames, tail)
  {
    if frames == [] {
      assert Encode(frames) + tail == tail;
    } else {
      var rest := Encode(frames[1..]) + tail;
      assert Encode(frames) + tail == EncodeFrame(frames[0]) + rest;
      FrameShape(frames[0], rest);
      FramesUnique(frames[1..], tail);
      assert [frames[0]] + frames[1..] == frames;
    }
  }

  // ---------------------------------------------------------------------
  // Byte by byte
  // ---------------------------------------------------------------------

  /** Lines are what stands between the bytes 10, as long as there is something. */
  lemma LinesBetweenNewlines(a: seq<byte>, b: seq<byte>)
    ensures PlainLines(a + [10] + b) == PlainLines(a) + PlainLines(b)
    ensures 10 !in a ==> PlainLines(a) == if a == [] then [] else [a]
  {
    SplitConcat(a, NEWLINE, b);
    NonEmptyAppend(Split(a, NEWLINE), Split(b, NEWLINE));
    if 10 !in a {
      SplitWithout(a, NEWLINE);
      NonEmptyOne(a);
    }
  }

  lemma {:induction false} TaggedAt(texts: seq<seq<byte>>, stderr: bool)
    ensures |Tagged(texts, stderr)| == |texts|
    ensures forall i :: 0 <= i < |texts| ==> Tagged(texts, stderr)[i] == Line(texts[i], stderr)
  {
    if texts != [] { TaggedAt(texts[1..], stderr); }
  }

  /**
    A frame in front: byte 0 is the stream, 2 being the error stream, bytes 1 to 3
    are skipped, bytes 4 to 7 are the payload's length with the highest first.
   */
  lemma FrameInFront(h: seq<byte>, payload: seq<byte>, rest: seq<byte>)
    requires |h| == 8
    requires |payload| == ((h[4] as int * 256 + h[5] as int) * 256 + h[6] as int) * 256 + h[7] as int
    ensures var r, n := Demux(h + payload + rest), |PlainLines(payload)|;
            && |r.lines| == n + |Demux(rest).lines|
            && (forall i :: 0 <= i < n ==> r.lines[i] == Line(PlainLines(payload)[i], h[0] == 2))
            && r.lines[n..] == Demux(rest).lines
            && r.error == Demux(rest).error
  {
    var input := h + payload + rest;
    var end := HEADER_SIZE + |payload|;
    SizeInHeader(input);
    assert input[..HEADER_SIZE] == h;
    assert Size(input) == |payload|;
    assert input[HEADER_SIZE..end] == payload && input[end..] == rest && input[0] == h[0];
    DemuxOne(input, end, LinesOf(payload, h[0] == STDERR), Demux(rest));
    TrimIsHarmless(payload);
    TaggedAt(PlainLines(payload), h[0] == 2);
  }

  // ---------------------------------------------------------------------
  // Demultiplexing against plain splitting
  // ---------------------------------------------------------------------

  lemma {:induction false} NonEmptyAppend(a: seq<seq<byte>>, b: seq<seq<byte>>)
    ensures NonEmpty(a + b) == NonEmpty(a) + NonEmpty(b)
  {
    if a == [] {
      assert a + b == b;
    } else {
      assert (a + b)[1..] == a[1..] + b;
      NonEmptyAppend(a[1..], b);
    }
  }

  /** Trimming takes all newlines off the end, and nothing else. */
  lemma {:induction false} TrimTakesNewlines(s: seq<byte>, n: nat)
    requires s == [] || s[|s| - 1] != 10
    ensures TrimRight(s + seq(n, _ => 10)) == s
  {
    var t := s + seq(n, _ => 10);
    if n > 0 {
      assert t[..|t| - 1] == s + seq(n - 1, _ => 10);
      TrimTakesNewlines(s, n - 1);
    } else {
      assert t == s;
    }
  }

  /** Trimming does not matter: it only removes empty pieces. */
  lemma {:induction false} TrimIsHarmless(s: seq<byte>)
    ensures PayloadLines(s) == PlainLines(s)
  {
    if s != [] && s[|s| - 1] == NEWLINE {
      var t := s[..|s| - 1];
      TrimIsHarmless(t);
      assert s == t + [NEWLINE] + [];
      SplitConcat(t, NEWLINE, []);
      NonEmptyAppend(Split(t, NEWLINE), [[]]);
    }
  }

  /** Cutting `a + b` between the two does not cut a line. */
  predicate CleanCut(a: seq<byte>, b: seq<byte>) {
    a == [] || a[|a| - 1] == NEWLINE || b == [] || b[0] == NEWLINE
  }

  function Last<T>(s: seq<T>): T
    requires s != []
  {
    s[|s| - 1]
  }

  function Front<T>(s: seq<T>): seq<T>
    requires s != []
  {
    s[..|s| - 1]
  }

  /** Pieces of `a` and of `b`, the last of the one running into the first of the other. */
  function Merged(p: seq<seq<byte>>, q: seq<seq<byte>>): (r: seq<seq<byte>>)
    requires p != [] && q != []
    ensures r != []
  {
    if |p| == 1 then [p[0] + q[0]] + q[1..] else [p[0]] + Merged(p[1..], q)
  }

  lemma {:induction false} SplitAppend(a: seq<byte>, b: seq<byte>)
    ensures Split(a + b, NEWLINE) == Merged(Split(a, NEWLINE), Split(b, NEWLINE))
  {
    var q := Split(b, NEWLINE);
    if a == [] {
      assert a + b == b;
      assert [[]][0] + q[0] == q[0];
    } else {
      var p := Split(a[1..], NEWLINE);
      SplitAppend(a[1..], b);
      assert (a + b)[1..] == a[1..] + b && (a + b)[0] == a[0];
      if a[0] == NEWLINE {
        assert ([[]] + p)[1..] == p;
      } else {
        MergedHead(a[0], p, q);
      }
    }
  }

  lemma MergedHead(x: byte, p: seq<seq<byte>>, q: seq<seq<byte>>)
    requires p != [] && q != []
    ensures Merged([[x] + p[0]] + p[1..], q) == [[x] + Merged(p, q)[0]] + Merged(p, q)[1..]
  {
    var p' := [[x] + p[0]] + p[1..];
    if |p| == 1 {
      assert ([x] + p[0]) + q[0] == [x] + (p[0] + q[0]);
      assert Merged(p, q)[1..] == q[1..];
    } else {
      assert p'[1..] == p[1..];
      assert Merged(p, q)[1..] == Merged(p[1..], q);
    }
  }

  lemma {:induction false} LastPiece(a: seq<byte>)
    ensures Last(Split(a, NEWLINE)) == [] <==> a == [] || a[|a| - 1] == NEWLINE
  {
    if a != [] {
      LastPiece(a[1..]);
    }
  }

  lemma NonEmptyOne(p: seq<byte>)
    ensures NonEmpty([p]) == Kept(p)
  {
    assert NonEmpty([p]) == Kept(p) + NonEmpty([p][1..]);
  }

  /** The pieces of one payload, with its last set apart. */
  lemma NonEmptyLast(p: seq<seq<byte>>)
    requires p != []
    ensures NonEmpty(p) == NonEmpty(Front(p)) + Kept(Last(p))
  {
    assert p == Front(p) + [Last(p)];
    NonEmptyAppend(Front(p), [Last(p)]);
    NonEmptyOne(Last(p));
  }

  lemma {:induction false} NonEmptyMerged(p: seq<seq<byte>>, q: seq<seq<byte>>)
    requires p != [] && q != []
    ensures NonEmpty(Merged(p, q)) == NonEmpty(Front(p)) + Kept(Last(p) + q[0]) + NonEmpty(q[1..])
  {
    if |p| > 1 {
      NonEmptyMerged(p[1..], q);
      assert Front(p) == [p[0]] + Front(p[1..]);
      assert Merged(p, q)[1..] == Merged(p[1..], q);
    }
  }

  /** One cut: the pieces' lines are the whole's lines when it is clean, one line too many when it is not. */
  lemma CutLines(a: seq<byte>, b: seq<byte>)
    ensures CleanCut(a, b) ==> PlainLines(a + b) == PlainLines(a) + PlainLines(b)
    ensures !CleanCut(a, b) ==> |PlainLines(a + b)| == |PlainLines(a)| + |PlainLines(b)| - 1
  {
    var p, q := Split(a, NEWLINE), Split(b, NEWLINE);
    SplitAppend(a, b);
    LastPiece(a);
    assert q[0] == [] <==> b == [] || b[0] == NEWLINE;
    CutPieces(p, q);
  }

  lemma CutPieces(p: seq<seq<byte>>, q: seq<seq<byte>>)
    requires p != [] && q != []
    ensures Last(p) == [] || q[0] == [] ==> NonEmpty(Merged(p, q)) == NonEmpty(p) + NonEmpty(q)
    ensures Last(p) != [] && q[0] != [] ==> |NonEmpty(Merged(p, q))| == |NonEmpty(p)| + |NonEmpty(q)| - 1
  {
    NonEmptyLast(p);
    NonEmptyMerged(p, q);
    KeptMerged(NonEmpty(Front(p)), Last(p), q[0], NonEmpty(q[1..]));
  }

  lemma KeptMerged(a: seq<seq<byte>>, x: seq<byte>, y: seq<byte>, b: seq<seq<byte>>)
    ensures x == [] || y == [] ==> a + Kept(x + y) + b == (a + Kept(x)) + (Kept(y) + b)
    ensures x != [] && y != [] ==> |a + Kept(x + y) + b| == |a + Kept(x)| + |Kept(y) + b| - 1
  {
    if x == [] {
      assert x + y == y;
    } else if y == [] {
      assert x + y == x;
    }
  }

  /** The lines of each payload on its own, in order. */
  function LinesApart(payloads: seq<seq<byte>>): seq<seq<byte>> {
    if payloads == [] then [] else LinesApart(Front(payloads)) + PayloadLines(Last(payloads))
  }

  function Joined(payloads: seq<seq<byte>>): seq<byte> {
    if payloads == [] then [] else Joined(Front(payloads)) + Last(payloads)
  }

  /** No line is spread over two payloads. */
  ghost predicate NoLineCut(payloads: seq<seq<byte>>) {
    forall k :: 0 <= k < |payloads| ==> CleanCut(Joined(payloads[..k]), payloads[k])
  }

  lemma NoLineCutLast(payloads: seq<seq<byte>>)
    requires payloads != []
    ensures NoLineCut(payloads)
            <==> NoLineCut(Front(payloads)) && CleanCut(Joined(Front(payloads)), Last(payloads))
  {
    var a := Front(payloads);
    assert payloads[..|a|] == a;
    forall k | 0 <= k < |a| ensures payloads[..k] == a[..k] && payloads[k] == a[k] {}
    if NoLineCut(payloads) {
      assert CleanCut(Joined(payloads[..|a|]), payloads[|a|]);
      forall k | 0 <= k < |a| ensures CleanCut(Joined(a[..k]), a[k]) {
        assert CleanCut(Joined(payloads[..k]), payloads[k]);
      }
    }
  }

  lemma {:induction false} LinesApartBound(payloads: seq<seq<byte>>)
    ensures NoLineCut(payloads) ==> LinesApart(payloads) == PlainLines(Joined(payloads))
    ensures |LinesApart(payloads)| >= |PlainLines(Joined(payloads))|
    ensures !NoLineCut(payloads) ==> |LinesApart(payloads)| > |PlainLines(Joined(payloads))|
  {
    if payloads == [] {
      NonEmptyOne([]);
    } else {
      var a, b := Front(payloads), Last(payloads);
      LinesApartBound(a);
      TrimIsHarmless(b);
      CutLines(Joined(a), b);
      NoLineCutLast(payloads);
    }
  }

  /** Demultiplexing payload by payload is plain splitting exactly when no line is cut. */
  lemma ApartIsPlainIffNoLineCut(payloads: seq<seq<byte>>)
    ensures LinesApart(payloads) == PlainLines(Joined(payloads)) <==> NoLineCut(payloads)
  {
    LinesApartBound(payloads);
  }

  function PayloadsOf(frames: seq<Frame>, stderr: bool): seq<seq<byte>> {
    if frames == [] then []
    else PayloadsOf(Front(frames), stderr)
         + if (Last(frames).stream == STDERR) == stderr then [Last(frames).payload] else []
  }

  function TextsOf(lines: seq<Line>, stderr: bool): seq<seq<byte>> {
    if lines == [] then []
    else (if lines[0].stderr == stderr then [lines[0].text] else []) + TextsOf(lines[1..], stderr)
  }

  lemma {:induction false} TextsAppend(a: seq<Line>, b: seq<Line>, stderr: bool)
    ensures TextsOf(a + b, stderr) == TextsOf(a, stderr) + TextsOf(b, stderr)
  {
    if a == [] {
      assert a + b == b;
    } else {
      assert (a + b)[1..] == a[1..] + b && (a + b)[0] == a[0];
      TextsAppend(a[1..], b, stderr);
      Associative(if a[0].stderr == stderr then [a[0].text] else [], TextsOf(a[1..], stderr), TextsOf(b, stderr));
    }
  }

  lemma {:induction false} TextsOfTagged(texts: seq<seq<byte>>, tag: bool, stderr: bool)
    ensures TextsOf(Tagged(texts, tag), stderr) == if tag == stderr then texts else []
  {
    if texts != [] {
      TextsOfTagged(texts[1..], tag, stderr);
    }
  }

  lemma {:induction false} AllLinesAppend(frames: seq<Frame>, f: Frame)
    ensures AllLines(frames + [f]) == AllLines(frames) + FrameLines(f)
  {
    if frames == [] {
      assert frames + [f] == [f];
    } else {
      assert (frames + [f])[1..] == frames[1..] + [f];
      AllLinesAppend(frames[1..], f);
    }
  }

  /** Per stream, the callback sees the lines of that stream's payloads taken apart. */
  lemma {:induction false} StreamLines(frames: seq<Frame>, stderr: bool)
    ensures TextsOf(AllLines(frames), stderr) == LinesApart(PayloadsOf(frames, stderr))
  {
    if frames != [] {
      var a, f := Front(frames), Last(frames);
      assert frames == a + [f];
      StreamLines(a, stderr);
      AllLinesAppend(a, f);
      TextsAppend(AllLines(a), FrameLines(f), stderr);
      TextsOfTagged(PayloadLines(f.payload), f.stream == STDERR, stderr);
      ApartOneMore(PayloadsOf(a, stderr), f.payload);
    }
  }

  lemma ApartOneMore(payloads: seq<seq<byte>>, payload: seq<byte>)
    ensures LinesApart(payloads + [payload]) == LinesApart(payloads) + PayloadLines(payload)
    ensures LinesApart(payloads + []) == LinesApart(payloads) + []
  {
    assert Front(payloads + [payload]) == payloads && payloads + [] == payloads;
  }

  /**
    For each stream of any encoded sequence of frames: the lines emitted are the
    non-empty lines of the concatenated payloads iff the frames cut no line.
   */
  lemma DemuxIsPlainSplitting(frames: seq<Frame>, stderr: bool)
    requires AllWellFormed(frames)
    ensures var payloads := PayloadsOf(frames, stderr);
            TextsOf(Demux(Encode(frames)).lines, stderr) == PlainLines(Joined(payloads)) <==> NoLineCut(payloads)
  {
    FrameRoundTrip(frames);
    StreamLines(frames, stderr);
    ApartIsPlainIffNoLineCut(PayloadsOf(frames, stderr));
  }

  lemma {:induction false} PayloadsFrom(frames: seq<Frame>, stderr: bool)
    ensures forall p :: p in PayloadsOf(frames, stderr) ==> exists i :: 0 <= i < |frames| && frames[i].payload == p
  {
    if frames != [] {
      PayloadsFrom(Front(frames), stderr);
      assert frames[|frames| - 1] == Last(frames);
    }
  }

  lemma {:induction false} JoinedEnds(payloads: seq<seq<byte>>)
    requires forall p :: p in payloads ==> p != [] && Last(p) == NEWLINE
    ensures Joined(payloads) == [] || Last(Joined(payloads)) == NEWLINE
  {
    if payloads != [] {
      assert Last(payloads) in payloads;
    }
  }

  /** The usual case: every payload ends in a newline, however the stream is cut into frames. */
  lemma WholeLinesSurvive(frames: seq<Frame>, stderr: bool)
    requires AllWellFormed(frames)
    requires forall i :: 0 <= i < |frames| ==> frames[i].payload != [] && Last(frames[i].payload) == NEWLINE
    ensures TextsOf(Demux(Encode(frames)).lines, stderr) == PlainLines(Joined(PayloadsOf(frames, stderr)))
  {
    var payloads := PayloadsOf(frames, stderr);
    PayloadsFrom(frames, stderr);
    forall k | 0 <= k < |payloads| ensures CleanCut(Joined(payloads[..k]), payloads[k]) {
      forall p | p in payloads[..k] ensures p != [] && Last(p) == NEWLINE { assert p in payloads; }
      JoinedEnds(payloads[..k]);
    }
    DemuxIsPlainSplitting(frames, stderr);
  }

  /** Two frames of one stream that cut a line: two lines come out of it, where plain splitting has one. */
  const CUT_LINE := [Frame(1, [0, 0, 0], [97]), Frame(1, [0, 0, 0], [98, NEWLINE])]

  lemma CutLineIsTwo()
    ensures AllWellFormed(CUT_LINE) && !NoLineCut(PayloadsOf(CUT_LINE, false))
    ensures TextsOf(Demux(Encode(CUT_LINE)).lines, false) == [[97], [98]]
    ensures PlainLines(Joined(PayloadsOf(CUT_LINE, false))) == [[97, 98]]
  {
    CutPayloads();
    CutLinesApart();
    FrameRoundTrip(CUT_LINE);
    StreamLines(CUT_LINE, false);
    ApartIsPlainIffNoLineCut([[97], [98, NEWLINE]]);
  }

  lemma CutPayloads()
    ensures PayloadsOf(CUT_LINE, false) == [[97], [98, NEWLINE]]
  {
    var f, g := CUT_LINE[0], CUT_LINE[1];
    assert Front(CUT_LINE) == [f] && Front([f]) == [];
    assert PayloadsOf([f], false) == PayloadsOf([], false) + [f.payload] == [f.payload];
    assert PayloadsOf(CUT_LINE, false) == [f.payload] + [g.payload];
  }

  lemma CutLinesApart()
    ensures LinesApart([[97], [98, NEWLINE]]) == [[97], [98]]
    ensures PlainLines(Joined([[97], [98, NEWLINE]])) == [[97, 98]]
  {
    LinesOfLetters();
    ApartOneMore([], [97]);
    ApartOneMore([[97]], [98, NEWLINE]);
    assert [] + [[97]] == [[97]] && [[97]] + [[98, NEWLINE]] == [[97], [98, NEWLINE]];
    assert LinesApart([[97]]) == [] + [[97]] == [[97]];
    assert [[97]] + [[98]] == [[97], [98]];
    assert Front([[97], [98, NEWLINE]]) == [[97]] && Front([[97]]) == [];
    assert Joined([[97]]) == [] + [97] == [97];
    assert [97] + [98, NEWLINE] == [97, 98, NEWLINE];
  }

  lemma LinesOfLetters()
    ensures PayloadLines([97]) == [[97]] && PayloadLines([98, NEWLINE]) == [[98]]
    ensures PlainLines([97, 98, NEWLINE]) == [[97, 98]]
  {
    SplitWithout([97], NEWLINE);
    SplitWithout([98], NEWLINE);
    SplitWithout<byte>([97, 98], NEWLINE);
    SplitWithout<byte>([], NEWLINE);
    assert [98] + [NEWLINE] + [] == [98, NEWLINE] && [97, 98] + [NEWLINE] + [] == [97, 98, NEWLINE];
    SplitConcat([98], NEWLINE, []);
    SplitConcat([97, 98], NEWLINE, []);
    TrimIsHarmless([97]);
    TrimIsHarmless([98, NEWLINE]);
    assert NonEmpty([[97]]) == [[97]];
    assert NonEmpty([[98], []]) == [[98]] + NonEmpty([[98], []][1..]);
    assert NonEmpty([[97, 98], []]) == [[97, 98]] + NonEmpty([[97, 98], []][1..]);
  }
}

/** Line and blob framing of the ZSMTP byte stream. */
module Framing {
  import opened Utf8
  import opened Text

  const MAX_LINE: nat := 4096
  const MAX_BLOB: nat := 0x10_0000
  const USIZE_MAX: nat := 0xFFFF_FFFF_FFFF_FFFF

  datatype FramingError =
    | Closed
    | LineTooLong
    | NotTerminated
    | NotUtf8
    | NoBlobHeader
    | BadBlobSize
    | BlobTooLarge
    | UnexpectedEnd

  /** What a read yields: a value and the bytes still unread, or an error. */
  datatype Taken<+T> = Took(value: T, rest: Bytes) | Refused(error: FramingError)

  // ---------------------------------------------------------------- writing

  function LineBytes(line: string): Bytes {
    Encode(line) + [CR, LF]
  }

  function BlobBytes(data: Bytes): Bytes {
    LineBytes("BLOB " + ToDecimal(|data|)) + data
  }

  predicate Writable(line: string) {
    |Encode(line)| <= MAX_LINE
  }

  // ---------------------------------------------------------------- reading

  /** How many bytes reading up to and including the next line feed takes. */
  function UntilLf(b: Bytes): (n: nat)
    ensures n <= |b|
    ensures b != [] ==> n > 0
    ensures forall i | 0 <= i < n - 1 :: b[i] != LF
    ensures n < |b| ==> n > 0 && b[n - 1] == LF
  {
    if b == [] then 0
    else if b[0] == LF then 1
    else
      assert forall i | 1 <= i < |b| :: b[i] == b[1..][i - 1];
      1 + UntilLf(b[1..])
  }

  function DecodedLine(line: Bytes, rest: Bytes): Taken<string> {
    match Decode(line)
    case None => Refused(NotUtf8)
    case Some(s) => Took(s, rest)
  }

  /** `read_line`: a line without its terminator. */
  function TakeLine(b: Bytes): Taken<string> {
    var n := UntilLf(b);
    if b == [] then Refused(Closed)
    else if n > MAX_LINE then Refused(LineTooLong)
    else if n >= 2 && b[n - 2] == CR && b[n - 1] == LF then DecodedLine(b[..n - 2], b[n..])
    else if b[n - 1] == LF then DecodedLine(b[..n - 1], b[n..])
    else Refused(NotTerminated)
  }

  /** `read_blob`: a `BLOB n` header line, then exactly `n` bytes. */
  function TakeBlob(b: Bytes): Taken<Bytes> {
    match TakeLine(b)
    case Refused(e) => Refused(e)
    case Took(header, rest) =>
      if !StartsWith(header, "BLOB ") then Refused(NoBlobHeader)
      else
        match ParseUnsigned(Trim(header[5..]), USIZE_MAX)
        case None => Refused(BadBlobSize)
        case Some(n) =>
          if n > MAX_BLOB then Refused(BlobTooLarge)
          else if n > |rest| then Refused(UnexpectedEnd)
          else Took(rest[..n], rest[n..])
  }

  /** What a read of a line leaves on the stream, whether it is refused or not. */
  function PastLine(b: Bytes): Bytes {
    b[UntilLf(b)..]
  }

  /** What a read of a blob leaves: a body that is cut short is used up. */
  function PastBlob(b: Bytes): Bytes {
    match TakeBlob(b)
    case Took(_, rest) => rest
    case Refused(e) => if e == UnexpectedEnd then [] else PastLine(b)
  }

  /** One direction of a connection: the bytes written and not yet read. */
  class Channel {
    var data: Bytes

    constructor ()
      ensures data == []
    {
      data := [];
    }

    method WriteLine(line: string) returns (ok: bool)
      modifies this
      ensures ok == Writable(line)
      ensures data == old(data) + if ok then LineBytes(line) else []
    {
      if |Encode(line)| > MAX_LINE {
        return false;
      }
      data := data + Encode(line);
      data := data + [CR, LF];
      return true;
    }

    method WriteBlob(blob: Bytes) returns (ok: bool)
      modifies this
      ensures ok == (|blob| <= MAX_BLOB)
      ensures data == old(data) + if ok then BlobBytes(blob) else []
    {
      if |blob| > MAX_BLOB {
        return false;
      }
      hide Encode, ToDecimal;
      BlobHeaderFits(|blob|);
      var wrote := WriteLine("BLOB " + ToDecimal(|blob|));
      assert old(data) + LineBytes("BLOB " + ToDecimal(|blob|)) + blob == old(data) + BlobBytes(blob);
      data := data + blob;
      return true;
    }

    method ReadLine() returns (r: Taken<string>)
      modifies this
      ensures r == TakeLine(old(data)) && data == PastLine(old(data))
      ensures r.Took? ==> data == r.rest
    {
      var n := 0;
      while n < |data| && (n == 0 || data[n - 1] != LF)
        invariant 0 <= n <= |data|
        invariant forall i | 0 <= i < n - 1 :: data[i] != LF
        invariant data == old(data)
      {
        n := n + 1;
      }
      assert n == UntilLf(data);
      var b := data;
      var line := data[..n];
      data := data[n..];
      if n == 0 {
        return Refused(Closed);
      }
      if |line| > MAX_LINE {
        return Refused(LineTooLong);
      }
      if n >= 2 && line[n - 2] == CR && line[n - 1] == LF {
        assert line[..n - 2] == b[..n - 2];
        r := DecodedLine(line[..n - 2], data);
      } else if line[n - 1] == LF {
        assert line[..n - 1] == b[..n - 1];
        r := DecodedLine(line[..n - 1], data);
      } else {
        r := Refused(NotTerminated);
      }
    }

    method ReadBlob() returns (r: Taken<Bytes>)
      modifies this
      ensures r == TakeBlob(old(data)) && data == PastBlob(old(data))
      ensures r.Took? ==> data == r.rest
    {
      var header := ReadLine();
      if header.Refused? {
        return Refused(header.error);
      }
      if !StartsWith(header.value, "BLOB ") {
        return Refused(NoBlobHeader);
      }
      var size := ParseUnsigned(Trim(header.value[5..]), USIZE_MAX);
      if size.None? {
        return Refused(BadBlobSize);
      }
      if size.value > MAX_BLOB {
        return Refused(BlobTooLarge);
      }
      if size.value > |data| {
        data := [];
        return Refused(UnexpectedEnd);
      }
      r := Took(data[..size.value], data[size.value..]);
      data := data[size.value..];
    }
  }

  // -------------------------------------------------------------- properties

  lemma UntilLfIs(b: Bytes, n: nat)
    requires 0 < n <= |b| && b[n - 1] == LF && forall i | 0 <= i < n - 1 :: b[i] != LF
    ensures UntilLf(b) == n
  {
    var m := UntilLf(b);
    assert m >= n && m <= n;
  }

  predicate LfFree(s: string) {
    '\n' !in s
  }

  /** A written line comes back, with exactly the rest of the stream left, precisely when it
      holds no line feed and takes at most 4094 bytes. The writer accepts up to 4096, so
      4095- and 4096-byte lines can be written and never read. */
  lemma LineReadsBack(line: string, rest: Bytes)
    ensures TakeLine(LineBytes(line) + rest) == Took(line, rest)
            <==> LfFree(line) && |Encode(line)| <= MAX_LINE - 2
  {
    hide Encode, Decode, TakeLine;
    if LfFree(line) {
      EncodeAsciiMember(line, '\n');
      DecodeEncode(line);
      LineBytesTaken(Encode(line), rest);
    } else {
      LineWithLfIsCut(line, rest);
    }
  }

  /** A line without a line feed is taken at its terminator, unless the two together are over the limit. */
  lemma LineBytesTaken(e: Bytes, rest: Bytes)
    requires LF !in e
    ensures TakeLine(e + [CR, LF] + rest) == if |e| + 2 > MAX_LINE then Refused(LineTooLong) else DecodedLine(e, rest)
  {
    hide Decode, UntilLf;
    var b := e + [CR, LF] + rest;
    assert forall i | 0 <= i < |e| + 1 :: b[i] == (e + [CR])[i] && b[i] != LF;
    UntilLfIs(b, |e| + 2);
    assert b[..|e|] == e && b[|e| + 2..] == rest;
  }

  lemma LineWithLfIsCut(line: string, rest: Bytes)
    requires !LfFree(line)
    ensures TakeLine(LineBytes(line) + rest) != Took(line, rest)
  {
    hide Encode, Decode, UntilLf;
    var e := Encode(line);
    var b := LineBytes(line) + rest;
    EncodeAsciiMember(line, '\n');
    var k :| 0 <= k < |e| && e[k] == LF;
    assert b[k] == LF && |b| == |e| + 2 + |rest|;
    var n := UntilLf(b);
    assert n <= k + 1;
    assert |b[n..]| > |rest|;
  }

  lemma BlobHeaderFits(n: nat)
    requires n <= MAX_BLOB
    ensures |ToDecimal(n)| <= 7 && |Encode("BLOB " + ToDecimal(n))| <= 12
    ensures LfFree("BLOB " + ToDecimal(n))
  {
    DecimalLength(n, 7);
    EncodeAscii("BLOB " + ToDecimal(n));
  }

  lemma {:induction false} DecimalLength(n: nat, k: nat)
    requires 0 < k && n < Pow10(k)
    ensures |ToDecimal(n)| <= k
  {
    if n >= 10 { DecimalLength(n / 10, k - 1); }
  }

  function Pow10(k: nat): nat {
    if k == 0 then 1 else 10 * Pow10(k - 1)
  }

  /** A written blob comes back byte for byte, with exactly the rest of the stream left. */
  lemma BlobReadsBack(data: Bytes, rest: Bytes)
    requires |data| <= MAX_BLOB
    ensures TakeBlob(BlobBytes(data) + rest) == Took(data, rest)
  {
    var n := ToDecimal(|data|);
    var header := "BLOB " + n;
    BlobHeaderFits(|data|);
    LineReadsBack(header, data + rest);
    assert BlobBytes(data) + rest == LineBytes(header) + (data + rest);
    assert header[5..] == n;
    TrimNothing(n);
    ParseDecimal(|data|, USIZE_MAX);
    assert (data + rest)[..|data|] == data && (data + rest)[|data|..] == rest;
  }

  // -------------------------------------------------- streams that are cut off

  /** What is read of a stream's beginning is what is read of the stream: more bytes change nothing but the rest. */
  lemma LineOfPrefix(p: Bytes, q: Bytes)
    requires TakeLine(p).Took?
    ensures TakeLine(p + q) == Took(TakeLine(p).value, TakeLine(p).rest + q)
  {
    hide Decode, UntilLf;
    var n := UntilLf(p);
    assert p[n - 1] == LF;
    UntilLfIs(p + q, n);
    assert (p + q)[n..] == p[n..] + q && (p + q)[..n - 1] == p[..n - 1];
    if n >= 2 { assert (p + q)[..n - 2] == p[..n - 2]; }
  }

  lemma BlobOfPrefix(p: Bytes, q: Bytes)
    requires TakeBlob(p).Took?
    ensures TakeBlob(p + q) == Took(TakeBlob(p).value, TakeBlob(p).rest + q)
  {
    hide TakeLine, ParseUnsigned, Trim, StartsWith;
    LineOfPrefix(p, q);
    var rest, body := TakeLine(p).rest, TakeBlob(p).value;
    assert (rest + q)[..|body|] == rest[..|body|] && (rest + q)[|body|..] == rest[|body|..] + q;
  }

  // ------------------------------------------------- streams of many frames

  datatype Frame = Line(text: string) | Blob(data: Bytes)

  predicate Readable(f: Frame) {
    match f
    case Line(s) => LfFree(s) && |Encode(s)| <= MAX_LINE - 2
    case Blob(d) => |d| <= MAX_BLOB
  }

  function FrameBytes(f: Frame): Bytes {
    match f
    case Line(s) => LineBytes(s)
    case Blob(d) => BlobBytes(d)
  }

  function StreamOf(frames: seq<Frame>): Bytes {
    if frames == [] then [] else FrameBytes(frames[0]) + StreamOf(frames[1..])
  }

  /** Reads one frame of each of the given kinds, in order. */
  function TakeFrames(lines: seq<bool>, b: Bytes): Taken<seq<Frame>> {
    if lines == [] then Took([], b)
    else if lines[0] then
      match TakeLine(b)
      case Refused(e) => Refused(e)
      case Took(s, rest) => Prepend(Line(s), TakeFrames(lines[1..], rest))
    else
      match TakeBlob(b)
      case Refused(e) => Refused(e)
      case Took(d, rest) => Prepend(Blob(d), TakeFrames(lines[1..], rest))
  }

  function Prepend(f: Frame, t: Taken<seq<Frame>>): Taken<seq<Frame>> {
    match t
    case Refused(e) => Refused(e)
    case Took(fs, rest) => Took([f] + fs, rest)
  }

  function Kinds(frames: seq<Frame>): seq<bool> {
    if frames == [] then [] else [frames[0].Line?] + Kinds(frames[1..])
  }

  lemma FrameReadsBack(f: Frame, kinds: seq<bool>, tail: Bytes)
    requires Readable(f)
    ensures TakeFrames([f.Line?] + kinds, FrameBytes(f) + tail) == Prepend(f, TakeFrames(kinds, tail))
  {
    assert ([f.Line?] + kinds)[1..] == kinds;
    match f
    case Line(s) => LineReadsBack(s, tail);
    case Blob(d) => BlobReadsBack(d, tail);
  }

  /** Any mix of lines and blobs is read back in order, leaving what followed it. */
  lemma {:induction false} FramesReadBack(frames: seq<Frame>, rest: Bytes)
    requires forall f | f in frames :: Readable(f)
    ensures TakeFrames(Kinds(frames), StreamOf(frames) + rest) == Took(frames, rest)
  {
    if frames == [] {
      assert StreamOf(frames) + rest == rest;
    } else {
      var tail := StreamOf(frames[1..]) + rest;
      assert StreamOf(frames) + rest == FrameBytes(frames[0]) + tail;
      FramesReadBack(frames[1..], rest);
      FrameReadsBack(frames[0], Kinds(frames[1..]), tail);
      assert [frames[0]] + frames[1..] == frames;
    }
  }

  /** So two streams of frames of the same kinds never share their bytes. */
  lemma FramingUnique(xs: seq<Frame>, ys: seq<Frame>, xrest: Bytes, yrest: Bytes)
    requires forall f | f in xs + ys :: Readable(f)
    requires Kinds(xs) == Kinds(ys) && StreamOf(xs) + xrest == StreamOf(ys) + yrest
    ensures xs == ys && xrest == yrest
  {
    FramesReadBack(xs, xrest);
    FramesReadBack(ys, yrest);
  }
}

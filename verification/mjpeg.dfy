/** The MJPEG live stream: each processed frame, once encoded as JPEG, is sent as one part
    of a `multipart/x-mixed-replace; boundary=frame` body (RFC 2046, section 5.1.1). A part
    is the boundary line, a `Content-Type` and a `Content-Length` header, an empty line,
    the JPEG bytes and a closing CRLF.

    Besides the byte layout, this module gives a strict reader of such parts and proves that
    a client reading the stream gets back exactly the payloads the server encoded. The two
    stream generators are modelled as loops over a finite sequence of polls, each poll
    being what the latest-frame slot held and what encoding it returned. */
module Mjpeg {

  import opened Common

  newtype byte = x: int | 0 <= x < 256

  /** The bytes of an ASCII text. */
  function Ascii(s: string): (b: seq<byte>)
    requires forall i :: 0 <= i < |s| ==> s[i] as int < 128
    ensures |b| == |s| && forall i :: 0 <= i < |s| ==> b[i] as int == s[i] as int
  {
    seq(|s|, i requires 0 <= i < |s| => s[i] as int as byte)
  }

  const BOUNDARY_LINE: seq<byte> := Ascii("--frame\r\n")
  const CONTENT_TYPE_LINE: seq<byte> := Ascii("Content-Type: image/jpeg\r\n")
  const CONTENT_LENGTH_NAME: seq<byte> := Ascii("Content-Length: ")
  const CRLF: seq<byte> := Ascii("\r\n")

  /** Everything of a part that comes before the decimal length. */
  const PREAMBLE: seq<byte> := BOUNDARY_LINE + CONTENT_TYPE_LINE + CONTENT_LENGTH_NAME

  predicate IsDigit(b: byte)
  {
    48 <= b <= 57
  }

  function DigitByte(d: nat): (b: byte)
    requires d < 10
    ensures IsDigit(b) && b as int - 48 == d
  {
    (48 + d) as byte
  }

  /** The decimal rendering of `n`, as `str(n).encode()` produces it. */
  function Decimal(n: nat): seq<byte>
    decreases n
  {
    if n < 10 then [DigitByte(n)] else Decimal(n / 10) + [DigitByte(n % 10)]
  }

  /** The number a string of decimal digits denotes. */
  function DecimalValue(d: seq<byte>): nat
    requires forall i :: 0 <= i < |d| ==> IsDigit(d[i])
    decreases |d|
  {
    if d == [] then 0
    else
      assert IsDigit(d[|d| - 1]);
      DecimalValue(d[..|d| - 1]) * 10 + (d[|d| - 1] as int - 48)
  }

  /** A non-empty digit string without a leading zero (other than "0" itself). */
  predicate Canonical(d: seq<byte>)
  {
    && |d| >= 1
    && (forall i :: 0 <= i < |d| ==> IsDigit(d[i]))
    && (d[0] == 48 ==> |d| == 1)
  }

  /** Rendering a number in decimal gives a canonical digit string denoting that number. */
  lemma {:induction false} DecimalRoundTrip(n: nat)
    ensures Canonical(Decimal(n)) && DecimalValue(Decimal(n)) == n
    decreases n
  {
    if n >= 10 {
      DecimalRoundTrip(n / 10);
      var d := Decimal(n);
      assert d[..|d| - 1] == Decimal(n / 10);
      assert d[0] == Decimal(n / 10)[0];
    }
  }

  /** A digit string not starting with '0' denotes a positive number. */
  lemma {:induction false} LeadingDigitPositive(d: seq<byte>)
    requires |d| >= 1 && (forall i :: 0 <= i < |d| ==> IsDigit(d[i])) && d[0] != 48
    ensures DecimalValue(d) >= 1
    decreases |d|
  {
    if |d| > 1 {
      LeadingDigitPositive(d[..|d| - 1]);
    }
  }

  /** Every canonical digit string is the decimal rendering of the number it denotes. */
  lemma {:induction false} CanonicalIsDecimal(d: seq<byte>)
    requires Canonical(d)
    ensures Decimal(DecimalValue(d)) == d
    decreases |d|
  {
    if |d| > 1 {
      var init := d[..|d| - 1];
      assert init[0] == d[0];
      LeadingDigitPositive(init);
      CanonicalIsDecimal(init);
      var n := DecimalValue(d);
      var k := d[|d| - 1] as int - 48;
      assert n == DecimalValue(init) * 10 + k;
      assert n / 10 == DecimalValue(init) && n % 10 == k;
      assert d == init + [d[|d| - 1]];
    }
  }

  /** One part of the stream, for a JPEG payload. */
  function Chunk(payload: seq<byte>): seq<byte>
  {
    BOUNDARY_LINE + CONTENT_TYPE_LINE + CONTENT_LENGTH_NAME + Decimal(|payload|) + CRLF
      + CRLF + payload + CRLF
  }

  /** A chunk is the preamble, the payload length in decimal, an empty line, the payload and
      a CRLF, in that order and nothing else. */
  lemma ChunkLayout(payload: seq<byte>)
    ensures var c := Chunk(payload);
      var n := |PREAMBLE| + |Decimal(|payload|)|;
      && |c| == n + 4 + |payload| + 2
      && c[..|BOUNDARY_LINE|] == Ascii("--frame\r\n")
      && c[|BOUNDARY_LINE|..|BOUNDARY_LINE| + |CONTENT_TYPE_LINE|] == Ascii("Content-Type: image/jpeg\r\n")
      && c[|BOUNDARY_LINE| + |CONTENT_TYPE_LINE|..|PREAMBLE|] == Ascii("Content-Length: ")
      && c[|PREAMBLE|..n] == Decimal(|payload|)
      && c[n..n + 4] == Ascii("\r\n\r\n")
      && c[n + 4..n + 4 + |payload|] == payload
      && c[n + 4 + |payload|..] == Ascii("\r\n")
  {
    var c := Chunk(payload);
    var d := Decimal(|payload|);
    assert c == PREAMBLE + d + (CRLF + CRLF) + payload + CRLF;
    assert CRLF + CRLF == Ascii("\r\n\r\n");
  }

  /** The number of leading decimal digits of `s`. */
  function DigitSpan(s: seq<byte>): (k: nat)
    ensures k <= |s|
    ensures forall i :: 0 <= i < k ==> IsDigit(s[i])
    ensures k < |s| ==> !IsDigit(s[k])
    decreases |s|
  {
    if s == [] || !IsDigit(s[0]) then 0 else 1 + DigitSpan(s[1..])
  }

  lemma {:induction false} DigitSpanOfDigits(d: seq<byte>, x: seq<byte>)
    requires forall i :: 0 <= i < |d| ==> IsDigit(d[i])
    requires x != [] && !IsDigit(x[0])
    ensures DigitSpan(d + x) == |d|
    decreases |d|
  {
    if d != [] {
      assert (d + x)[1..] == d[1..] + x;
      DigitSpanOfDigits(d[1..], x);
    }
  }

  /** A part read off the front of a byte stream: its payload and what follows it. */
  datatype Part = Part(payload: seq<byte>, rest: seq<byte>)

  /** Reads what follows the length header of a part announcing `n` payload bytes: an
      empty line, the payload and a CRLF. */
  function ReadBody(u: seq<byte>, n: nat): (r: Option<Part>)
    ensures r.Some? ==> |r.value.rest| < |u|
  {
    if |u| < n + 6 || u[..4] != CRLF + CRLF || u[n + 4..n + 6] != CRLF then None
    else Some(Part(u[4..n + 4], u[n + 6..]))
  }

  /** Reads one part off the front of `s`: the exact preamble, a canonical decimal length
      `n`, an empty line, `n` payload bytes and a CRLF; anything else is rejected. */
  function ParsePart(s: seq<byte>): (r: Option<Part>)
    ensures r.Some? ==> |r.value.rest| < |s|
  {
    var p := |PREAMBLE|;
    if |s| < p || s[..p] != PREAMBLE then None else ParseLength(s[p..])
  }

  /** Reads the part from its decimal length on. */
  function ParseLength(t: seq<byte>): (r: Option<Part>)
    ensures r.Some? ==> |r.value.rest| < |t|
  {
    var k := DigitSpan(t);
    if k == 0 || (k > 1 && t[0] == 48) then None
    else ReadBody(t[k..], DecimalValue(t[..k]))
  }

  /** A canonical length followed by a non-digit is read as that length. */
  lemma ParseLengthOf(d: seq<byte>, u: seq<byte>)
    requires Canonical(d) && u != [] && !IsDigit(u[0])
    ensures ParseLength(d + u) == ReadBody(u, DecimalValue(d))
  {
    DigitSpanOfDigits(d, u);
    assert (d + u)[..|d|] == d;
    assert (d + u)[|d|..] == u;
  }

  lemma ReadBodyOf(payload: seq<byte>, rest: seq<byte>)
    ensures ReadBody(CRLF + CRLF + payload + CRLF + rest, |payload|) == Some(Part(payload, rest))
  {
    var u := CRLF + CRLF + payload + CRLF + rest;
    assert u[..4] == CRLF + CRLF;
    assert u[4..|payload| + 4] == payload;
    assert u[|payload| + 4..|payload| + 6] == CRLF;
    assert u[|payload| + 6..] == rest;
  }

  lemma ReadBodyInverse(u: seq<byte>, n: nat)
    requires ReadBody(u, n).Some?
    ensures var part := ReadBody(u, n).value;
      |part.payload| == n && u == CRLF + CRLF + part.payload + CRLF + part.rest
  {
    assert u == u[..4] + u[4..n + 4] + u[n + 4..n + 6] + u[n + 6..];
  }

  /** Reading a part back from a chunk followed by anything yields the payload and leaves
      exactly what followed. */
  lemma ParseChunk(payload: seq<byte>, rest: seq<byte>)
    ensures ParsePart(Chunk(payload) + rest) == Some(Part(payload, rest))
  {
    var d := Decimal(|payload|);
    DecimalRoundTrip(|payload|);
    var u := CRLF + CRLF + payload + CRLF + rest;
    var s := Chunk(payload) + rest;
    Reassociate(PREAMBLE, d, CRLF, payload, rest);
    assert s == PREAMBLE + (d + u);
    assert s[..|PREAMBLE|] == PREAMBLE && s[|PREAMBLE|..] == d + u;
    ParseLengthOf(d, u);
    ReadBodyOf(payload, rest);
  }

  /** Whatever the reader accepts is a chunk followed by the rest it reports. */
  lemma ParsedIsChunk(s: seq<byte>)
    requires ParsePart(s).Some?
    ensures s == Chunk(ParsePart(s).value.payload) + ParsePart(s).value.rest
  {
    var p := |PREAMBLE|;
    var t := s[p..];
    var k := DigitSpan(t);
    var digits := t[..k];
    var u := t[k..];
    var n := DecimalValue(digits);
    var part := ReadBody(u, n).value;
    assert ParsePart(s).value == part;
    assert Canonical(digits);
    CanonicalIsDecimal(digits);
    ReadBodyInverse(u, n);
    assert s == s[..p] + t && t == digits + u;
    ChunkOfPieces(s, digits, part.payload, part.rest);
  }

  lemma ChunkOfPieces(s: seq<byte>, digits: seq<byte>, payload: seq<byte>, rest: seq<byte>)
    requires Decimal(|payload|) == digits
    requires s == PREAMBLE + (digits + (CRLF + CRLF + payload + CRLF + rest))
    ensures s == Chunk(payload) + rest
  {
    Reassociate(PREAMBLE, digits, CRLF, payload, rest);
  }

  lemma Reassociate(pre: seq<byte>, d: seq<byte>, r: seq<byte>, p: seq<byte>, rest: seq<byte>)
    ensures pre + d + r + r + p + r + rest == pre + (d + (r + r + p + r + rest))
  {
    var tail := r + r + p + r + rest;
    assert pre + (d + tail) == pre + d + tail;
    assert d + tail == d + r + r + p + r + rest;
  }

  /** The body a server sends for the given payloads: their chunks, one after another. */
  function Stream(payloads: seq<seq<byte>>): seq<byte>
    decreases |payloads|
  {
    if payloads == [] then [] else Chunk(payloads[0]) + Stream(payloads[1..])
  }

  /** The concatenation of a sequence of chunks. */
  function Flatten(chunks: seq<seq<byte>>): seq<byte>
    decreases |chunks|
  {
    if chunks == [] then [] else chunks[0] + Flatten(chunks[1..])
  }

  /** A client's reading of a whole body: parts until the body is used up. */
  function ParseStream(s: seq<byte>): Option<seq<seq<byte>>>
    decreases |s|
  {
    if s == [] then Some([])
    else match ParsePart(s)
      case None => None
      case Some(part) =>
        match ParseStream(part.rest)
        case None => None
        case Some(more) => Some([part.payload] + more)
  }

  /** A client reading the body recovers exactly the payloads, in order. */
  lemma {:induction false} StreamRoundTrip(payloads: seq<seq<byte>>)
    ensures ParseStream(Stream(payloads)) == Some(payloads)
    decreases |payloads|
  {
    if payloads != [] {
      var rest := Stream(payloads[1..]);
      ParseChunk(payloads[0], rest);
      StreamRoundTrip(payloads[1..]);
      StreamCons(Chunk(payloads[0]) + rest, payloads[0], rest, payloads[1..]);
      assert [payloads[0]] + payloads[1..] == payloads;
    }
  }

  /** A part followed by a readable body makes a readable body. */
  lemma StreamCons(s: seq<byte>, payload: seq<byte>, rest: seq<byte>, more: seq<seq<byte>>)
    requires ParsePart(s) == Some(Part(payload, rest))
    requires ParseStream(rest) == Some(more)
    ensures ParseStream(s) == Some([payload] + more)
  {
  }

  /** Every body the client accepts is the body of the payloads it reports. */
  lemma {:induction false} ParsedIsStream(s: seq<byte>)
    requires ParseStream(s).Some?
    ensures Stream(ParseStream(s).value) == s
    decreases |s|
  {
    if s != [] {
      var part := ParsePart(s).value;
      ParsedIsChunk(s);
      ParsedIsStream(part.rest);
      var ps := ParseStream(s).value;
      assert ps[0] == part.payload && ps[1..] == ParseStream(part.rest).value;
    }
  }

  /** A sequence of chunks, one per payload, concatenates to the stream of those payloads. */
  lemma {:induction false} FlattenChunks(chunks: seq<seq<byte>>, payloads: seq<seq<byte>>)
    requires |chunks| == |payloads|
    requires forall i :: 0 <= i < |chunks| ==> chunks[i] == Chunk(payloads[i])
    ensures Flatten(chunks) == Stream(payloads)
    ensures ParseStream(Flatten(chunks)) == Some(payloads)
    decreases |chunks|
  {
    if chunks != [] {
      FlattenChunks(chunks[1..], payloads[1..]);
    }
    StreamRoundTrip(payloads);
  }

  /** What JPEG encoding of the slot's frame gave: bytes, a failure flag, or an exception. */
  datatype Encoding = Encoded(bytes: seq<byte>) | EncodeFailed | EncodeRaised

  /** One iteration of a stream generator: the slot's content and, when it held a frame,
      what encoding that frame gave. */
  datatype Poll = Poll(slot: Option<Frame>, encoding: Encoding)

  /** The payloads a generator yields for `polls`: the encoded bytes of every poll whose
      slot held a frame that encoded successfully, in order. */
  function Payloads(polls: seq<Poll>): seq<seq<byte>>
    decreases |polls|
  {
    if polls == [] then []
    else
      var p := polls[|polls| - 1];
      var before := Payloads(polls[..|polls| - 1]);
      if p.slot.Some? && p.encoding.Encoded? then before + [p.encoding.bytes] else before
  }

  /** The number of polls that found the slot empty. */
  function EmptyPolls(polls: seq<Poll>): nat
    decreases |polls|
  {
    if polls == [] then 0
    else EmptyPolls(polls[..|polls| - 1]) + (if polls[|polls| - 1].slot.None? then 1 else 0)
  }

  /** While the slot stays empty nothing is yielded, and every poll counts as a wait. */
  lemma {:induction false} EmptySlotYieldsNothing(polls: seq<Poll>)
    requires forall i :: 0 <= i < |polls| ==> polls[i].slot.None?
    ensures Payloads(polls) == [] && EmptyPolls(polls) == |polls|
    decreases |polls|
  {
    if polls != [] {
      EmptySlotYieldsNothing(polls[..|polls| - 1]);
    }
  }

  /** The number of polls before the first one whose encoding raised. */
  function FirstRaise(polls: seq<Poll>): (k: nat)
    ensures k <= |polls|
    ensures forall j :: 0 <= j < k ==> !(polls[j].slot.Some? && polls[j].encoding.EncodeRaised?)
    ensures k < |polls| ==> polls[k].slot.Some? && polls[k].encoding.EncodeRaised?
    decreases |polls|
  {
    if polls == [] || (polls[0].slot.Some? && polls[0].encoding.EncodeRaised?) then 0
    else 1 + FirstRaise(polls[1..])
  }

  /** The generator of the main application: an empty slot bumps a wait counter that wraps
      to 0 (with a warning) once it passes 300; an encoding that fails or raises skips the
      iteration; otherwise the frame's chunk is yielded. It never stops by itself. */
  method MainStream(polls: seq<Poll>) returns (chunks: seq<seq<byte>>, waitCount: nat, warnings: nat)
    ensures |chunks| == |Payloads(polls)|
    ensures forall i :: 0 <= i < |chunks| ==> chunks[i] == Chunk(Payloads(polls)[i])
    ensures ParseStream(Flatten(chunks)) == Some(Payloads(polls))
    ensures waitCount <= 300
    ensures waitCount == EmptyPolls(polls) % 301 && warnings == EmptyPolls(polls) / 301
  {
    chunks, waitCount, warnings := [], 0, 0;
    var i := 0;
    while i < |polls|
      invariant 0 <= i <= |polls|
      invariant |chunks| == |Payloads(polls[..i])|
      invariant forall j :: 0 <= j < |chunks| ==> chunks[j] == Chunk(Payloads(polls[..i])[j])
      invariant waitCount <= 300
      invariant waitCount + 301 * warnings == EmptyPolls(polls[..i])
    {
      assert polls[..i + 1][..i] == polls[..i];
      var p := polls[i];
      if p.slot.None? {
        waitCount := waitCount + 1;
        if waitCount > 300 {
          waitCount := 0;
          warnings := warnings + 1;
        }
      } else {
        match p.encoding {
          case EncodeFailed =>
          case EncodeRaised =>
          case Encoded(bytes) =>
            chunks := chunks + [Chunk(bytes)];
        }
      }
      i := i + 1;
    }
    assert polls[..i] == polls;
    FlattenChunks(chunks, Payloads(polls));
  }

  /** The generator of the standalone daemon: an empty slot is polled again, a failed
      encoding skips the iteration, and an encoding that raises ends the stream, since
      nothing catches it there. */
  method DaemonStream(polls: seq<Poll>) returns (chunks: seq<seq<byte>>, raised: bool)
    ensures raised <==> FirstRaise(polls) < |polls|
    ensures var ps := Payloads(polls[..FirstRaise(polls)]);
      && |chunks| == |ps|
      && (forall i :: 0 <= i < |chunks| ==> chunks[i] == Chunk(ps[i]))
      && ParseStream(Flatten(chunks)) == Some(ps)
  {
    chunks, raised := [], false;
    ghost var k := FirstRaise(polls);
    var i := 0;
    while i < |polls|
      invariant 0 <= i <= k
      invariant var ps := Payloads(polls[..i]);
        |chunks| == |ps| && forall j :: 0 <= j < |chunks| ==> chunks[j] == Chunk(ps[j])
    {
      var p := polls[i];
      if p.slot.Some? {
        match p.encoding {
          case EncodeRaised =>
            raised := true;
            break;
          case EncodeFailed =>
          case Encoded(bytes) =>
            chunks := chunks + [Chunk(bytes)];
        }
      }
      assert polls[..i + 1][..i] == polls[..i];
      i := i + 1;
    }
    FlattenChunks(chunks, Payloads(polls[..k]));
  }
}

/** Reading a logo's size from its first bytes: the JPEG marker scan (ITU-T T.81, sections B.1.1 and
    B.2.2), the PNG header (PNG Specification, sections 5.2 and 11.2.2), and the size limits. */
module LogoImage {
  import opened Stock

  newtype Byte = b: int | 0 <= b < 256

  datatype Size = Size(width: nat, height: nat)

  function Be16(b: seq<Byte>, i: nat): nat
    requires i + 1 < |b|
  {
    (b[i] as nat) * 256 + b[i + 1] as nat
  }

  function Be32(b: seq<Byte>, i: nat): nat
    requires i + 3 < |b|
  {
    Be16(b, i) * 65536 + Be16(b, i + 2)
  }

  // ----- JPEG -----

  predicate StandAlone(marker: Byte) {
    marker == 0xD8 || marker == 0x01 || 0xD0 <= marker <= 0xD7
  }

  predicate EndOrScan(marker: Byte) {
    marker == 0xD9 || marker == 0xDA
  }

  /** Markers of a frame header: SOF0 to SOF15 without DHT, JPG and DAC. */
  predicate StartsFrame(marker: Byte) {
    0xC0 <= marker <= 0xCF && marker != 0xC4 && marker != 0xC8 && marker != 0xCC
  }

  /** The first byte from `i` on that is no fill byte. */
  function FillEnd(b: seq<Byte>, i: nat): (m: nat)
    requires i <= |b|
    ensures i <= m <= |b| && (forall k :: i <= k < m ==> b[k] == 0xFF) && (m < |b| ==> b[m] != 0xFF)
    decreases |b| - i
  {
    if i == |b| || b[i] != 0xFF then i else FillEnd(b, i + 1)
  }

  /** What the marker at `m` leads to: the end of the scan, a size, or a later position. */
  datatype Turn = Stop | Found(size: Size) | Skip(to: nat)

  function TurnAt(b: seq<Byte>, m: nat): (t: Turn)
    requires m <= |b|
    ensures t.Skip? ==> m < t.to
  {
    if m == |b| || EndOrScan(b[m]) then Stop
    else if StandAlone(b[m]) then Skip(m + 1)
    else if m + 2 >= |b| || Be16(b, m + 1) < 2 then Stop
    else if StartsFrame(b[m]) then
      if m + 7 >= |b| then Stop else Found(Size(Be16(b, m + 6), Be16(b, m + 4)))
    else Skip(m + 1 + Be16(b, m + 1))
  }

  function Next(b: seq<Byte>, i: nat): Turn {
    if i + 3 >= |b| || b[i] != 0xFF then Stop else TurnAt(b, FillEnd(b, i))
  }

  /** What the scan finds from position `i` on. */
  function Scan(b: seq<Byte>, i: nat): Option<Size>
    decreases if i <= |b| then |b| - i else 0
  {
    match Next(b, i)
    case Stop => None
    case Found(size) => Some(size)
    case Skip(to) => Scan(b, to)
  }

  const SOI: seq<Byte> := [0xFF, 0xD8]

  function JpegSizeOf(b: seq<Byte>): Option<Size> {
    if SOI <= b then Scan(b, 2) else None
  }

  lemma ScanTurns(b: seq<Byte>, i: nat, m: nat)
    requires i + 3 < |b| && b[i] == 0xFF && m == FillEnd(b, i)
    ensures Scan(b, i) == match TurnAt(b, m)
      case Stop => None
      case Found(size) => Some(size)
      case Skip(to) => Scan(b, to)
  {
  }

  lemma ScanStops(b: seq<Byte>, i: nat)
    requires i + 3 >= |b| || b[i] != 0xFF
    ensures Scan(b, i) == None
  {
  }

  /** The first three bytes decide whether anything is scanned at all. */
  lemma ScanStarts(b: seq<Byte>)
    ensures JpegSizeOf(b) == if |b| < 4 || b[0] != 0xFF || b[1] != 0xD8 || b[2] != 0xFF then None else Scan(b, 2)
  {
    if |b| >= 2 { assert SOI <= b <==> b[0] == SOI[0] && b[1] == SOI[1]; }
  }

  /** One turn of the scan, at the marker at `m`. */
  method ReadMarker(b: seq<Byte>, m: nat) returns (turn: Turn)
    requires m <= |b|
    ensures turn == TurnAt(b, m)
  {
    if m == |b| {
      return Stop;
    }
    var marker, i := b[m], m + 1;
    if StandAlone(marker) {
      return Skip(i);
    }
    if EndOrScan(marker) || i + 1 >= |b| {
      return Stop;
    }
    var len := Be16(b, i);
    if len < 2 {
      return Stop;
    }
    if StartsFrame(marker) {
      if i + 6 >= |b| {
        return Stop;
      }
      return Found(Size(Be16(b, i + 5), Be16(b, i + 3)));
    }
    return Skip(i + len);
  }

  method JpegSize(b: seq<Byte>) returns (size: Option<Size>)
    ensures size == JpegSizeOf(b)
  {
    ScanStarts(b);
    if |b| < 4 || b[0] != 0xFF || b[1] != 0xD8 || b[2] != 0xFF {
      return None;
    }
    ghost var whole := JpegSizeOf(b);
    var i := 2;
    while i + 3 < |b|
      invariant 2 <= i && Scan(b, i) == whole
      decreases |b| - i
    {
      if b[i] != 0xFF {
        ScanStops(b, i);
        return None;
      }
      var m := i;
      while m < |b| && b[m] == 0xFF
        invariant i <= m <= |b| && FillEnd(b, i) == FillEnd(b, m)
      {
        m := m + 1;
      }
      ScanTurns(b, i, m);
      var turn := ReadMarker(b, m);
      match turn
      case Stop => return None;
      case Found(found) => return Some(found);
      case Skip(to) => i := to;
    }
    ScanStops(b, i);
    return None;
  }

  // ----- the scan looks ahead only -----

  lemma {:induction false} FillEndBehind(front: seq<Byte>, b: seq<Byte>, i: nat)
    requires i <= |b|
    ensures FillEnd(front + b, |front| + i) == |front| + FillEnd(b, i)
    decreases |b| - i
  {
    if i < |b| && b[i] == 0xFF {
      FillEndBehind(front, b, i + 1);
    }
  }

  lemma TurnBehind(front: seq<Byte>, b: seq<Byte>, m: nat)
    requires m <= |b|
    ensures TurnAt(front + b, |front| + m)
         == match TurnAt(b, m) case Skip(to) => Skip(|front| + to) case other => other
  {
    assert m < |b| ==> (front + b)[|front| + m] == b[m];
    assert m + 2 < |b| ==> Be16(front + b, |front| + m + 1) == Be16(b, m + 1);
  }

  lemma NextBehind(front: seq<Byte>, b: seq<Byte>, i: nat)
    ensures Next(front + b, |front| + i)
         == match Next(b, i) case Skip(to) => Skip(|front| + to) case other => other
  {
    if i + 3 < |b| && b[i] == 0xFF {
      FillEndBehind(front, b, i);
      TurnBehind(front, b, FillEnd(b, i));
    }
  }

  lemma {:induction false} ScanBehind(front: seq<Byte>, b: seq<Byte>, i: nat)
    ensures Scan(front + b, |front| + i) == Scan(b, i)
    decreases if i <= |b| then |b| - i else 0
  {
    NextBehind(front, b, i);
    var turn := Next(b, i);
    if turn.Skip? {
      ScanBehind(front, b, turn.to);
    }
  }

  // ----- what the scan accepts -----

  /** What may come before the frame header, each with `fill` extra 0xFF bytes before its marker. */
  datatype Part =
    | Alone(fill: nat, marker: Byte)
    | Segment(fill: nat, marker: Byte, payload: seq<Byte>)

  /** Markers without a segment: TEM, SOI, and RST0 to RST7. */
  predicate NeedsNoSegment(marker: Byte) {
    || marker == 0x01 || marker == 0xD8
    || marker == 0xD0 || marker == 0xD1 || marker == 0xD2 || marker == 0xD3
    || marker == 0xD4 || marker == 0xD5 || marker == 0xD6 || marker == 0xD7
  }

  /** SOF0 to SOF3, SOF5 to SOF7, SOF9 to SOF11, and SOF13 to SOF15. */
  predicate OpensFrame(marker: Byte) {
    || marker == 0xC0 || marker == 0xC1 || marker == 0xC2 || marker == 0xC3
    || marker == 0xC5 || marker == 0xC6 || marker == 0xC7
    || marker == 0xC9 || marker == 0xCA || marker == 0xCB
    || marker == 0xCD || marker == 0xCE || marker == 0xCF
  }

  /** EOI and SOS. */
  predicate EndsScan(marker: Byte) { marker == 0xD9 || marker == 0xDA }

  lemma MarkersAre(marker: Byte)
    ensures StandAlone(marker) <==> NeedsNoSegment(marker)
    ensures StartsFrame(marker) <==> OpensFrame(marker)
    ensures EndOrScan(marker) <==> EndsScan(marker)
  {
  }

  predicate ValidPart(part: Part) {
    part.marker != 0xFF
    && match part
       case Alone(_, marker) => NeedsNoSegment(marker)
       case Segment(_, marker, payload) =>
         !NeedsNoSegment(marker) && !OpensFrame(marker) && !EndsScan(marker) && |payload| + 2 < 65536
  }

  datatype Frame = Frame(fill: nat, marker: Byte, length: nat, precision: Byte, size: Size)

  predicate ValidFrame(f: Frame) {
    OpensFrame(f.marker) && 2 <= f.length < 65536 && f.size.width < 65536 && f.size.height < 65536
  }

  function Fills(n: nat): seq<Byte> {
    seq(n, _ => 0xFF)
  }

  function Enc16(n: nat): seq<Byte>
    requires n < 65536
  {
    [(n / 256) as Byte, (n % 256) as Byte]
  }

  function EncodePart(part: Part): seq<Byte>
    requires ValidPart(part)
  {
    Fills(part.fill + 1) + [part.marker]
    + (if part.Alone? then [] else Enc16(|part.payload| + 2) + part.payload)
  }

  function EncodeFrame(f: Frame): seq<Byte>
    requires ValidFrame(f)
  {
    Fills(f.fill + 1) + [f.marker] + Enc16(f.length) + [f.precision] + Enc16(f.size.height) + Enc16(f.size.width)
  }

  function EncodeParts(parts: seq<Part>): seq<Byte>
    requires forall i :: 0 <= i < |parts| ==> ValidPart(parts[i])
  {
    if parts == [] then [] else EncodePart(parts[0]) + EncodeParts(parts[1..])
  }

  /** A file that starts, after the parts, with a frame header; what follows it is not looked at. */
  datatype Header = Header(parts: seq<Part>, frame: Frame, rest: seq<Byte>)

  predicate ValidHeader(h: Header) {
    (forall i :: 0 <= i < |h.parts| ==> ValidPart(h.parts[i])) && ValidFrame(h.frame)
  }

  function Encode(h: Header): seq<Byte>
    requires ValidHeader(h)
  {
    EncodeParts(h.parts) + EncodeFrame(h.frame) + h.rest
  }

  lemma {:induction false} FillOf(n: nat, marker: Byte, rest: seq<Byte>, i: nat)
    requires marker != 0xFF && i <= n
    ensures FillEnd(Fills(n) + [marker] + rest, i) == n
    decreases n - i
  {
    if i < n {
      FillOf(n, marker, rest, i + 1);
    }
  }

  lemma ReadsBack(front: seq<Byte>, n: nat, rest: seq<Byte>, b: seq<Byte>)
    requires n < 65536 && b == front + Enc16(n) + rest
    ensures Be16(b, |front|) == n
  {
    assert b[|front|] as nat == n / 256 && b[|front| + 1] as nat == n % 256;
  }

  lemma PartIsSkipped(part: Part, rest: seq<Byte>)
    requires ValidPart(part) && |EncodePart(part) + rest| > 3
    ensures Next(EncodePart(part) + rest, 0) == Skip(|EncodePart(part)|)
  {
    var b, n := EncodePart(part) + rest, part.fill + 1;
    var tail := b[n + 1..];
    assert b == Fills(n) + [part.marker] + tail;
    FillOf(n, part.marker, tail, 0);
    if part.Segment? {
      ReadsBack(Fills(n) + [part.marker], |part.payload| + 2, part.payload + rest, b);
    }
  }

  lemma ScanPassesPart(part: Part, rest: seq<Byte>)
    requires ValidPart(part)
    ensures Scan(EncodePart(part) + rest, 0) == Scan(rest, 0)
  {
    if |EncodePart(part) + rest| > 3 {
      PartIsSkipped(part, rest);
      ScanBehind(EncodePart(part), rest, 0);
    }
  }

  lemma FrameFields(f: Frame, rest: seq<Byte>)
    requires ValidFrame(f)
    ensures var b, n := EncodeFrame(f) + rest, f.fill + 1;
      && n + 7 < |b| && FillEnd(b, 0) == n && b[0] == 0xFF && b[n] == f.marker
      && Be16(b, n + 1) == f.length && Be16(b, n + 4) == f.size.height && Be16(b, n + 6) == f.size.width
  {
    var b, n := EncodeFrame(f) + rest, f.fill + 1;
    var tail := b[n + 1..];
    assert b == Fills(n) + [f.marker] + tail;
    FillOf(n, f.marker, tail, 0);
    ReadsBack(Fills(n) + [f.marker], f.length, [f.precision] + Enc16(f.size.height) + Enc16(f.size.width) + rest, b);
    ReadsBack(Fills(n) + [f.marker] + Enc16(f.length) + [f.precision], f.size.height, Enc16(f.size.width) + rest, b);
    ReadsBack(Fills(n) + [f.marker] + Enc16(f.length) + [f.precision] + Enc16(f.size.height), f.size.width, rest, b);
  }

  lemma ScanReadsFrame(f: Frame, rest: seq<Byte>)
    requires ValidFrame(f)
    ensures Scan(EncodeFrame(f) + rest, 0) == Some(f.size)
  {
    FrameFields(f, rest);
    MarkersAre(f.marker);
  }

  /** Reading back: whatever the parts and the fill bytes, the scan finds the size that was encoded. */
  lemma {:induction false} ScanDecodes(h: Header)
    requires ValidHeader(h)
    ensures Scan(Encode(h), 0) == Some(h.frame.size)
    decreases |h.parts|
  {
    if h.parts == [] {
      assert Encode(h) == EncodeFrame(h.frame) + h.rest;
      ScanReadsFrame(h.frame, h.rest);
    } else {
      var left := h.(parts := h.parts[1..]);
      assert Encode(h) == EncodePart(h.parts[0]) + Encode(left);
      ScanPassesPart(h.parts[0], Encode(left));
      ScanDecodes(left);
    }
  }

  lemma SkippedIsPart(b: seq<Byte>) returns (part: Part)
    requires Next(b, 0).Skip? && Next(b, 0).to <= |b|
    ensures ValidPart(part) && b[..Next(b, 0).to] == EncodePart(part)
  {
    var m, to := FillEnd(b, 0), Next(b, 0).to;
    assert b[..m] == Fills(m);
    if StandAlone(b[m]) {
      part := Alone(m - 1, b[m]);
    } else {
      part := Segment(m - 1, b[m], b[m + 3..to]);
      assert Enc16(|part.payload| + 2) == b[m + 1..m + 3];
    }
  }

  lemma FoundIsFrame(b: seq<Byte>) returns (f: Frame, rest: seq<Byte>)
    requires Next(b, 0).Found?
    ensures ValidFrame(f) && b == EncodeFrame(f) + rest && Next(b, 0) == Found(f.size)
  {
    var m := FillEnd(b, 0);
    assert b[..m] == Fills(m);
    f := Frame(m - 1, b[m], Be16(b, m + 1), b[m + 3], Size(Be16(b, m + 6), Be16(b, m + 4)));
    rest := b[m + 8..];
    assert Enc16(f.length) == b[m + 1..m + 3];
    assert Enc16(f.size.height) == b[m + 4..m + 6] && Enc16(f.size.width) == b[m + 6..m + 8];
  }

  lemma FoundAtOnce(b: seq<Byte>) returns (h: Header)
    requires Next(b, 0).Found?
    ensures ValidHeader(h) && b == Encode(h)
  {
    var f, rest := FoundIsFrame(b);
    h := Header([], f, rest);
  }

  lemma FoundBehindPart(b: seq<Byte>) returns (part: Part, rest: seq<Byte>)
    requires Scan(b, 0).Some? && !Next(b, 0).Found?
    ensures ValidPart(part) && b == EncodePart(part) + rest && |rest| < |b| && Scan(rest, 0).Some?
  {
    var to := Next(b, 0).to;
    PastTheEnd(b, to);
    part := SkippedIsPart(b);
    rest := b[to..];
    assert b == EncodePart(part) + rest;
    ScanBehind(EncodePart(part), rest, 0);
  }

  /** Only such files are read: a size found is one that was encoded. */
  lemma {:induction false} FoundIsEncoded(b: seq<Byte>) returns (h: Header)
    requires Scan(b, 0).Some?
    ensures ValidHeader(h) && b == Encode(h)
    decreases |b|
  {
    if Next(b, 0).Found? {
      h := FoundAtOnce(b);
    } else {
      var part, rest := FoundBehindPart(b);
      var left := FoundIsEncoded(rest);
      h := Prepended(part, left);
    }
  }

  lemma PastTheEnd(b: seq<Byte>, i: nat)
    ensures i >= |b| ==> Scan(b, i) == None
  {}

  lemma Prepended(part: Part, left: Header) returns (h: Header)
    requires ValidPart(part) && ValidHeader(left)
    ensures ValidHeader(h) && Encode(h) == EncodePart(part) + Encode(left)
  {
    h := left.(parts := [part] + left.parts);
    assert h.parts[1..] == left.parts;
  }

  /** The file is a JPEG file with that size in its first frame header. */
  ghost predicate IsJpeg(b: seq<Byte>, size: Size) {
    exists h: Header :: ValidHeader(h) && b == SOI + Encode(h) && h.frame.size == size
  }

  /** The size of a JPEG file is found exactly when the file holds it in a frame header reached over
      complete segments, stand-alone markers and fill bytes only. */
  lemma JpegSizeIff(b: seq<Byte>, size: Size)
    ensures JpegSizeOf(b) == Some(size) <==> IsJpeg(b, size)
  {
    if SOI <= b {
      var body := b[2..];
      assert b == SOI + body;
      ScanBehind(SOI, body, 0);
      if Scan(b, 2) == Some(size) {
        var h := FoundIsEncoded(body);
        ScanDecodes(h);
      }
      forall h: Header | ValidHeader(h) && b == SOI + Encode(h) ensures Scan(b, 2) == Some(h.frame.size) {
        assert body == Encode(h);
        ScanDecodes(h);
      }
    }
  }

  // ----- PNG -----

  const SIGNATURE: seq<Byte> := [0x89, 0x50, 0x4E, 0x47, 0x0D, 0x0A, 0x1A, 0x0A]
  const IHDR: seq<Byte> := [0x49, 0x48, 0x44, 0x52]

  function PngSize(b: seq<Byte>): Option<Size> {
    if |b| < 24 || b[..8] != SIGNATURE || b[12..16] != IHDR then None
    else Some(Size(Be32(b, 16), Be32(b, 20)))
  }

  function Enc32(n: nat): seq<Byte>
    requires n < 0x1_0000_0000
  {
    Enc16(n / 65536) + Enc16(n % 65536)
  }

  /** The file starts as a PNG file whose first chunk is the image header; the chunk's length, its
      checksum and its other fields are not looked at. */
  ghost predicate IsPng(b: seq<Byte>, size: Size) {
    && size.width < 0x1_0000_0000 && size.height < 0x1_0000_0000
    && exists length: seq<Byte>, rest: seq<Byte> ::
      |length| == 4 && b == SIGNATURE + length + IHDR + Enc32(size.width) + Enc32(size.height) + rest
  }

  lemma Reads32(front: seq<Byte>, n: nat, rest: seq<Byte>, b: seq<Byte>)
    requires n < 0x1_0000_0000 && b == front + Enc32(n) + rest
    ensures Be32(b, |front|) == n
  {
    ReadsBack(front, n / 65536, Enc16(n % 65536) + rest, b);
    ReadsBack(front + Enc16(n / 65536), n % 65536, rest, b);
  }

  lemma Written32(b: seq<Byte>, i: nat)
    requires i + 3 < |b|
    ensures Be32(b, i) < 0x1_0000_0000 && Enc32(Be32(b, i)) == b[i..i + 4]
  {
    var hi, lo := Be16(b, i), Be16(b, i + 2);
    assert Be32(b, i) / 65536 == hi && Be32(b, i) % 65536 == lo;
    assert Enc16(hi) == b[i..i + 2] && Enc16(lo) == b[i + 2..i + 4];
  }

  lemma PngIsRead(b: seq<Byte>, size: Size)
    requires IsPng(b, size)
    ensures PngSize(b) == Some(size)
  {
    var length: seq<Byte>, rest: seq<Byte> :|
      |length| == 4 && b == SIGNATURE + length + IHDR + Enc32(size.width) + Enc32(size.height) + rest;
    var front := SIGNATURE + length + IHDR;
    Reads32(front, size.width, Enc32(size.height) + rest, b);
    Reads32(front + Enc32(size.width), size.height, rest, b);
    assert b[..8] == SIGNATURE && b[12..16] == IHDR;
  }

  lemma PngSizeIff(b: seq<Byte>, size: Size)
    ensures PngSize(b) == Some(size) <==> IsPng(b, size)
  {
    if PngSize(b) == Some(size) {
      Written32(b, 16);
      Written32(b, 20);
      assert b == SIGNATURE + b[8..12] + IHDR + Enc32(size.width) + Enc32(size.height) + b[24..];
    }
    if IsPng(b, size) { PngIsRead(b, size); }
  }

  // ----- the logo -----

  const LOGO_MAX_BYTES := 1024 * 1024
  const LOGO_MIN_SHORT_SIDE := 32
  const LOGO_MIN_LONG_SIDE := 150
  const LOGO_MAX_SIDE := 5000
  const LOGO_MAX_RATIO := 10

  datatype Mime = Png | Jpeg

  datatype Verdict =
    | Accepted(mime: Mime, size: Size)
    | Empty
    | TooManyBytes
    | NotAnImage
    | TooSmall
    | TooLarge
    | TooNarrow

  function Short(size: Size): nat {
    if size.width <= size.height then size.width else size.height
  }

  function Long(size: Size): nat {
    if size.width <= size.height then size.height else size.width
  }

  function InspectLogo(b: seq<Byte>): Verdict {
    if b == [] then Empty
    else if |b| > LOGO_MAX_BYTES then TooManyBytes
    else
      var png := PngSize(b);
      var found := if png.Some? then png else JpegSizeOf(b);
      if found.None? then NotAnImage
      else
        var size := found.value;
        if Short(size) < LOGO_MIN_SHORT_SIDE || Long(size) < LOGO_MIN_LONG_SIDE then TooSmall
        else if Long(size) > LOGO_MAX_SIDE then TooLarge
        else if Long(size) as real / Short(size) as real > LOGO_MAX_RATIO as real then TooNarrow
        else Accepted(if png.Some? then Png else Jpeg, size)
  }

  predicate GoodSize(size: Size) {
    32 <= Short(size) && 150 <= Long(size) <= 5000 && Long(size) <= 10 * Short(size)
  }

  lemma RatioIff(long: real, short: real)
    requires short > 0.0
    ensures long / short > 10.0 <==> long > 10.0 * short
  {
    var over := long / short - 10.0;
    assert over * short == long - 10.0 * short;
    assert over > 0.0 ==> over * short > 0.0;
    assert over <= 0.0 ==> over * short <= 0.0;
  }

  /** A logo is accepted exactly when it is a PNG or a JPEG file by content, of the type it is reported
      as, with sides within the limits; no file is both. */
  lemma AcceptedIff(b: seq<Byte>, mime: Mime, size: Size)
    ensures InspectLogo(b) == Accepted(mime, size) <==>
      && |b| <= 1_048_576 && GoodSize(size)
      && if mime == Png then IsPng(b, size) else IsJpeg(b, size)
  {
    PngSizeIff(b, size);
    JpegSizeIff(b, size);
    if Short(size) > 0 {
      RatioIff(Long(size) as real, Short(size) as real);
    }
    assert PngSize(b).Some? ==> b[..8][0] == 0x89 && JpegSizeOf(b).None?;
  }
}

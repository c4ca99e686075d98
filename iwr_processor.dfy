/**
 * The IWR1443 packet parser: a header of little-endian 32-bit words after an
 * 8-byte magic word, then numTLVs type-length-value records, of which the
 * detected-points record (type 1) carries six 16-bit values per object.
 */
module IwrProcessor {
  import opened Common
  import Arith

  const DetectedPointsTlv: nat := 1   // MMWDEMO_UART_MSG_DETECTED_POINTS
  const HeaderEnd: nat := 36          // cursor after the magic word and seven u32 fields

  datatype Header = Header(version: nat, totalPacketLen: nat, platform: nat, frameNumber: nat,
                           timeCpuCycles: nat, numDetectedObj: nat, numTLVs: nat)

  /** The detObj dictionary: the raw index and coordinate arrays as numpy int16 arrays hold them. */
  datatype DetObj = DetObj(numObj: nat, xyzQFormat: int,
                           rangeIdx: seq<int>, dopplerIdx: seq<int>, peakVal: seq<int>,
                           x: seq<int>, y: seq<int>, z: seq<int>)

  /**
   * Truncated: a read ran past the end of the packet (numpy's matmul rejects
   * the short slice). NoDetectedPoints: no type-1 record, so detObj is unbound.
   */
  datatype ParseError = Truncated | NoDetectedPoints

  /** A 16-bit value stored into an int16 array wraps to the signed range. */
  function ToInt16(v: nat): (r: int)
    requires v < 0x1_0000
    ensures -0x8000 <= r < 0x8000 && (r == v || r == v - 0x1_0000)
  {
    if v < 0x8000 then v else v - 0x1_0000
  }

  function Pow2(k: nat): (r: nat)
    ensures r >= 1
  {
    if k == 0 then 1 else 2 * Pow2(k - 1)
  }

  /** 2 ** k computed in numpy int64 arithmetic, which wraps modulo 2^64. */
  function Int64Pow2(k: nat): int
  {
    if k < 63 then Pow2(k) as int else if k == 63 then -(Pow2(63) as int) else 0
  }

  function ParseHeader(p: seq<uint8>): (r: Result<Header, ParseError>)
    ensures r.Err? <==> |p| < HeaderEnd
  {
    if |p| < HeaderEnd then Err(Truncated)
    else Ok(Header(LE32(p, 8), LE32(p, 12), LE32(p, 16), LE32(p, 20), LE32(p, 24), LE32(p, 28), LE32(p, 32)))
  }

  /** Field f (0: rangeIdx .. 5: z) of each of n objects laid out 12 bytes apart from `start`. */
  function ObjectField(p: seq<uint8>, start: nat, n: nat, f: nat): (r: seq<int>)
    requires start + 12 * n <= |p| && f < 6
    ensures |r| == n
  {
    seq(n, k requires 0 <= k < n => ToInt16(LE16(p, start + 12 * k + 2 * f)))
  }

  /** The payload of a detected-points record at `at`, with the cursor after it. */
  function ParseDetectedPoints(p: seq<uint8>, at: nat): (r: Result<(DetObj, nat), ParseError>)
    ensures r.Ok? ==> r.value.1 == at + 4 + 12 * r.value.0.numObj <= |p|
  {
    if at + 4 > |p| then Err(Truncated)
    else
      var n := LE16(p, at);
      var start := at + 4;
      if start + 12 * n > |p| then Err(Truncated)
      else Ok((DetObj(n, Int64Pow2(LE16(p, at + 2)),
                      ObjectField(p, start, n, 0), ObjectField(p, start, n, 1), ObjectField(p, start, n, 2),
                      ObjectField(p, start, n, 3), ObjectField(p, start, n, 4), ObjectField(p, start, n, 5)),
               start + 12 * n))
  }

  /**
   * The remaining TLV records from cursor `at`. Each record header is 8 bytes
   * (type, length); only a type-1 record's payload is consumed, so the cursor
   * does not skip the payload of any other type. The last detected-points
   * record wins.
   */
  function ParseTlvs(p: seq<uint8>, at: nat, remaining: nat, detObj: Option<DetObj>): Result<Option<DetObj>, ParseError>
    decreases remaining
  {
    if remaining == 0 then Ok(detObj)
    else if at + 8 > |p| then Err(Truncated)
    else if LE32(p, at) == DetectedPointsTlv then
      match ParseDetectedPoints(p, at + 8)
      case Err(e) => Err(e)
      case Ok((d, next)) => ParseTlvs(p, next, remaining - 1, Some(d))
    else ParseTlvs(p, at + 8, remaining - 1, detObj)
  }

  /** What processData returns for a packet, or the exception it raises. */
  function DecodePacket(p: seq<uint8>): Result<DetObj, ParseError>
  {
    match ParseHeader(p)
    case Err(e) => Err(e)
    case Ok(h) =>
      match ParseTlvs(p, HeaderEnd, h.numTLVs, None)
      case Err(e) => Err(e)
      case Ok(None) => Err(NoDetectedPoints)
      case Ok(Some(d)) => Ok(d)
  }

  /**
   * processData (header, TLV records and detected objects): the cursor idX
   * advances after every field read; a read past the end of the packet
   * stops the parse.
   */
  method ProcessData(inputPacket: seq<uint8>) returns (r: Result<DetObj, ParseError>)
    ensures r == DecodePacket(inputPacket)
  {
    var idX: nat := 0;
    // header: magic word, then seven little-endian u32 fields
    idX := idX + 8;
    if idX + 28 > |inputPacket| {
      return Err(Truncated);
    }
    var version := LE32(inputPacket, idX);
    idX := idX + 4;
    var totalPacketLen := LE32(inputPacket, idX);
    idX := idX + 4;
    var platform := LE32(inputPacket, idX);
    idX := idX + 4;
    var frameNumber := LE32(inputPacket, idX);
    idX := idX + 4;
    var timeCpuCycles := LE32(inputPacket, idX);
    idX := idX + 4;
    var numDetectedObj := LE32(inputPacket, idX);
    idX := idX + 4;
    var numTLVs := LE32(inputPacket, idX);
    idX := idX + 4;
    assert idX == HeaderEnd;

    var detObj: Option<DetObj> := None;
    for tlvIdx := 0 to numTLVs
      invariant ParseTlvs(inputPacket, HeaderEnd, numTLVs, None) == ParseTlvs(inputPacket, idX, numTLVs - tlvIdx, detObj)
    {
      if idX + 8 > |inputPacket| {
        return Err(Truncated);
      }
      var tlvType := LE32(inputPacket, idX);
      idX := idX + 4;
      var tlvLength := LE32(inputPacket, idX);
      idX := idX + 4;
      if tlvType == DetectedPointsTlv {
        var d;
        d, idX := ReadDetectedPoints(inputPacket, idX);
        if d.None? {
          return Err(Truncated);
        }
        detObj := d;
      }
    }
    r := match detObj case None => Err(NoDetectedPoints) case Some(d) => Ok(d);
  }

  /** The first `count` entries of `a` hold field f of the objects laid out from `start`. */
  ghost predicate FieldRead(a: array<int>, p: seq<uint8>, start: nat, f: nat, count: nat)
    reads a
  {
    && f < 6 && count <= a.Length && start + 12 * count <= |p|
    && forall k :: 0 <= k < count ==> a[k] == ToInt16(LE16(p, start + 12 * k + 2 * f))
  }

  /** Reads field f of object `objectNum` (two bytes at start + 12 * objectNum + 2 * f) into a. */
  method StoreField(a: array<int>, p: seq<uint8>, start: nat, f: nat, objectNum: nat)
    requires FieldRead(a, p, start, f, objectNum)
    requires objectNum < a.Length && start + 12 * objectNum + 12 <= |p|
    modifies a
    ensures FieldRead(a, p, start, f, objectNum + 1)
  {
    a[objectNum] := ToInt16(LE16(p, start + 12 * objectNum + 2 * f));
  }

  /** Six separately allocated arrays of one length. */
  predicate Distinct6(a: array<int>, b: array<int>, c: array<int>, d: array<int>, e: array<int>, f: array<int>)
  {
    && b.Length == a.Length && c.Length == a.Length && d.Length == a.Length && e.Length == a.Length && f.Length == a.Length
    && a != b && a != c && a != d && a != e && a != f && b != c && b != d && b != e && b != f && c != d && c != e && c != f && d != e && d != f && e != f
  }

  method StoreObject(rangeIdx: array<int>, dopplerIdx: array<int>, peakVal: array<int>,
                     x: array<int>, y: array<int>, z: array<int>, p: seq<uint8>, start: nat, objectNum: nat)
    requires Distinct6(rangeIdx, dopplerIdx, peakVal, x, y, z)
    requires objectNum < rangeIdx.Length && start + 12 * objectNum + 12 <= |p|
    requires FieldRead(rangeIdx, p, start, 0, objectNum) && FieldRead(dopplerIdx, p, start, 1, objectNum)
    requires FieldRead(peakVal, p, start, 2, objectNum) && FieldRead(x, p, start, 3, objectNum)
    requires FieldRead(y, p, start, 4, objectNum) && FieldRead(z, p, start, 5, objectNum)
    modifies rangeIdx, dopplerIdx, peakVal, x, y, z
    ensures FieldRead(rangeIdx, p, start, 0, objectNum + 1) && FieldRead(dopplerIdx, p, start, 1, objectNum + 1)
    ensures FieldRead(peakVal, p, start, 2, objectNum + 1) && FieldRead(x, p, start, 3, objectNum + 1)
    ensures FieldRead(y, p, start, 4, objectNum + 1) && FieldRead(z, p, start, 5, objectNum + 1)
  {
    StoreField(rangeIdx, p, start, 0, objectNum);
    StoreField(dopplerIdx, p, start, 1, objectNum);
    StoreField(peakVal, p, start, 2, objectNum);
    StoreField(x, p, start, 3, objectNum);
    StoreField(y, p, start, 4, objectNum);
    StoreField(z, p, start, 5, objectNum);
  }

  lemma FieldReadAll(a: array<int>, p: seq<uint8>, start: nat, f: nat, n: nat)
    requires FieldRead(a, p, start, f, n) && a.Length == n
    ensures a[..] == ObjectField(p, start, n, f)
  {
  }

  /** The type-1 branch of the TLV loop: numObj, the Q format, then six fields per object. */
  method ReadDetectedPoints(inputPacket: seq<uint8>, at: nat) returns (d: Option<DetObj>, idX: nat)
    ensures match ParseDetectedPoints(inputPacket, at)
            case Err(_) => d == None
            case Ok((obj, next)) => d == Some(obj) && idX == next
  {
    idX := at;
    if idX + 4 > |inputPacket| {
      return None, idX;
    }
    var tlvNumObj := LE16(inputPacket, idX);
    idX := idX + 2;
    var tlvXyzQFormat := Int64Pow2(LE16(inputPacket, idX));
    idX := idX + 2;
    var start := idX;
    var rangeIdx := new int[tlvNumObj];
    var dopplerIdx := new int[tlvNumObj];
    var peakVal := new int[tlvNumObj];
    var x := new int[tlvNumObj];
    var y := new int[tlvNumObj];
    var z := new int[tlvNumObj];
    assert Distinct6(rangeIdx, dopplerIdx, peakVal, x, y, z);
    for objectNum := 0 to tlvNumObj
      invariant idX == start + 12 * objectNum <= |inputPacket|
      invariant FieldRead(rangeIdx, inputPacket, start, 0, objectNum)
      invariant FieldRead(dopplerIdx, inputPacket, start, 1, objectNum)
      invariant FieldRead(peakVal, inputPacket, start, 2, objectNum)
      invariant FieldRead(x, inputPacket, start, 3, objectNum)
      invariant FieldRead(y, inputPacket, start, 4, objectNum)
      invariant FieldRead(z, inputPacket, start, 5, objectNum)
    {
      if idX + 12 > |inputPacket| {
        return None, idX;
      }
      StoreObject(rangeIdx, dopplerIdx, peakVal, x, y, z, inputPacket, start, objectNum);
      idX := idX + 12;
    }
    var n := tlvNumObj;
    FieldReadAll(rangeIdx, inputPacket, start, 0, n);
    FieldReadAll(dopplerIdx, inputPacket, start, 1, n);
    FieldReadAll(peakVal, inputPacket, start, 2, n);
    FieldReadAll(x, inputPacket, start, 3, n);
    FieldReadAll(y, inputPacket, start, 4, n);
    FieldReadAll(z, inputPacket, start, 5, n);
    d := Some(DetObj(n, tlvXyzQFormat, rangeIdx[..], dopplerIdx[..], peakVal[..], x[..], y[..], z[..]));
  }

  // ---- The packet layout processData expects, and the round trip through it ----

  /** One detected object as the sensor sends it: six unsigned 16-bit words. */
  datatype RawPoint = RawPoint(rangeIdx: nat, dopplerIdx: nat, peakVal: nat, x: nat, y: nat, z: nat)

  predicate PointOk(pt: RawPoint)
  {
    pt.rangeIdx < 0x1_0000 && pt.dopplerIdx < 0x1_0000 && pt.peakVal < 0x1_0000
    && pt.x < 0x1_0000 && pt.y < 0x1_0000 && pt.z < 0x1_0000
  }

  predicate HeaderOk(h: Header)
  {
    h.version < 0x1_0000_0000 && h.totalPacketLen < 0x1_0000_0000 && h.platform < 0x1_0000_0000
    && h.frameNumber < 0x1_0000_0000 && h.timeCpuCycles < 0x1_0000_0000
    && h.numDetectedObj < 0x1_0000_0000 && h.numTLVs < 0x1_0000_0000
  }

  /** The f-th word of a raw point (0: rangeIdx .. 5: z). */
  function Word(pt: RawPoint, f: nat): nat
    requires f < 6
  {
    match f
    case 0 => pt.rangeIdx
    case 1 => pt.dopplerIdx
    case 2 => pt.peakVal
    case 3 => pt.x
    case 4 => pt.y
    case _ => pt.z
  }

  function EncodePoint(pt: RawPoint): (r: seq<uint8>)
    requires PointOk(pt)
    ensures |r| == 12
  {
    Encode16(pt.rangeIdx) + Encode16(pt.dopplerIdx) + Encode16(pt.peakVal)
    + Encode16(pt.x) + Encode16(pt.y) + Encode16(pt.z)
  }

  function EncodePoints(pts: seq<RawPoint>): (r: seq<uint8>)
    requires forall k :: 0 <= k < |pts| ==> PointOk(pts[k])
    ensures |r| == 12 * |pts|
  {
    if pts == [] then [] else EncodePoint(pts[0]) + EncodePoints(pts[1..])
  }

  function EncodeHeader(magic: seq<uint8>, h: Header): (r: seq<uint8>)
    requires |magic| == 8 && HeaderOk(h)
    ensures |r| == HeaderEnd
  {
    magic + Encode32(h.version) + Encode32(h.totalPacketLen) + Encode32(h.platform) + Encode32(h.frameNumber)
    + Encode32(h.timeCpuCycles) + Encode32(h.numDetectedObj) + Encode32(h.numTLVs)
  }

  /** A detected-points record: type 1, a length word, numObj, the Q exponent and the objects. */
  function EncodeDetectedPoints(tlvLength: nat, qExponent: nat, pts: seq<RawPoint>): (r: seq<uint8>)
    requires tlvLength < 0x1_0000_0000 && qExponent < 0x1_0000 && |pts| < 0x1_0000
    requires forall k :: 0 <= k < |pts| ==> PointOk(pts[k])
    ensures |r| == 12 + 12 * |pts|
  {
    Encode32(DetectedPointsTlv) + Encode32(tlvLength) + Encode16(|pts|) + Encode16(qExponent) + EncodePoints(pts)
  }

  /** Word f of each point, as an int16 array stores it. */
  function Wrapped(pts: seq<RawPoint>, f: nat): (r: seq<int>)
    requires forall k :: 0 <= k < |pts| ==> PointOk(pts[k])
    requires f < 6
    ensures |r| == |pts|
  {
    seq(|pts|, k requires 0 <= k < |pts| => WrappedWord(pts[k], f))
  }

  function WrappedWord(pt: RawPoint, f: nat): int
    requires PointOk(pt) && f < 6
  {
    ToInt16(Word(pt, f))
  }

  /** The detObj that a record of these points decodes to. */
  function Decoded(qExponent: nat, pts: seq<RawPoint>): DetObj
    requires forall k :: 0 <= k < |pts| ==> PointOk(pts[k])
  {
    DetObj(|pts|, Int64Pow2(qExponent), Wrapped(pts, 0), Wrapped(pts, 1), Wrapped(pts, 2),
           Wrapped(pts, 3), Wrapped(pts, 4), Wrapped(pts, 5))
  }

  lemma LE16At(s: seq<uint8>, at: nat, v: nat)
    requires v < 0x1_0000 && at + 2 <= |s| && s[at] == v % 256 && s[at + 1] == v / 256
    ensures LE16(s, at) == v
  {
  }

  lemma LE32At(s: seq<uint8>, at: nat, v: nat)
    requires v < 0x1_0000_0000 && at + 4 <= |s| && s[at..at + 4] == Encode32(v)
    ensures LE32(s, at) == v
  {
    LE32RoundTrip(v);
    var w := s[at..at + 4];
    assert s[at] == w[0] && s[at + 1] == w[1] && s[at + 2] == w[2] && s[at + 3] == w[3];
  }

  /** The bytes of point k sit 12 * k bytes into the encoded points. */
  lemma {:induction false} EncodePointsAt(pts: seq<RawPoint>, k: nat, j: nat)
    requires forall i :: 0 <= i < |pts| ==> PointOk(pts[i])
    requires k < |pts| && j < 12
    ensures EncodePoints(pts)[12 * k + j] == EncodePoint(pts[k])[j]
  {
    if k > 0 {
      EncodePointsAt(pts[1..], k - 1, j);
      assert EncodePoints(pts) == EncodePoint(pts[0]) + EncodePoints(pts[1..]);
    }
  }

  /** Word f of the encoded point sits 2 * f bytes into its 12 bytes. */
  lemma EncodePointWord(pt: RawPoint, f: nat)
    requires PointOk(pt) && f < 6
    ensures EncodePoint(pt)[2 * f] == Word(pt, f) % 256 && EncodePoint(pt)[2 * f + 1] == Word(pt, f) / 256
  {
  }

  /** Every word of every point is stored, little-endian, 12 * k + 2 * f bytes after `start`. */
  ghost predicate PointsEncodedAt(p: seq<uint8>, start: nat, pts: seq<RawPoint>)
    requires start + 12 * |pts| <= |p|
  {
    forall k, f {:trigger Word(pts[k], f)} :: 0 <= k < |pts| && 0 <= f < 6 ==>
      start + 12 * k + 2 * f + 2 <= |p| && LE16(p, start + 12 * k + 2 * f) == Word(pts[k], f)
  }

  /** Reading the objects of an encoded record recovers each field, wrapped to int16. */
  lemma ObjectFieldOfEncoded(p: seq<uint8>, start: nat, pts: seq<RawPoint>, f: nat)
    requires forall k :: 0 <= k < |pts| ==> PointOk(pts[k])
    requires f < 6 && start + 12 * |pts| <= |p| && PointsEncodedAt(p, start, pts)
    ensures ObjectField(p, start, |pts|, f) == Wrapped(pts, f)
  {
    var got := ObjectField(p, start, |pts|, f);
    var want := Wrapped(pts, f);
    forall k | 0 <= k < |pts|
      ensures got[k] == want[k]
    {
      assert LE16(p, start + 12 * k + 2 * f) == Word(pts[k], f);
      ObjectFieldAt(p, start, |pts|, f, k);
    }
  }

  lemma ObjectFieldAt(p: seq<uint8>, start: nat, n: nat, f: nat, k: nat)
    requires start + 12 * n <= |p| && f < 6 && k < n
    ensures start + 12 * k + 2 * f + 2 <= |p|
    ensures ObjectField(p, start, n, f)[k] == ToInt16(LE16(p, start + 12 * k + 2 * f))
  {
  }

  /** Encoded points at `start` put each word where PointsEncodedAt says. */
  lemma PointsEncoded(p: seq<uint8>, start: nat, pts: seq<RawPoint>)
    requires forall j :: 0 <= j < |pts| ==> PointOk(pts[j])
    requires start + 12 * |pts| <= |p| && BytesAt(p, start, EncodePoints(pts))
    ensures PointsEncodedAt(p, start, pts)
  {
    forall k, f | 0 <= k < |pts| && 0 <= f < 6
      ensures LE16(p, start + 12 * k + 2 * f) == Word(pts[k], f)
    {
      ObjectWordOfEncoded(p, start, pts, k, f);
    }
  }

  /** Two bytes holding word f of pt, low byte first, read back as that word. */
  lemma WordOfBytes(p: seq<uint8>, i: nat, pt: RawPoint, f: nat)
    requires PointOk(pt) && f < 6 && i + 2 <= |p|
    requires p[i] == Word(pt, f) % 256 && p[i + 1] == Word(pt, f) / 256
    ensures LE16(p, i) == Word(pt, f)
  {
    LE16At(p, i, Word(pt, f));
  }

  lemma ObjectWordOfEncoded(p: seq<uint8>, start: nat, pts: seq<RawPoint>, k: nat, f: nat)
    requires forall j :: 0 <= j < |pts| ==> PointOk(pts[j])
    requires k < |pts| && f < 6 && start + 12 * |pts| <= |p| && BytesAt(p, start, EncodePoints(pts))
    ensures start + 12 * k + 2 * f + 2 <= |p| && LE16(p, start + 12 * k + 2 * f) == Word(pts[k], f)
  {
    PointBytes(p, start, pts, k, f);
    WordOfBytes(p, start + 12 * k + 2 * f, pts[k], f);
  }

  lemma PointBytes(p: seq<uint8>, start: nat, pts: seq<RawPoint>, k: nat, f: nat)
    requires forall j :: 0 <= j < |pts| ==> PointOk(pts[j])
    requires k < |pts| && f < 6 && start + 12 * |pts| <= |p| && BytesAt(p, start, EncodePoints(pts))
    ensures start + 12 * k + 2 * f + 2 <= |p|
    ensures p[start + 12 * k + 2 * f] == Word(pts[k], f) % 256
    ensures p[start + 12 * k + 2 * f + 1] == Word(pts[k], f) / 256
  {
    EncodedWordBytes(pts, k, f);
  }

  /** The two bytes of word f of point k in the encoded points. */
  lemma EncodedWordBytes(pts: seq<RawPoint>, k: nat, f: nat)
    requires forall j :: 0 <= j < |pts| ==> PointOk(pts[j])
    requires k < |pts| && f < 6
    ensures 12 * k + 2 * f + 2 <= |EncodePoints(pts)|
    ensures EncodePoints(pts)[12 * k + 2 * f] == Word(pts[k], f) % 256
    ensures EncodePoints(pts)[12 * k + 2 * f + 1] == Word(pts[k], f) / 256
  {
    EncodePointsAt(pts, k, 2 * f);
    EncodePointsAt(pts, k, 2 * f + 1);
    EncodePointWord(pts[k], f);
  }

  /** The bytes of e sit in p from position start on. */
  ghost predicate BytesAt(p: seq<uint8>, start: nat, e: seq<uint8>)
    requires start + |e| <= |p|
  {
    forall t {:trigger e[t]} :: 0 <= t < |e| ==> p[start + t] == e[t]
  }

  /** Each part of a three-part concatenation sits at its offset. */
  lemma BytesAtParts(a: seq<uint8>, b: seq<uint8>, c: seq<uint8>)
    ensures BytesAt(a + (b + c), |a|, b) && BytesAt(a + (b + c), |a| + |b|, c)
  {
    var p := a + (b + c);
    forall t | 0 <= t < |b| ensures p[|a| + t] == b[t] {
      assert (b + c)[t] == b[t];
    }
    forall t | 0 <= t < |c| ensures p[|a| + |b| + t] == c[t] {
      assert (b + c)[|b| + t] == c[t];
    }
  }

  /** The tail r of bytes h + r placed at `at` sits |h| bytes further on. */
  lemma BytesAtTail(p: seq<uint8>, at: nat, h: seq<uint8>, r: seq<uint8>)
    requires at + |h| + |r| <= |p| && BytesAt(p, at, h + r)
    ensures BytesAt(p, at + |h|, r)
  {
    forall t | 0 <= t < |r| ensures p[at + |h| + t] == r[t] {
      assert (h + r)[|h| + t] == r[t];
    }
  }

  lemma LE32Bytes(s: seq<uint8>, at: nat, v: nat)
    requires v < 0x1_0000_0000 && at + 4 <= |s|
    requires s[at] == Encode32(v)[0] && s[at + 1] == Encode32(v)[1]
    requires s[at + 2] == Encode32(v)[2] && s[at + 3] == Encode32(v)[3]
    ensures LE32(s, at) == v
  {
    LE32RoundTrip(v);
  }

  /** The header fields come back from their encoding, whatever follows them. */
  lemma HeaderRoundTrip(magic: seq<uint8>, h: Header, rest: seq<uint8>)
    requires |magic| == 8 && HeaderOk(h)
    ensures ParseHeader(EncodeHeader(magic, h) + rest) == Ok(h)
  {
    var p := EncodeHeader(magic, h) + rest;
    LE32At(p, 8, h.version);
    LE32At(p, 12, h.totalPacketLen);
    LE32At(p, 16, h.platform);
    LE32At(p, 20, h.frameNumber);
    LE32At(p, 24, h.timeCpuCycles);
    LE32At(p, 28, h.numDetectedObj);
    LE32At(p, 32, h.numTLVs);
  }

  /** A detected-points record at the cursor is consumed whole and becomes the current detObj. */
  lemma DetectedPointsRecord(p: seq<uint8>, at: nat, tlvLength: nat, qExponent: nat, pts: seq<RawPoint>,
                             remaining: nat, detObj: Option<DetObj>)
    requires tlvLength < 0x1_0000_0000 && qExponent < 0x1_0000 && |pts| < 0x1_0000
    requires forall k :: 0 <= k < |pts| ==> PointOk(pts[k])
    requires at + 12 + 12 * |pts| <= |p| && BytesAt(p, at, EncodeDetectedPoints(tlvLength, qExponent, pts))
    ensures ParseTlvs(p, at, remaining + 1, detObj)
         == ParseTlvs(p, at + 12 + 12 * |pts|, remaining, Some(Decoded(qExponent, pts)))
  {
    RecordHeaderBytes(p, at, tlvLength, qExponent, pts);
    PayloadOfEncoded(p, at + 8, qExponent, pts);
  }

  /** The fixed part of an encoded detected-points record: type, count, Q exponent, then the points. */
  lemma RecordHeaderBytes(p: seq<uint8>, at: nat, tlvLength: nat, qExponent: nat, pts: seq<RawPoint>)
    requires tlvLength < 0x1_0000_0000 && qExponent < 0x1_0000 && |pts| < 0x1_0000
    requires forall k :: 0 <= k < |pts| ==> PointOk(pts[k])
    requires at + 12 + 12 * |pts| <= |p| && BytesAt(p, at, EncodeDetectedPoints(tlvLength, qExponent, pts))
    ensures LE32(p, at) == DetectedPointsTlv && LE16(p, at + 8) == |pts| && LE16(p, at + 10) == qExponent
    ensures PointsEncodedAt(p, at + 12, pts)
  {
    var e := EncodeDetectedPoints(tlvLength, qExponent, pts);
    var h := Encode32(DetectedPointsTlv) + Encode32(tlvLength) + Encode16(|pts|) + Encode16(qExponent);
    assert e == h + EncodePoints(pts);
    assert p[at] == e[0] && p[at + 1] == e[1] && p[at + 2] == e[2] && p[at + 3] == e[3];
    assert p[at + 8] == e[8] && p[at + 9] == e[9] && p[at + 10] == e[10] && p[at + 11] == e[11];
    LE32Bytes(p, at, DetectedPointsTlv);
    LE16At(p, at + 8, |pts|);
    LE16At(p, at + 10, qExponent);
    BytesAtTail(p, at, h, EncodePoints(pts));
    PointsEncoded(p, at + 12, pts);
  }

  /** The payload after a record header whose count and Q exponent precede the encoded points. */
  lemma PayloadOfEncoded(p: seq<uint8>, at: nat, qExponent: nat, pts: seq<RawPoint>)
    requires qExponent < 0x1_0000 && |pts| < 0x1_0000
    requires forall k :: 0 <= k < |pts| ==> PointOk(pts[k])
    requires at + 4 + 12 * |pts| <= |p| && LE16(p, at) == |pts| && LE16(p, at + 2) == qExponent
    requires PointsEncodedAt(p, at + 4, pts)
    ensures ParseDetectedPoints(p, at) == Ok((Decoded(qExponent, pts), at + 4 + 12 * |pts|))
  {
    forall f | 0 <= f < 6 {
      ObjectFieldOfEncoded(p, at + 4, pts, f);
    }
  }

  /**
   * A packet made of a header announcing one record and one detected-points
   * record decodes to exactly those points.
   */
  lemma PacketRoundTrip(magic: seq<uint8>, h: Header, tlvLength: nat, qExponent: nat, pts: seq<RawPoint>)
    requires |magic| == 8 && HeaderOk(h) && h.numTLVs == 1
    requires tlvLength < 0x1_0000_0000 && qExponent < 0x1_0000 && |pts| < 0x1_0000
    requires forall k :: 0 <= k < |pts| ==> PointOk(pts[k])
    ensures DecodePacket(EncodeHeader(magic, h) + EncodeDetectedPoints(tlvLength, qExponent, pts))
         == Ok(Decoded(qExponent, pts))
  {
    var rec := EncodeDetectedPoints(tlvLength, qExponent, pts);
    var p := EncodeHeader(magic, h) + rec;
    HeaderRoundTrip(magic, h, rec);
    BytesAtParts(EncodeHeader(magic, h), rec, []);
    assert EncodeHeader(magic, h) + (rec + []) == p;
    DetectedPointsRecord(p, HeaderEnd, tlvLength, qExponent, pts, 0, None);
  }

  /** With two detected-points records, the second one overwrites the first. */
  lemma LastRecordWins(magic: seq<uint8>, h: Header, len1: nat, q1: nat, pts1: seq<RawPoint>,
                       len2: nat, q2: nat, pts2: seq<RawPoint>)
    requires |magic| == 8 && HeaderOk(h) && h.numTLVs == 2
    requires len1 < 0x1_0000_0000 && q1 < 0x1_0000 && |pts1| < 0x1_0000
    requires len2 < 0x1_0000_0000 && q2 < 0x1_0000 && |pts2| < 0x1_0000
    requires forall k :: 0 <= k < |pts1| ==> PointOk(pts1[k])
    requires forall k :: 0 <= k < |pts2| ==> PointOk(pts2[k])
    ensures DecodePacket(EncodeHeader(magic, h) + EncodeDetectedPoints(len1, q1, pts1) + EncodeDetectedPoints(len2, q2, pts2))
         == Ok(Decoded(q2, pts2))
  {
    var r1 := EncodeDetectedPoints(len1, q1, pts1);
    var r2 := EncodeDetectedPoints(len2, q2, pts2);
    var hd := EncodeHeader(magic, h);
    HeaderRoundTrip(magic, h, r1 + r2);
    BytesAtParts(hd, r1, r2);
    AppendAssoc(hd, r1, r2);
    TwoRecords(hd + (r1 + r2), h, len1, q1, pts1, len2, q2, pts2);
  }

  /** Two detected-points records right after a parsed header: the second one is returned. */
  lemma TwoRecords(p: seq<uint8>, h: Header, len1: nat, q1: nat, pts1: seq<RawPoint>,
                   len2: nat, q2: nat, pts2: seq<RawPoint>)
    requires ParseHeader(p) == Ok(h) && h.numTLVs == 2
    requires len1 < 0x1_0000_0000 && q1 < 0x1_0000 && |pts1| < 0x1_0000
    requires len2 < 0x1_0000_0000 && q2 < 0x1_0000 && |pts2| < 0x1_0000
    requires forall k :: 0 <= k < |pts1| ==> PointOk(pts1[k])
    requires forall k :: 0 <= k < |pts2| ==> PointOk(pts2[k])
    requires HeaderEnd + 24 + 12 * |pts1| + 12 * |pts2| <= |p|
    requires BytesAt(p, HeaderEnd, EncodeDetectedPoints(len1, q1, pts1))
    requires BytesAt(p, HeaderEnd + 12 + 12 * |pts1|, EncodeDetectedPoints(len2, q2, pts2))
    ensures DecodePacket(p) == Ok(Decoded(q2, pts2))
  {
    var mid := HeaderEnd + 12 + 12 * |pts1|;
    DetectedPointsRecord(p, HeaderEnd, len1, q1, pts1, 1, None);
    DetectedPointsRecord(p, mid, len2, q2, pts2, 0, Some(Decoded(q1, pts1)));
    PacketOfParts(p, h, Decoded(q2, pts2));
  }

  /** A packet decodes to d when its header parses and its records leave d bound. */
  lemma PacketOfParts(p: seq<uint8>, h: Header, d: DetObj)
    requires ParseHeader(p) == Ok(h) && ParseTlvs(p, HeaderEnd, h.numTLVs, None) == Ok(Some(d))
    ensures DecodePacket(p) == Ok(d)
  {
  }

  lemma AppendAssoc(a: seq<uint8>, b: seq<uint8>, c: seq<uint8>)
    ensures a + b + c == a + (b + c)
  {
  }

  /** A packet whose records are all of other types leaves detObj unbound. */
  lemma {:induction false} OtherRecordsOnly(p: seq<uint8>, at: nat, remaining: nat, detObj: Option<DetObj>)
    requires at + 8 * remaining <= |p|
    requires forall j :: 0 <= j < remaining ==> LE32(p, at + 8 * j) != DetectedPointsTlv
    ensures ParseTlvs(p, at, remaining, detObj) == Ok(detObj)
    decreases remaining
  {
    if remaining > 0 {
      forall j | 0 <= j < remaining - 1
        ensures LE32(p, at + 8 + 8 * j) != DetectedPointsTlv
      {
        assert at + 8 + 8 * j == at + 8 * (j + 1);
      }
      assert LE32(p, at + 8 * 0) != DetectedPointsTlv;
      OtherRecordsOnly(p, at + 8, remaining - 1, detObj);
    }
  }
}

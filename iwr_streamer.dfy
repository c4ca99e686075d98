/**
 * The IWR1443 byte-stream framer: a fixed 2^16-byte buffer that new bytes
 * are appended to, that is re-aligned on the 8-byte magic word, and from
 * whose front length-prefixed packets are cut.
 */
module IwrStreamer {
  import opened Common

  const MaxBufferSize: nat := 0x1_0000
  const MagicWord: seq<uint8> := [2, 1, 4, 3, 6, 5, 8, 7]

  /**
   * All eight bytes from loc on equal the magic word. A window cut short by
   * the end never matches, as in NumPy before 1.25, where comparing arrays of
   * different lengths gives False.
   */
  predicate MatchAt(b: seq<uint8>, loc: nat)
  {
    loc + 8 <= |b| && b[loc..loc + 8] == MagicWord
  }

  /** Every byte from len on is zero. */
  ghost predicate TailZero(b: seq<uint8>, len: nat)
  {
    forall i :: len <= i < |b| ==> b[i] == 0
  }

  /** The smallest magic-word position at or after `from`, if any. */
  function FirstMatchFrom(b: seq<uint8>, from: nat): (r: Option<nat>)
    decreases |b| - from
    ensures r.Some? ==> from <= r.value && MatchAt(b, r.value)
    ensures r.Some? ==> forall k :: from <= k < r.value ==> !MatchAt(b, k)
    ensures r.None? ==> forall k :: from <= k ==> !MatchAt(b, k)
  {
    if from >= |b| then None
    else if MatchAt(b, from) then Some(from)
    else FirstMatchFrom(b, from + 1)
  }

  function FirstMatch(b: seq<uint8>): Option<nat>
  {
    FirstMatchFrom(b, 0)
  }

  /** Bytes [s, len) moved to the front in order, everything after them zero. */
  function Shifted(b: seq<uint8>, len: nat, s: nat): (r: seq<uint8>)
    requires s <= len <= |b|
    ensures |r| == |b| && TailZero(r, len - s)
    ensures forall i :: 0 <= i < len - s ==> r[i] == b[s + i]
  {
    b[s..len] + Zeros(|b| - (len - s))
  }

  /** Buffer contents and length after the append step of addToBuffer. */
  function Appended(b: seq<uint8>, len: nat, byteVec: seq<uint8>): (r: (seq<uint8>, nat))
    requires len <= |b|
    ensures |r.0| == |b|
  {
    if len + |byteVec| < MaxBufferSize && len + |byteVec| <= |b| then
      (b[..len] + byteVec + b[len + |byteVec|..], len + |byteVec|)
    else (b, len)
  }

  /** Buffer contents and length after the magic-word resynchronisation of addToBuffer. */
  function Resynced(b: seq<uint8>, len: nat): (r: (seq<uint8>, nat))
    requires len <= |b|
    ensures |r.0| == |b|
  {
    if len > 16 then
      match FirstMatch(b)
      case Some(s) =>
        if 0 < s < len then (Shifted(b, len, s), len - s) else (b, len)
      case None => (b, len)
    else (b, len)
  }

  /** Appending keeps the zero tail when it takes the data, and drops the data when it would reach 2^16 bytes. */
  lemma AppendedSpec(b: seq<uint8>, len: nat, byteVec: seq<uint8>)
    requires |b| == MaxBufferSize && len < MaxBufferSize && TailZero(b, len)
    ensures var (b', len') := Appended(b, len, byteVec);
      && len' < MaxBufferSize && TailZero(b', len')
      && (len + |byteVec| < MaxBufferSize ==> len' == len + |byteVec| && b'[..len] == b[..len] && b'[len..len'] == byteVec)
      && (len + |byteVec| >= MaxBufferSize ==> b' == b && len' == len)
  {
  }

  /**
   * Resynchronisation keeps the zero tail and, when it moves anything, leaves
   * the buffer starting with the magic word. A stream already aligned at 0 is
   * left alone.
   */
  lemma {:induction false} ResyncedSpec(b: seq<uint8>, len: nat)
    requires |b| == MaxBufferSize && len < MaxBufferSize && TailZero(b, len)
    ensures var (b', len') := Resynced(b, len);
      && len' <= len && TailZero(b', len')
      && (len' < len ==> len' > 0 && MatchAt(b', 0) && b'[..len'] == b[len - len'..len])
      && (MatchAt(b, 0) ==> b' == b && len' == len)
  {
    var (b', len') := Resynced(b, len);
    if len' < len {
      var s :| FirstMatch(b) == Some(s) && 0 < s < len && b' == Shifted(b, len, s);
      MatchInsideData(b, len, s);
      assert b'[0..8] == b[s..s + 8];
    }
  }

  /** Under the zero tail, a magic word lies wholly inside the data (it has no zero byte). */
  lemma MatchInsideData(b: seq<uint8>, len: nat, s: nat)
    requires TailZero(b, len) && len <= |b| && MatchAt(b, s)
    ensures s + 8 <= len
  {
    assert b[s + 7] == b[s..s + 8][7];
  }

  class Streamer {
    var byteBuffer: array<uint8>
    var byteBufferLength: nat

    /** The buffer has its fixed size and every byte past the data is zero. */
    ghost predicate Valid()
      reads this, byteBuffer
    {
      byteBuffer.Length == MaxBufferSize && byteBufferLength < MaxBufferSize
      && TailZero(byteBuffer[..], byteBufferLength)
    }

    constructor ()
      ensures Valid() && fresh(byteBuffer) && byteBufferLength == 0
      ensures byteBuffer[..] == Zeros(MaxBufferSize)
    {
      byteBuffer := new uint8[MaxBufferSize](_ => 0);
      byteBufferLength := 0;
    }

    /**
     * addToBuffer: appends byteVec when the result stays below 2^16 bytes
     * (otherwise drops it), then, with more than 16 bytes held, moves the data
     * from the first magic word on to the front.
     */
    method AddToBuffer(byteVec: seq<uint8>)
      requires Valid()
      modifies this`byteBufferLength, byteBuffer
      ensures Valid()
      ensures (byteBuffer[..], byteBufferLength) ==
        var (b1, len1) := Appended(old(byteBuffer[..]), old(byteBufferLength), byteVec); Resynced(b1, len1)
    {
      AppendStep(byteVec);
      ResyncStep();
    }

    /** The append half of addToBuffer. */
    method AppendStep(byteVec: seq<uint8>)
      requires Valid()
      modifies this`byteBufferLength, byteBuffer
      ensures Valid()
      ensures (byteBuffer[..], byteBufferLength) == Appended(old(byteBuffer[..]), old(byteBufferLength), byteVec)
    {
      AppendedSpec(byteBuffer[..], byteBufferLength, byteVec);
      var byteCount := |byteVec|;
      if byteBufferLength + byteCount < MaxBufferSize {
        CopyIn(byteVec);
        byteBufferLength := byteBufferLength + byteCount;
      }
    }

    /** The magic-word half of addToBuffer: with more than 16 bytes held, the data from the first magic word on moves to the front. */
    method ResyncStep()
      requires Valid()
      modifies this`byteBufferLength, byteBuffer
      ensures Valid()
      ensures (byteBuffer[..], byteBufferLength) == Resynced(old(byteBuffer[..]), old(byteBufferLength))
    {
      ResyncedSpec(byteBuffer[..], byteBufferLength);
      if byteBufferLength > 16 {
        var startIdx := FindMagicWord();
        FirstIsLeast(byteBuffer[..], startIdx);
        if |startIdx| > 0 {
          var s := startIdx[0];
          if 0 < s && s < byteBufferLength {
            ShiftToFront(s);
            byteBufferLength := byteBufferLength - s;
          }
        }
      }
    }

    /** The slice assignment that writes byteVec at positions [len, len + count). */
    method CopyIn(byteVec: seq<uint8>)
      requires byteBuffer.Length == MaxBufferSize && byteBufferLength + |byteVec| < MaxBufferSize
      modifies byteBuffer
      ensures byteBuffer[..] == old(byteBuffer[..byteBufferLength]) + byteVec + old(byteBuffer[byteBufferLength + |byteVec|..])
    {
      ghost var b0 := byteBuffer[..];
      for i := 0 to |byteVec|
        invariant forall k :: 0 <= k < byteBufferLength ==> byteBuffer[k] == b0[k]
        invariant forall k :: 0 <= k < i ==> byteBuffer[byteBufferLength + k] == byteVec[k]
        invariant forall k :: byteBufferLength + i <= k < MaxBufferSize ==> byteBuffer[k] == b0[k]
      {
        byteBuffer[byteBufferLength + i] := byteVec[i];
      }
      assert byteBuffer[..] == b0[..byteBufferLength] + byteVec + b0[byteBufferLength + |byteVec|..];
    }

    /** The magic-word scan: every position whose eight bytes equal the magic word, in increasing order. */
    method FindMagicWord() returns (startIdx: seq<nat>)
      requires byteBuffer.Length == MaxBufferSize
      ensures forall j :: 0 <= j < |startIdx| ==> MatchAt(byteBuffer[..], startIdx[j])
      ensures forall k :: 0 <= k < MaxBufferSize && MatchAt(byteBuffer[..], k) ==> k in startIdx
      ensures forall i, j :: 0 <= i < j < |startIdx| ==> startIdx[i] < startIdx[j]
    {
      ghost var b := byteBuffer[..];
      startIdx := [];
      for loc := 0 to MaxBufferSize
        invariant forall j :: 0 <= j < |startIdx| ==> startIdx[j] < loc && MatchAt(b, startIdx[j])
        invariant forall k :: 0 <= k < loc && MatchAt(b, k) ==> k in startIdx
        invariant forall i, j :: 0 <= i < j < |startIdx| ==> startIdx[i] < startIdx[j]
      {
        if byteBuffer[loc] == MagicWord[0] && loc + 8 <= MaxBufferSize && byteBuffer[loc..loc + 8] == MagicWord {
          assert b[loc..loc + 8] == byteBuffer[loc..loc + 8];
          startIdx := startIdx + [loc];
        } else {
          assert !MatchAt(b, loc) by {
            if loc + 8 <= MaxBufferSize {
              assert b[loc..loc + 8] == byteBuffer[loc..loc + 8];
              assert b[loc..loc + 8][0] == b[loc];
            }
          }
        }
      }
    }

    /**
     * extractNextPacket: reads the packet length as the little-endian u32 at
     * bytes 12..15; when the buffer holds that many bytes (and is not empty)
     * it removes them from the front and returns a packet of that length.
     * The source returns a numpy view of the buffer's first bytes, so what the
     * caller sees is the buffer's new front, as returned here.
     */
    method ExtractNextPacket() returns (currentPacket: Option<seq<uint8>>)
      requires Valid()
      modifies this`byteBufferLength, byteBuffer
      ensures Valid()
      ensures var totalPacketLen := LE32(old(byteBuffer[..]), 12);
        if old(byteBufferLength) >= totalPacketLen && old(byteBufferLength) != 0 then
          && byteBuffer[..] == Shifted(old(byteBuffer[..]), old(byteBufferLength), totalPacketLen)
          && byteBufferLength == old(byteBufferLength) - totalPacketLen
          && currentPacket == Some(byteBuffer[..totalPacketLen])
        else
          currentPacket == None && byteBuffer[..] == old(byteBuffer[..]) && byteBufferLength == old(byteBufferLength)
    {
      var totalPacketLen := byteBuffer[12] as nat + 0x100 * byteBuffer[13] as nat
                            + 0x1_0000 * byteBuffer[14] as nat + 0x100_0000 * byteBuffer[15] as nat;
      assert totalPacketLen == LE32(byteBuffer[..], 12);
      if byteBufferLength >= totalPacketLen && byteBufferLength != 0 {
        ShiftToFront(totalPacketLen);
        byteBufferLength := byteBufferLength - totalPacketLen;
        currentPacket := Some(byteBuffer[..totalPacketLen]);
      } else {
        currentPacket := None;
      }
    }

    /** readFromFile returns the next available packet. */
    method ReadFromFile() returns (packet: Option<seq<uint8>>)
      requires Valid()
      modifies this`byteBufferLength, byteBuffer
      ensures Valid()
      ensures var totalPacketLen := LE32(old(byteBuffer[..]), 12);
        if old(byteBufferLength) >= totalPacketLen && old(byteBufferLength) != 0 then
          && byteBuffer[..] == Shifted(old(byteBuffer[..]), old(byteBufferLength), totalPacketLen)
          && byteBufferLength == old(byteBufferLength) - totalPacketLen
          && packet == Some(byteBuffer[..totalPacketLen])
        else
          packet == None && byteBuffer[..] == old(byteBuffer[..]) && byteBufferLength == old(byteBufferLength)
    {
      packet := ExtractNextPacket();
    }

    /** The two slice assignments that move bytes [s, len) to the front and zero the rest. */
    method ShiftToFront(s: nat)
      requires Valid() && s <= byteBufferLength
      modifies byteBuffer
      ensures byteBuffer[..] == Shifted(old(byteBuffer[..]), byteBufferLength, s)
    {
      ghost var b := byteBuffer[..];
      var n := byteBufferLength - s;
      for i := 0 to n
        invariant forall k :: 0 <= k < i ==> byteBuffer[k] == b[s + k]
        invariant forall k :: i <= k < MaxBufferSize ==> byteBuffer[k] == b[k]
      {
        byteBuffer[i] := byteBuffer[i + s];
      }
      for i := n to MaxBufferSize
        invariant forall k :: 0 <= k < n ==> byteBuffer[k] == b[s + k]
        invariant forall k :: n <= k < i ==> byteBuffer[k] == 0
      {
        byteBuffer[i] := 0;
      }
      assert byteBuffer[..] == Shifted(b, byteBufferLength, s);
    }
  }

  /** The first collected position is the first match of the whole buffer. */
  lemma FirstIsLeast(b: seq<uint8>, startIdx: seq<nat>)
    requires forall j :: 0 <= j < |startIdx| ==> MatchAt(b, startIdx[j])
    requires forall k :: 0 <= k < |b| && MatchAt(b, k) ==> k in startIdx
    requires forall i, j :: 0 <= i < j < |startIdx| ==> startIdx[i] < startIdx[j]
    ensures FirstMatch(b) == if |startIdx| > 0 then Some(startIdx[0]) else None
  {
    match FirstMatch(b)
    case Some(f) =>
      assert f in startIdx;
      if f != startIdx[0] {
        assert MatchAt(b, startIdx[0]);
      }
    case None =>
  }
}

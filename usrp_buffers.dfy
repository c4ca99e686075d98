/**
 * Layout of the USRP transmit/receive buffers: a (rows x samples-per-buffer)
 * array that holds num_chirps back-to-back chirps in row-major order, with
 * `excess` unused cells at the end of the last row.
 */
module UsrpBuffers {
  import opened Common
  import opened Arith

  datatype BufferSettings = BufferSettings(numRows: nat, excessSamples: nat)

  /**
   * Rows and excess cells for num_chirps chirps of samples_per_chirp samples in
   * rows of samples_per_buff samples. The source divides by samples_per_buff
   * only when it differs from samples_per_chirp.
   */
  function ComputeUsrpBufferSettings(samplesPerBuff: nat, samplesPerChirp: nat, numChirps: nat): (r: BufferSettings)
    requires samplesPerBuff > 0 || samplesPerBuff == samplesPerChirp
    // the buffer minus its excess holds exactly the chirps
    ensures r.numRows * samplesPerBuff - r.excessSamples == numChirps * samplesPerChirp
    ensures samplesPerBuff == samplesPerChirp ==> r == BufferSettings(numChirps, 0)
    ensures samplesPerBuff > 0 && (numChirps * samplesPerChirp) % samplesPerBuff == 0 ==> r.excessSamples == 0
    ensures samplesPerBuff > 0 && samplesPerBuff != samplesPerChirp && (numChirps * samplesPerChirp) % samplesPerBuff != 0 ==>
      0 < r.excessSamples < samplesPerBuff && (r.numRows - 1) * samplesPerBuff < numChirps * samplesPerChirp
    // no more rows than needed: the excess never fills a whole row
    ensures samplesPerBuff > 0 ==> r.excessSamples < samplesPerBuff
  {
    var total := numChirps * samplesPerChirp;
    if samplesPerBuff == samplesPerChirp then
      BufferSettings(numChirps, 0)
    else if total % samplesPerBuff == 0 then
      BufferSettings(total / samplesPerBuff, 0)
    else
      var rows := total / samplesPerBuff + 1;
      assert total == (total / samplesPerBuff) * samplesPerBuff + total % samplesPerBuff;
      assert rows * samplesPerBuff == total / samplesPerBuff * samplesPerBuff + samplesPerBuff;
      BufferSettings(rows, rows * samplesPerBuff - total)
  }

  /** num_chirps copies of a chirp, back to back. */
  function Repeat<T>(chirp: seq<T>, n: nat): (r: seq<T>)
    ensures |r| == n * |chirp|
  {
    if n == 0 then [] else chirp + Repeat(chirp, n - 1)
  }

  /** The first n elements of the endless cyclic repetition of data. */
  function Cyclic<T>(data: seq<T>, n: nat): (r: seq<T>)
    requires |data| > 0
    ensures |r| == n && forall p :: 0 <= p < n ==> r[p] == data[p % |data|]
  {
    seq(n, p requires 0 <= p < n => data[p % |data|])
  }

  lemma {:induction false} RepeatAt<T>(chirp: seq<T>, n: nat, p: nat)
    requires p < n * |chirp|
    ensures |Repeat(chirp, n)| == n * |chirp| && Repeat(chirp, n)[p] == chirp[p % |chirp|]
  {
    if p < |chirp| {
      FlatDivMod(0, p, |chirp|);
    } else {
      assert n > 0;
      RepeatAt(chirp, n - 1, p - |chirp|);
      ModShift(p - |chirp|, |chirp|);
    }
  }

  /** n back-to-back copies of a chirp are the cyclic repetition of it, cut at n chirps. */
  lemma RepeatIsCyclic<T>(chirp: seq<T>, n: nat)
    requires |chirp| > 0
    ensures Repeat(chirp, n) == Cyclic(chirp, n * |chirp|)
  {
    forall p | 0 <= p < n * |chirp|
      ensures Repeat(chirp, n)[p] == chirp[p % |chirp|]
    {
      RepeatAt(chirp, n, p);
    }
  }

  /**
   * load_data_into_usrp_buffer: walks the buffer in row-major order from (0,0)
   * up to, but not including, the last `excess` cells of the last row, writing
   * data cyclically (the data cursor wraps back to the start after its last
   * element). Cells past the stop position keep their contents.
   */
  method LoadDataIntoUsrpBuffer<T>(data: seq<T>, usrpBuffer: array2<T>, excessSamples: nat)
    requires |data| > 0 && usrpBuffer.Length0 > 0 && usrpBuffer.Length1 > 0
    requires excessSamples <= usrpBuffer.Length1
    modifies usrpBuffer
    ensures forall r, c :: 0 <= r < usrpBuffer.Length0 && 0 <= c < usrpBuffer.Length1 ==>
      usrpBuffer[r, c] == if r * usrpBuffer.Length1 + c < usrpBuffer.Length0 * usrpBuffer.Length1 - excessSamples
                          then data[(r * usrpBuffer.Length1 + c) % |data|] else old(usrpBuffer[r, c])
  {
    var numRows, samplesPerBuffer := usrpBuffer.Length0, usrpBuffer.Length1;
    var d := 0;
    // the buffer iterator is the cell (row, col); col == samplesPerBuffer is the end of the last row
    var row, col := 0, 0;
    while !(row == numRows - 1 && col == samplesPerBuffer - excessSamples)
      invariant 0 <= row < numRows
      invariant row < numRows - 1 ==> col < samplesPerBuffer
      invariant row == numRows - 1 ==> col <= samplesPerBuffer - excessSamples
      invariant d == (row * samplesPerBuffer + col) % |data|
      invariant forall r, c :: 0 <= r < numRows && 0 <= c < samplesPerBuffer ==>
        usrpBuffer[r, c] == if r < row || (r == row && c < col)
                            then CyclicAt(data, samplesPerBuffer, r, c) else old(usrpBuffer[r, c])
      decreases numRows - row, samplesPerBuffer - col
    {
      assert col < samplesPerBuffer;
      assert data[d] == CyclicAt(data, samplesPerBuffer, row, col);
      usrpBuffer[row, col] := data[d];
      ModSucc(row * samplesPerBuffer + col, |data|);
      d := if d == |data| - 1 then 0 else d + 1;
      if col == samplesPerBuffer - 1 {
        if row == numRows - 1 && excessSamples == 0 {
          col := samplesPerBuffer;
        } else {
          assert (row + 1) * samplesPerBuffer == row * samplesPerBuffer + col + 1;
          row, col := row + 1, 0;
        }
      } else {
        col := col + 1;
      }
    }
    assert row * samplesPerBuffer + col == numRows * samplesPerBuffer - excessSamples;
    forall r, c | 0 <= r < numRows && 0 <= c < samplesPerBuffer
      ensures usrpBuffer[r, c] == if r * samplesPerBuffer + c < numRows * samplesPerBuffer - excessSamples
                                  then data[(r * samplesPerBuffer + c) % |data|] else old(usrpBuffer[r, c])
    {
      FlatLess(r, c, row, col, samplesPerBuffer);
    }
  }

  /** The element of the cyclically repeated data that lands in cell (r, c) of rows of width w. */
  function CyclicAt<T>(data: seq<T>, w: nat, r: nat, c: nat): T
    requires |data| > 0
  {
    data[(r * w + c) % |data|]
  }

  /**
   * The samples save_usrp_buffer_to_file writes: every row but the last in
   * full, then the first samples_per_buff - excess samples of the last row,
   * in row-major order. Nothing is written when the stream is not open.
   */
  method SaveUsrpBufferToFile<T>(usrpBuffer: array2<T>, streamOpen: bool, excessSamples: nat) returns (written: seq<T>)
    requires usrpBuffer.Length0 > 0 && usrpBuffer.Length1 > 0 && excessSamples <= usrpBuffer.Length1
    ensures !streamOpen ==> written == []
    ensures streamOpen ==> |written| == usrpBuffer.Length0 * usrpBuffer.Length1 - excessSamples
    ensures streamOpen ==> forall r, c ::
      0 <= r < usrpBuffer.Length0 && 0 <= c < usrpBuffer.Length1 && r * usrpBuffer.Length1 + c < |written| ==>
        written[r * usrpBuffer.Length1 + c] == usrpBuffer[r, c]
  {
    written := [];
    if streamOpen {
      var numRows, samplesPerBuff := usrpBuffer.Length0, usrpBuffer.Length1;
      for i := 0 to numRows - 1
        invariant |written| == i * samplesPerBuff
        invariant forall r, c :: 0 <= r < numRows && 0 <= c < samplesPerBuff && r * samplesPerBuff + c < |written| ==>
          written[r * samplesPerBuff + c] == usrpBuffer[r, c]
      {
        written := WriteRow(written, usrpBuffer, i, samplesPerBuff);
      }
      written := WriteRow(written, usrpBuffer, numRows - 1, samplesPerBuff - excessSamples);
      assert (numRows - 1) * samplesPerBuff + samplesPerBuff == numRows * samplesPerBuff;
    }
  }

  /** One out_file_stream.write of the first `count` samples of row i, after rows 0..i-1. */
  method WriteRow<T>(written: seq<T>, usrpBuffer: array2<T>, i: nat, count: nat) returns (out: seq<T>)
    requires i < usrpBuffer.Length0 && count <= usrpBuffer.Length1
    requires |written| == i * usrpBuffer.Length1
    requires forall r, c :: 0 <= r < usrpBuffer.Length0 && 0 <= c < usrpBuffer.Length1 && r * usrpBuffer.Length1 + c < |written| ==>
      written[r * usrpBuffer.Length1 + c] == usrpBuffer[r, c]
    ensures |out| == |written| + count
    ensures forall r, c :: 0 <= r < usrpBuffer.Length0 && 0 <= c < usrpBuffer.Length1 && r * usrpBuffer.Length1 + c < |out| ==>
      out[r * usrpBuffer.Length1 + c] == usrpBuffer[r, c]
  {
    var n := usrpBuffer.Length1;
    var row := RowPrefix(usrpBuffer, i, count);
    out := written + row;
    forall r, c | 0 <= r < usrpBuffer.Length0 && 0 <= c < n && r * n + c < |out|
      ensures out[r * n + c] == usrpBuffer[r, c]
    {
      FlatLess(r, c, i, 0, n);
      FlatLess(r, c, i, count, n);
      if r < i {
        assert out[r * n + c] == written[r * n + c];
      } else {
        assert r == i;
        assert out[r * n + c] == row[c];
      }
    }
  }

  /** The first `count` samples of row i. */
  function RowPrefix<T>(a: array2<T>, i: nat, count: nat): (r: seq<T>)
    requires i < a.Length0 && count <= a.Length1
    reads a
    ensures |r| == count && forall c :: 0 <= c < count ==> r[c] == a[i, c]
  {
    seq(count, c requires 0 <= c < count reads a => a[i, c])
  }

  /**
   * The transmit side of BufferHandler: init_tx_buffer sizes the tx buffer
   * with compute_usrp_buffer_settings, allocates it zero-filled and loads the
   * chirp into it cyclically.
   */
  class BufferHandler {
    var numChirps: nat
    var txSamplesPerBuff: nat
    var txChirpBuffer: seq<Complex>
    var samplesPerChirp: nat
    var txNumRows: nat
    var txExcessSamples: nat
    var txBuffer: array2<Complex>

    /** The chirp (read from the tx file by load_tx_chirp) is given as a parameter. */
    constructor (config_numChirps: nat, txSpb: nat, chirp: seq<Complex>)
      requires config_numChirps > 0 && txSpb > 0 && |chirp| > 0
      ensures numChirps == config_numChirps && txSamplesPerBuff == txSpb && txChirpBuffer == chirp
      ensures fresh(txBuffer) && TxHoldsChirps()
    {
      numChirps, txSamplesPerBuff := config_numChirps, txSpb;
      txChirpBuffer, samplesPerChirp := chirp, |chirp|;
      txBuffer := new Complex[0, 0];
      new;
      InitTxBuffer();
    }

    /** The tx buffer holds exactly num_chirps back-to-back chirps, then zeros. */
    ghost predicate TxHoldsChirps()
      reads this, txBuffer
    {
      var total := numChirps * |txChirpBuffer|;
      && txSamplesPerBuff > 0
      && txBuffer.Length0 == txNumRows && txBuffer.Length1 == txSamplesPerBuff
      && txNumRows * txSamplesPerBuff == total + txExcessSamples
      && txExcessSamples < txSamplesPerBuff
      && forall r, c :: 0 <= r < txNumRows && 0 <= c < txSamplesPerBuff ==>
           txBuffer[r, c] == if r * txSamplesPerBuff + c < total
                             then Repeat(txChirpBuffer, numChirps)[r * txSamplesPerBuff + c] else Zero
    }

    method InitTxBuffer()
      requires samplesPerChirp == |txChirpBuffer| > 0 && txSamplesPerBuff > 0 && numChirps > 0
      modifies this
      ensures numChirps == old(numChirps) && txSamplesPerBuff == old(txSamplesPerBuff)
      ensures txChirpBuffer == old(txChirpBuffer) && samplesPerChirp == old(samplesPerChirp)
      ensures BufferSettings(txNumRows, txExcessSamples) == ComputeUsrpBufferSettings(txSamplesPerBuff, samplesPerChirp, numChirps)
      ensures fresh(txBuffer) && TxHoldsChirps()
    {
      var settings := ComputeUsrpBufferSettings(txSamplesPerBuff, samplesPerChirp, numChirps);
      txNumRows, txExcessSamples := settings.numRows, settings.excessSamples;
      assert txNumRows > 0 by {
        if txNumRows == 0 {
          assert numChirps * samplesPerChirp <= 0;
          MulLeft(1, numChirps, samplesPerChirp);
        }
      }
      var buffer := new Complex[txNumRows, txSamplesPerBuff]((_, _) => Zero);
      LoadDataIntoUsrpBuffer(txChirpBuffer, buffer, txExcessSamples);
      txBuffer := buffer;
      RepeatIsCyclic(txChirpBuffer, numChirps);
    }
  }

  /**
   * What save_usrp_buffer_to_file writes from a tx buffer built by
   * init_tx_buffer is exactly num_chirps back-to-back chirps.
   */
  lemma SavedTxBufferIsChirps(h: BufferHandler, written: seq<Complex>)
    requires h.TxHoldsChirps()
    requires |written| == h.txNumRows * h.txSamplesPerBuff - h.txExcessSamples
    requires forall r, c :: 0 <= r < h.txNumRows && 0 <= c < h.txSamplesPerBuff && r * h.txSamplesPerBuff + c < |written| ==>
      written[r * h.txSamplesPerBuff + c] == h.txBuffer[r, c]
    ensures written == Repeat(h.txChirpBuffer, h.numChirps)
  {
    var n := h.txSamplesPerBuff;
    var total := h.numChirps * |h.txChirpBuffer|;
    forall p | 0 <= p < |written|
      ensures written[p] == Repeat(h.txChirpBuffer, h.numChirps)[p]
    {
      var r, c := p / n, p % n;
      FlatDivMod(r, c, n);
      assert p == r * n + c;
      FlatLess(r, c, h.txNumRows, 0, n);
      assert h.txBuffer[r, c] == Repeat(h.txChirpBuffer, h.numChirps)[r * n + c];
    }
  }
}

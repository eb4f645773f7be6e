/** Little-endian packing of 32-bit words into bytes and back.

    A word stands for the bit pattern of an `f32`: `f32::from_le_bytes`
    reinterprets four bytes as a float without converting them, so the
    loader's decoding is exactly the little-endian assembly of a `bv32`. */
module LittleEndian {

  /** The word whose least significant byte is `b0` and most significant `b3`:
      splitting it into little-endian bytes gives the four bytes back. */
  function WordOfBytes(b0: bv8, b1: bv8, b2: bv8, b3: bv8): (w: bv32)
    ensures BytesOfWord(w) == [b0, b1, b2, b3]
  {
    (b3 as bv32 << 24) | (b2 as bv32 << 16) | (b1 as bv32 << 8) | b0 as bv32
  }

  /** The four bytes of `w`, least significant first. */
  function BytesOfWord(w: bv32): (r: seq<bv8>)
    ensures |r| == 4
  {
    [(w & 0xFF) as bv8, ((w >> 8) & 0xFF) as bv8, ((w >> 16) & 0xFF) as bv8, (w >> 24) as bv8]
  }

  /** Read as an unsigned number, the word is the base-256 number whose digits
      are the four bytes, least significant first. */
  lemma WordOfBytesValue(b0: bv8, b1: bv8, b2: bv8, b3: bv8)
    ensures WordOfBytes(b0, b1, b2, b3) as int
            == b0 as int + 256 * b1 as int + 65536 * b2 as int + 16777216 * b3 as int
  {
    // Horner's scheme: each step shifts in one more byte below the ones before.
    var x3 := b3 as bv32;
    var x2 := (x3 << 8) | b2 as bv32;
    var x1 := (x2 << 8) | b1 as bv32;
    HornerForm(b0, b1, b2, b3);
    ByteWidens(b3);
    ShiftInByte(x3, b2);
    ShiftInByte(x2, b1);
    ShiftInByte(x1, b0);
  }

  lemma HornerForm(b0: bv8, b1: bv8, b2: bv8, b3: bv8)
    ensures var x2 := (b3 as bv32 << 8) | b2 as bv32;
            var x1 := (x2 << 8) | b1 as bv32;
            && x2 < 0x1_0000 && x1 < 0x100_0000
            && WordOfBytes(b0, b1, b2, b3) == (x1 << 8) | b0 as bv32
  {
  }

  lemma ByteWidens(b: bv8)
    ensures (b as bv32) as int == b as int
  {
  }

  /** Shifting a byte in below a word that leaves room for it is
      multiplication by 256 and addition, on the unsigned values. */
  lemma ShiftInByte(x: bv32, b: bv8)
    requires x < 0x100_0000
    ensures ((x << 8) | b as bv32) as int == 256 * x as int + b as int
  {
  }

  lemma WordBytesRoundTrip(w: bv32)
    ensures var b := BytesOfWord(w); WordOfBytes(b[0], b[1], b[2], b[3]) == w
  {
  }

  /** The word read from the four bytes of `b` that start at byte `4 * k`. */
  function WordAt(b: seq<bv8>, k: nat): bv32
    requires 4 * k + 4 <= |b|
  {
    WordOfBytes(b[4 * k], b[4 * k + 1], b[4 * k + 2], b[4 * k + 3])
  }

  /** Splits `b` into whole 4-byte chunks from the front and reads each as a
      little-endian word, in buffer order. A remainder of one to three bytes
      at the end yields no word. */
  function DecodeWords(b: seq<bv8>): (r: seq<bv32>)
    ensures |r| == |b| / 4
    decreases |b|
  {
    if |b| < 4 then [] else [WordOfBytes(b[0], b[1], b[2], b[3])] + DecodeWords(b[4..])
  }

  /** Writes each word as its four little-endian bytes, in order. */
  function EncodeWords(ws: seq<bv32>): (r: seq<bv8>)
    ensures |r| == 4 * |ws|
  {
    if ws == [] then [] else BytesOfWord(ws[0]) + EncodeWords(ws[1..])
  }

  /** Decoded word `k` is read from bytes `4k` to `4k + 3` and from no others. */
  lemma {:induction false} DecodeWordsAt(b: seq<bv8>, k: nat)
    requires k < |b| / 4
    ensures 4 * k + 4 <= |b| && DecodeWords(b)[k] == WordAt(b, k)
  {
    if k > 0 {
      DecodeWordsAt(b[4..], k - 1);
      assert WordAt(b[4..], k - 1) == WordAt(b, k);
    }
  }

  /** A sequence is the decoding of `b` exactly when it has one word per
      whole chunk and word `k` is read from chunk `k`. */
  lemma DecodeWordsCharacterized(b: seq<bv8>, r: seq<bv32>)
    ensures r == DecodeWords(b)
            <==> |r| == |b| / 4 && forall k: nat :: k < |r| ==> 4 * k + 4 <= |b| && r[k] == WordAt(b, k)
  {
    forall k: nat | k < |b| / 4 {
      DecodeWordsAt(b, k);
    }
  }

  /** Decoded word `k`, as an unsigned number, is
      `b[4k] + 256 b[4k+1] + 65536 b[4k+2] + 16777216 b[4k+3]`. */
  lemma DecodeWordsValue(b: seq<bv8>, k: nat)
    requires k < |b| / 4
    ensures 4 * k + 4 <= |b|
    ensures DecodeWords(b)[k] as int
            == b[4 * k] as int + 256 * b[4 * k + 1] as int
               + 65536 * b[4 * k + 2] as int + 16777216 * b[4 * k + 3] as int
  {
    DecodeWordsAt(b, k);
    WordOfBytesValue(b[4 * k], b[4 * k + 1], b[4 * k + 2], b[4 * k + 3]);
  }

  /** Encoding words and decoding the bytes gives back the words, bit for bit. */
  lemma {:induction false} DecodeEncode(ws: seq<bv32>)
    ensures DecodeWords(EncodeWords(ws)) == ws
  {
    if ws != [] {
      var b := EncodeWords(ws);
      assert b[4..] == EncodeWords(ws[1..]);
      DecodeEncode(ws[1..]);
      WordBytesRoundTrip(ws[0]);
    }
  }

  /** Decoding and re-encoding gives back the buffer without its remainder
      of one to three bytes. */
  lemma {:induction false} EncodeDecode(b: seq<bv8>)
    ensures EncodeWords(DecodeWords(b)) == b[..|b| / 4 * 4]
    decreases |b|
  {
    if |b| >= 4 {
      EncodeDecode(b[4..]);
      assert b[..|b| / 4 * 4] == b[..4] + b[4..][..|b[4..]| / 4 * 4];
    }
  }

  /** The remainder is dropped without trace: the decoding of `b` is the
      decoding of its whole chunks alone. */
  lemma DecodeDropsRemainder(b: seq<bv8>)
    ensures DecodeWords(b) == DecodeWords(b[..|b| / 4 * 4])
  {
    EncodeDecode(b);
    DecodeEncode(DecodeWords(b));
  }
}

/** Byte order of 32-bit words: bswap_32 and the little-endian view of a byte buffer. */
module ByteOrder {
  type Byte = b: nat | b < 256
  type Word = w: nat | w < 0x1_0000_0000

  /** The word whose bytes, lowest first, are b0 b1 b2 b3. */
  function FromBytes(b0: Byte, b1: Byte, b2: Byte, b3: Byte): Word {
    b0 + 256 * (b1 + 256 * (b2 + 256 * b3))
  }

  function ByteAt(w: Word, k: nat): Byte
    requires k < 4
  {
    if k == 0 then w % 256
    else if k == 1 then w / 256 % 256
    else if k == 2 then w / 256 / 256 % 256
    else w / 256 / 256 / 256
  }

  /** bswap_32: the four bytes in reverse order. */
  function Bswap(w: Word): Word {
    FromBytes(ByteAt(w, 3), ByteAt(w, 2), ByteAt(w, 1), ByteAt(w, 0))
  }

  lemma LowByte(b: Byte, rest: nat)
    ensures (b + 256 * rest) % 256 == b && (b + 256 * rest) / 256 == rest
  {
  }

  lemma BytesOf(b0: Byte, b1: Byte, b2: Byte, b3: Byte)
    ensures var w := FromBytes(b0, b1, b2, b3);
            ByteAt(w, 0) == b0 && ByteAt(w, 1) == b1 && ByteAt(w, 2) == b2 && ByteAt(w, 3) == b3
  {
    LowByte(b0, b1 + 256 * (b2 + 256 * b3));
    LowByte(b1, b2 + 256 * b3);
    LowByte(b2, b3);
  }

  /** A word is its bytes, lowest first. */
  lemma BytesAre(w: Word)
    ensures w == ByteAt(w, 0) + 0x100 * ByteAt(w, 1) + 0x1_0000 * ByteAt(w, 2) + 0x100_0000 * ByteAt(w, 3)
  {
  }

  /** Byte k of the swapped word is byte 3 - k of the word. */
  lemma BswapBytes(w: Word, k: nat)
    requires k < 4
    ensures ByteAt(Bswap(w), k) == ByteAt(w, 3 - k)
  {
    BytesOf(ByteAt(w, 3), ByteAt(w, 2), ByteAt(w, 1), ByteAt(w, 0));
  }

  lemma BswapOfBytes(b0: Byte, b1: Byte, b2: Byte, b3: Byte)
    ensures Bswap(FromBytes(b0, b1, b2, b3)) == FromBytes(b3, b2, b1, b0)
  {
    BytesOf(b0, b1, b2, b3);
  }

  lemma BswapInvolution(w: Word)
    ensures Bswap(Bswap(w)) == w
  {
    BytesOf(ByteAt(w, 3), ByteAt(w, 2), ByteAt(w, 1), ByteAt(w, 0));
  }

  function Swapped(ws: seq<Word>): (r: seq<Word>)
    ensures |r| == |ws|
  {
    seq(|ws|, i requires 0 <= i < |ws| => Bswap(ws[i]))
  }

  lemma SwappedTwice(ws: seq<Word>)
    ensures Swapped(Swapped(ws)) == ws
  {
    forall i | 0 <= i < |ws| ensures Swapped(Swapped(ws))[i] == ws[i] {
      BswapInvolution(ws[i]);
    }
  }

  /** The C expression `*(uint32_t *)(data+i*4)` on a little-endian processor. */
  function WordAt(bytes: seq<Byte>, i: nat): Word
    requires 4 * i + 4 <= |bytes|
  {
    FromBytes(bytes[4 * i], bytes[4 * i + 1], bytes[4 * i + 2], bytes[4 * i + 3])
  }

  /** The little-endian words of a byte buffer. */
  function Words(bytes: seq<Byte>): (ws: seq<Word>)
    requires |bytes| % 4 == 0
    ensures |ws| == |bytes| / 4
  {
    seq(|bytes| / 4, i requires 0 <= i < |bytes| / 4 => WordAt(bytes, i))
  }

  /** The memory image of a word array on a little-endian processor. */
  function Image(ws: seq<Word>): (bytes: seq<Byte>)
    ensures |bytes| == 4 * |ws|
  {
    seq(4 * |ws|, i requires 0 <= i < 4 * |ws| => ByteAt(ws[i / 4], i % 4))
  }

  lemma ImageOfWords(bytes: seq<Byte>)
    requires |bytes| % 4 == 0
    ensures Image(Words(bytes)) == bytes
  {
    forall i | 0 <= i < |bytes| ensures Image(Words(bytes))[i] == bytes[i] {
      var q := i / 4;
      BytesOf(bytes[4 * q], bytes[4 * q + 1], bytes[4 * q + 2], bytes[4 * q + 3]);
    }
  }
}

/**
 * The bit and byte codecs of the circuit tests (circom/tests/utils.ts):
 * big-endian bits per byte, little-endian packing of bytes into 32-bit words,
 * and the most-significant-bit-first expansion of a number into a fixed count
 * of bits. The loops of the source are methods; each is proved against a
 * specification function, and the round trips are lemmas about those functions.
 */
module BitCodec {

  type Byte = x: int | 0 <= x < 0x100
  type Bit = x: int | 0 <= x < 2
  type Word = x: int | 0 <= x < 0x1_0000_0000

  function Pow2(n: nat): (r: nat)
    ensures r >= 1
  {
    if n == 0 then 1 else 2 * Pow2(n - 1)
  }

  /** Bit k of v, that is `(v >> k) & 1` for a non-negative v. */
  function BitAt(v: nat, k: nat): Bit
  {
    if k == 0 then v % 2 else BitAt(v / 2, k - 1)
  }

  /** The value of a bit sequence read most significant bit first. */
  function FromBitsMsb(bits: seq<Bit>): nat
  {
    if bits == [] then 0 else 2 * FromBitsMsb(bits[..|bits| - 1]) + bits[|bits| - 1]
  }

  /** Concatenation of rows, as JavaScript's one-level `flat()`. */
  function Flatten<T>(rows: seq<seq<T>>): seq<T>
  {
    if rows == [] then [] else rows[0] + Flatten(rows[1..])
  }

  // ---------------------------------------------------------------------------
  // Specification functions

  /** The eight bits uint8ArrayToBitsBE pushes for one byte: `(b >> 7-j) & 1` for j = 0..7. */
  function ByteBitsBE(b: Byte): seq<Bit>
  {
    seq(8, j requires 0 <= j < 8 => BitAt(b, 7 - j))
  }

  function ByteRows(bytes: seq<Byte>): seq<seq<Bit>>
  {
    seq(|bytes|, i requires 0 <= i < |bytes| => ByteBitsBE(bytes[i]))
  }

  /** Big-endian bit expansion of a byte sequence, eight bits per byte. */
  function BitsBE(bytes: seq<Byte>): seq<Bit>
  {
    Flatten(ByteRows(bytes))
  }

  /** The byte whose eight bits, most significant first, are `bits`. */
  function ByteOfBits(bits: seq<Bit>): Byte
    requires |bits| == 8
  {
    FromBitsMsbBound(bits);
    FromBitsMsb(bits)
  }

  /** Inverse of BitsBE: each group of eight bits, most significant first, is one byte. */
  function BytesFromBitsBE(bits: seq<Bit>): seq<Byte>
  {
    seq(|bits| / 8, i requires 0 <= i < |bits| / 8 => ByteOfBits(bits[8 * i..8 * i + 8]))
  }

  /** The 32-bit word getUint32(p, true) reads: b0 + 2^8 b1 + 2^16 b2 + 2^24 b3. */
  function WordLE(b0: Byte, b1: Byte, b2: Byte, b3: Byte): Word
  {
    b0 + 0x100 * b1 + 0x1_0000 * b2 + 0x100_0000 * b3
  }

  /** Little-endian packing of bytes into words; trailing bytes that fill no word are dropped. */
  function PackLE(bytes: seq<Byte>): seq<Word>
  {
    seq(|bytes| / 4, i requires 0 <= i < |bytes| / 4 =>
      WordLE(bytes[4 * i], bytes[4 * i + 1], bytes[4 * i + 2], bytes[4 * i + 3]))
  }

  /** The four bytes of a word, least significant first. */
  function WordBytesLE(w: Word): seq<Byte>
  {
    var q1 := w / 0x100;
    var q2 := q1 / 0x100;
    var q3 := q2 / 0x100;
    [w % 0x100, q1 % 0x100, q2 % 0x100, q3]
  }

  function WordByteRows(words: seq<Word>): seq<seq<Byte>>
  {
    seq(|words|, i requires 0 <= i < |words| => WordBytesLE(words[i]))
  }

  /** Inverse of PackLE: every word written out little-endian. */
  function UnpackLE(words: seq<Word>): seq<Byte>
  {
    Flatten(WordByteRows(words))
  }

  /**
   * The bits numToBitsNumerical(num, n) produces: for the weights 2^(n-1) down
   * to 1, a 1 when the residual reaches the weight (which is then subtracted),
   * otherwise a 0. Defined for every integer, in range or not.
   */
  function GreedyBits(num: int, n: nat): (bits: seq<Bit>)
    ensures |bits| == n
  {
    if n == 0 then []
    else if num >= Pow2(n - 1) then [1] + GreedyBits(num - Pow2(n - 1), n - 1)
    else [0] + GreedyBits(num, n - 1)
  }

  /** The rows uintArray32ToBits produces: one 32-bit row per word, in word order. */
  function WordRows(words: seq<int>): seq<seq<Bit>>
  {
    seq(|words|, i requires 0 <= i < |words| => GreedyBits(words[i], 32))
  }

  /** Reads every row most significant bit first. */
  function RowValues(rows: seq<seq<Bit>>): seq<int>
  {
    seq(|rows|, i requires 0 <= i < |rows| => FromBitsMsb(rows[i]))
  }

  /** The word whose 32 bits, most significant first, are `bits`. */
  function WordOfBits(bits: seq<Bit>): Word
    requires |bits| == 32
  {
    FromBitsMsbBound(bits);
    assert Pow2(32) == 0x1_0000_0000 by { Pow2Value32(); }
    FromBitsMsb(bits)
  }

  /** Inverse of Flatten(WordRows(_)): each group of 32 bits, most significant first, is one word. */
  function WordsFromBits(bits: seq<Bit>): seq<Word>
  {
    seq(|bits| / 32, i requires 0 <= i < |bits| / 32 => WordOfBits(bits[32 * i..32 * i + 32]))
  }

  // ---------------------------------------------------------------------------
  // Lemmas about the bit value of a sequence

  lemma Pow2Value32()
    ensures Pow2(8) == 0x100 && Pow2(32) == 0x1_0000_0000
  {
    assert Pow2(4) == 16;
    assert Pow2(8) == 0x100;
    assert Pow2(16) == 0x1_0000 by { Pow2Add(8, 8); }
    assert Pow2(32) == 0x1_0000_0000 by { Pow2Add(16, 16); }
  }

  lemma {:induction false} Pow2Add(a: nat, b: nat)
    ensures Pow2(a + b) == Pow2(a) * Pow2(b)
  {
    if b > 0 {
      Pow2Add(a, b - 1);
    }
  }

  lemma {:induction false} FromBitsMsbBound(bits: seq<Bit>)
    ensures FromBitsMsb(bits) < Pow2(|bits|)
  {
    if bits != [] {
      FromBitsMsbBound(bits[..|bits| - 1]);
    }
  }

  /** Reading the first bit separately: it carries the weight 2^(number of bits after it). */
  lemma {:induction false} FromBitsMsbCons(b: Bit, rest: seq<Bit>)
    ensures FromBitsMsb([b] + rest) == b * Pow2(|rest|) + FromBitsMsb(rest)
  {
    var s := [b] + rest;
    if rest == [] {
      assert s[..|s| - 1] == [];
    } else {
      var init := rest[..|rest| - 1];
      assert s[..|s| - 1] == [b] + init;
      FromBitsMsbCons(b, init);
    }
  }

  /** Bit |bits|-1-j of the value of `bits` is bits[j]: the reading is MSB first. */
  lemma {:induction false} BitAtFromBitsMsb(bits: seq<Bit>, j: nat)
    requires j < |bits|
    ensures BitAt(FromBitsMsb(bits), |bits| - 1 - j) == bits[j]
  {
    var init := bits[..|bits| - 1];
    var v := FromBitsMsb(bits);
    assert v == 2 * FromBitsMsb(init) + bits[|bits| - 1];
    if j < |bits| - 1 {
      BitAtFromBitsMsb(init, j);
      assert v / 2 == FromBitsMsb(init);
    }
  }

  lemma FromBitsMsbInjective(a: seq<Bit>, b: seq<Bit>)
    requires |a| == |b| && FromBitsMsb(a) == FromBitsMsb(b)
    ensures a == b
  {
    forall j | 0 <= j < |a|
      ensures a[j] == b[j]
    {
      BitAtFromBitsMsb(a, j);
      BitAtFromBitsMsb(b, j);
    }
  }

  /** For 0 <= num < 2^n the greedy expansion reads back, MSB first, as num. */
  lemma {:induction false} GreedyBitsValue(num: int, n: nat)
    requires 0 <= num < Pow2(n)
    ensures |GreedyBits(num, n)| == n
    ensures FromBitsMsb(GreedyBits(num, n)) == num
  {
    if n > 0 && num >= Pow2(n - 1) {
      GreedyBitsValue(num - Pow2(n - 1), n - 1);
      FromBitsMsbCons(1, GreedyBits(num - Pow2(n - 1), n - 1));
    } else if n > 0 {
      GreedyBitsValue(num, n - 1);
      FromBitsMsbCons(0, GreedyBits(num, n - 1));
    }
  }

  /** For 0 <= num < 2^n, entry j of the greedy expansion is bit n-1-j of num. */
  lemma GreedyBitsAt(num: int, n: nat, j: nat)
    requires 0 <= num < Pow2(n) && j < n
    ensures |GreedyBits(num, n)| == n
    ensures GreedyBits(num, n)[j] == BitAt(num, n - 1 - j)
  {
    GreedyBitsValue(num, n);
    BitAtFromBitsMsb(GreedyBits(num, n), j);
  }

  /** For an in-range num, the greedy digits are num's binary digits, most significant first. */
  lemma GreedyBitsDigits(num: int, n: nat)
    requires 0 <= num < Pow2(n)
    ensures FromBitsMsb(GreedyBits(num, n)) == num
    ensures forall j :: 0 <= j < n ==> GreedyBits(num, n)[j] == BitAt(num, n - 1 - j)
  {
    GreedyBitsValue(num, n);
    forall j | 0 <= j < n
      ensures GreedyBits(num, n)[j] == BitAt(num, n - 1 - j)
    {
      GreedyBitsAt(num, n, j);
    }
  }

  lemma GreedyBitsOfValue(bits: seq<Bit>)
    ensures GreedyBits(FromBitsMsb(bits), |bits|) == bits
  {
    FromBitsMsbBound(bits);
    GreedyBitsValue(FromBitsMsb(bits), |bits|);
    FromBitsMsbInjective(GreedyBits(FromBitsMsb(bits), |bits|), bits);
  }

  // ---------------------------------------------------------------------------
  // Lemmas about flattening rows of equal width

  lemma {:induction false} FlattenSnoc<T>(rows: seq<seq<T>>, r: seq<T>)
    ensures Flatten(rows + [r]) == Flatten(rows) + r
  {
    if rows == [] {
      assert [] + [r] == [r];
      assert [r][1..] == [];
    } else {
      assert (rows + [r])[1..] == rows[1..] + [r];
      FlattenSnoc(rows[1..], r);
    }
  }

  /** Entry c of row r sits at w * r + c of the flattened rows. */
  lemma {:induction false} FlattenRowAt<T>(rows: seq<seq<T>>, w: nat, r: nat, c: nat)
    requires forall i :: 0 <= i < |rows| ==> |rows[i]| == w
    requires r < |rows| && c < w
    ensures w * r + c < |Flatten(rows)| && Flatten(rows)[w * r + c] == rows[r][c]
  {
    if r > 0 {
      assert forall i :: 0 <= i < |rows[1..]| ==> |rows[1..][i]| == w by {
        forall i | 0 <= i < |rows[1..]| ensures |rows[1..][i]| == w {
          assert rows[1..][i] == rows[i + 1];
        }
      }
      FlattenRowAt(rows[1..], w, r - 1, c);
      MulSucc(w, r - 1);
      assert rows[1..][r - 1] == rows[r];
    }
  }

  lemma MulSucc(w: nat, n: nat)
    ensures w * (n + 1) == w * n + w
  {
  }

  lemma {:induction false} FlattenLength<T>(rows: seq<seq<T>>, w: nat)
    requires forall i :: 0 <= i < |rows| ==> |rows[i]| == w
    ensures |Flatten(rows)| == w * |rows|
  {
    if rows != [] {
      FlattenLength(rows[1..], w);
      assert w * |rows| == w + w * (|rows| - 1);
    }
  }

  lemma DivModUnique(k: int, w: nat, q: int, r: int)
    requires 0 < w && 0 <= r < w && k == w * q + r
    ensures k / w == q && k % w == r
  {
    var q', r' := k / w, k % w;
    assert k == w * q' + r';
    if q' > q {
      MulAtLeast(w, q' - q);
    } else if q' < q {
      MulAtLeast(w, q - q');
    }
  }

  lemma {:induction false} MulAtLeast(w: nat, d: int)
    requires d >= 1
    ensures w * d >= w
  {
    if d > 1 {
      MulAtLeast(w, d - 1);
      assert w * d == w * (d - 1) + w;
    }
  }

  // ---------------------------------------------------------------------------
  // Big-endian bits per byte

  lemma ByteRowsWidth(bytes: seq<Byte>)
    ensures forall i :: 0 <= i < |ByteRows(bytes)| ==> |ByteRows(bytes)[i]| == 8
  {
  }

  /** uint8ArrayToBitsBE yields 8 entries per byte, and entry 8i+j is bit 7-j of byte i. */
  lemma BitsBEAt(bytes: seq<Byte>, k: nat)
    requires k < 8 * |bytes|
    ensures |BitsBE(bytes)| == 8 * |bytes|
    ensures BitsBE(bytes)[k] == BitAt(bytes[k / 8], 7 - k % 8)
  {
    FlattenLength(ByteRows(bytes), 8);
    FlattenRowAt(ByteRows(bytes), 8, k / 8, k % 8);
  }

  lemma BitsBELength(bytes: seq<Byte>)
    ensures |BitsBE(bytes)| == 8 * |bytes|
  {
    FlattenLength(ByteRows(bytes), 8);
  }

  lemma BitsBESnoc(bytes: seq<Byte>, b: Byte)
    ensures BitsBE(bytes + [b]) == BitsBE(bytes) + ByteBitsBE(b)
  {
    assert ByteRows(bytes + [b]) == ByteRows(bytes) + [ByteBitsBE(b)];
    FlattenSnoc(ByteRows(bytes), ByteBitsBE(b));
  }

  /** The eight bits of each byte recombine, MSB first, to the byte. */
  lemma ByteBitsBEValue(b: Byte)
    ensures ByteOfBits(ByteBitsBE(b)) == b
  {
    Pow2Value32();
    GreedyBitsValue(b, 8);
    forall j | 0 <= j < 8
      ensures ByteBitsBE(b)[j] == GreedyBits(b, 8)[j]
    {
      GreedyBitsAt(b, 8, j);
    }
    assert ByteBitsBE(b) == GreedyBits(b, 8);
  }

  /** Decoding the big-endian bits of a byte sequence gives the bytes back. */
  lemma BitsBERoundTrip(bytes: seq<Byte>)
    ensures BytesFromBitsBE(BitsBE(bytes)) == bytes
  {
    var bits := BitsBE(bytes);
    BitsBELength(bytes);
    forall i | 0 <= i < |bytes|
      ensures bits[8 * i..8 * i + 8] == ByteBitsBE(bytes[i])
    {
      forall j | 0 <= j < 8
        ensures bits[8 * i + j] == ByteBitsBE(bytes[i])[j]
      {
        BitsBEAt(bytes, 8 * i + j);
        DivModUnique(8 * i + j, 8, i, j);
      }
    }
    forall i | 0 <= i < |bytes|
      ensures BytesFromBitsBE(bits)[i] == bytes[i]
    {
      ByteBitsBEValue(bytes[i]);
    }
  }

  /** Encoding the bytes decoded from a whole number of bytes' worth of bits gives the bits back. */
  lemma BitsBEOfBytesFromBits(bits: seq<Bit>)
    requires |bits| % 8 == 0
    ensures BitsBE(BytesFromBitsBE(bits)) == bits
  {
    var bytes := BytesFromBitsBE(bits);
    BitsBELength(bytes);
    forall k | 0 <= k < |bits|
      ensures BitsBE(bytes)[k] == bits[k]
    {
      var i, j := k / 8, k % 8;
      BitsBEAt(bytes, k);
      var group := bits[8 * i..8 * i + 8];
      BitAtFromBitsMsb(group, j);
    }
  }

  // ---------------------------------------------------------------------------
  // Little-endian words and their MSB-first rows

  lemma WordBytesOfWordLE(b0: Byte, b1: Byte, b2: Byte, b3: Byte)
    ensures WordBytesLE(WordLE(b0, b1, b2, b3)) == [b0, b1, b2, b3]
  {
    var w := WordLE(b0, b1, b2, b3);
    DivModUnique(w, 0x100, b1 + 0x100 * b2 + 0x1_0000 * b3, b0);
    var q1 := w / 0x100;
    DivModUnique(q1, 0x100, b2 + 0x100 * b3, b1);
    var q2 := q1 / 0x100;
    DivModUnique(q2, 0x100, b3, b2);
  }

  lemma WordLEOfWordBytes(w: Word)
    ensures var bs := WordBytesLE(w); WordLE(bs[0], bs[1], bs[2], bs[3]) == w
  {
    var q1 := w / 0x100;
    var q2 := q1 / 0x100;
    var q3 := q2 / 0x100;
    assert w == 0x100 * q1 + w % 0x100;
    assert q1 == 0x100 * q2 + q1 % 0x100;
    assert q2 == 0x100 * q3 + q2 % 0x100;
  }

  lemma UnpackLEAt(words: seq<Word>, k: nat)
    requires k < 4 * |words|
    ensures |UnpackLE(words)| == 4 * |words|
    ensures UnpackLE(words)[k] == WordBytesLE(words[k / 4])[k % 4]
  {
    FlattenLength(WordByteRows(words), 4);
    FlattenRowAt(WordByteRows(words), 4, k / 4, k % 4);
  }

  /** For a length that is a multiple of 4, unpacking the packed words gives the bytes back. */
  lemma PackLERoundTrip(bytes: seq<Byte>)
    requires |bytes| % 4 == 0
    ensures UnpackLE(PackLE(bytes)) == bytes
  {
    var words := PackLE(bytes);
    FlattenLength(WordByteRows(words), 4);
    forall k | 0 <= k < |bytes|
      ensures UnpackLE(words)[k] == bytes[k]
    {
      var i, j := k / 4, k % 4;
      UnpackLEAt(words, k);
      WordBytesOfWordLE(bytes[4 * i], bytes[4 * i + 1], bytes[4 * i + 2], bytes[4 * i + 3]);
    }
  }

  lemma UnpackLERoundTrip(words: seq<Word>)
    ensures PackLE(UnpackLE(words)) == words
  {
    var bytes := UnpackLE(words);
    FlattenLength(WordByteRows(words), 4);
    assert |bytes| / 4 == |words|;
    forall i | 0 <= i < |words|
      ensures PackLE(bytes)[i] == words[i]
    {
      PackLEOfUnpackLEAt(words, i);
    }
  }

  lemma PackLEOfUnpackLEAt(words: seq<Word>, i: nat)
    requires i < |words|
    ensures |UnpackLE(words)| == 4 * |words|
    ensures PackLE(UnpackLE(words))[i] == words[i]
  {
    var bytes := UnpackLE(words);
    FlattenLength(WordByteRows(words), 4);
    assert |bytes| / 4 == |words|;
    var bs := WordBytesLE(words[i]);
    forall j | 0 <= j < 4
      ensures bytes[4 * i + j] == bs[j]
    {
      UnpackLEAt(words, 4 * i + j);
      DivModUnique(4 * i + j, 4, i, j);
    }
    WordLEOfWordBytes(words[i]);
  }

  /** Every row of a word is 32 bits long and reads back, MSB first, as the word. */
  lemma WordRowsValues(words: seq<Word>)
    ensures |WordRows(words)| == |words|
    ensures forall i :: 0 <= i < |words| ==> |WordRows(words)[i]| == 32
    ensures RowValues(WordRows(words)) == words
  {
    Pow2Value32();
    forall i | 0 <= i < |words|
      ensures |WordRows(words)[i]| == 32 && FromBitsMsb(WordRows(words)[i]) == words[i]
    {
      GreedyBitsValue(words[i], 32);
    }
  }

  /**
   * For a length that is a multiple of 4, the rows of uintArray32ToBits(toUint32Array(b))
   * determine b: reading every row MSB first gives the packed words, and writing
   * those little-endian gives b.
   */
  lemma WordRowsRoundTrip(bytes: seq<Byte>)
    requires |bytes| % 4 == 0
    ensures RowValues(WordRows(PackLE(bytes))) == PackLE(bytes)
    ensures UnpackLE(PackLE(bytes)) == bytes
  {
    WordRowsValues(PackLE(bytes));
    PackLERoundTrip(bytes);
  }

  lemma WordBitsAt(words: seq<Word>, k: nat)
    requires k < 32 * |words|
    ensures |Flatten(WordRows(words))| == 32 * |words|
    ensures Flatten(WordRows(words))[k] == GreedyBits(words[k / 32], 32)[k % 32]
  {
    WordRowsValues(words);
    FlattenLength(WordRows(words), 32);
    FlattenRowAt(WordRows(words), 32, k / 32, k % 32);
  }

  /** Reading the flattened rows of words in groups of 32 bits gives the words back. */
  lemma WordBitsRoundTrip(words: seq<Word>)
    ensures WordsFromBits(Flatten(WordRows(words))) == words
  {
    var bits := Flatten(WordRows(words));
    WordRowsValues(words);
    FlattenLength(WordRows(words), 32);
    assert |WordsFromBits(bits)| == |words|;
    forall i | 0 <= i < |words|
      ensures WordsFromBits(bits)[i] == words[i]
    {
      WordBitsGroup(words, i);
      Pow2Value32();
      GreedyBitsValue(words[i], 32);
    }
  }

  /** The i-th group of 32 flattened bits is the row of word i. */
  lemma WordBitsGroup(words: seq<Word>, i: nat)
    requires i < |words|
    ensures 32 * i + 32 <= |Flatten(WordRows(words))|
    ensures Flatten(WordRows(words))[32 * i..32 * i + 32] == GreedyBits(words[i], 32)
  {
    var rows := WordRows(words);
    WordRowsValues(words);
    FlattenLength(rows, 32);
    forall j | 0 <= j < 32
      ensures Flatten(rows)[32 * i + j] == GreedyBits(words[i], 32)[j]
    {
      FlattenRowAt(rows, 32, i, j);
    }
  }


  /** The converse: expanding the words read from whole groups of 32 bits gives the bits back. */
  lemma WordBitsOfWordsFromBits(bits: seq<Bit>)
    requires |bits| % 32 == 0
    ensures Flatten(WordRows(WordsFromBits(bits))) == bits
  {
    var words := WordsFromBits(bits);
    WordRowsValues(words);
    FlattenLength(WordRows(words), 32);
    forall k | 0 <= k < |bits|
      ensures Flatten(WordRows(words))[k] == bits[k]
    {
      WordBitsOfWordsFromBitsAt(bits, k);
    }
  }

  lemma WordBitsOfWordsFromBitsAt(bits: seq<Bit>, k: nat)
    requires |bits| % 32 == 0 && k < |bits|
    ensures |Flatten(WordRows(WordsFromBits(bits)))| == |bits|
    ensures Flatten(WordRows(WordsFromBits(bits)))[k] == bits[k]
  {
    var words := WordsFromBits(bits);
    var i, j := k / 32, k % 32;
    assert k == 32 * i + j;
    assert |words| == |bits| / 32 && i < |words|;
    assert 32 * i + 32 <= |bits|;
    WordBitsAt(words, k);
    var group := bits[32 * i..32 * i + 32];
    GreedyBitsOfValue(group);
    assert words[i] == FromBitsMsb(group);
    assert group[j] == bits[k];
  }

  // ---------------------------------------------------------------------------
  // The loops of circom/tests/utils.ts

  /** uint8ArrayToBitsBE: for every byte, its eight bits from the most significant down. */
  method Uint8ArrayToBitsBE(buff: seq<Byte>) returns (res: seq<Bit>)
    ensures |res| == 8 * |buff|
    ensures forall k :: 0 <= k < |res| ==> res[k] == BitAt(buff[k / 8], 7 - k % 8)
    ensures BytesFromBitsBE(res) == buff
  {
    res := [];
    for i := 0 to |buff|
      invariant res == BitsBE(buff[..i])
    {
      for j := 0 to 8
        invariant res == BitsBE(buff[..i]) + ByteBitsBE(buff[i])[..j]
      {
        if BitAt(buff[i], 7 - j) == 1 {
          res := res + [1];
        } else {
          res := res + [0];
        }
      }
      assert buff[..i + 1] == buff[..i] + [buff[i]];
      BitsBESnoc(buff[..i], buff[i]);
    }
    assert buff[..|buff|] == buff;
    BitsBELength(buff);
    forall k | 0 <= k < |res|
      ensures res[k] == BitAt(buff[k / 8], 7 - k % 8)
    {
      BitsBEAt(buff, k);
    }
    BitsBERoundTrip(buff);
  }

  /**
   * toUint32Array: a fresh array of byteLength/4 words, word i read little-endian
   * from the four bytes at offset 4i of the VIEW (buffer, byteOffset, byteLength),
   * so a subarray decodes from its own first byte.
   */
  method ToUint32Array(buffer: array<Byte>, byteOffset: nat, byteLength: nat) returns (arr: array<Word>)
    requires byteOffset + byteLength <= buffer.Length
    ensures fresh(arr)
    ensures arr.Length == byteLength / 4
    ensures arr[..] == PackLE(buffer[byteOffset..byteOffset + byteLength])
  {
    ghost var view := buffer[byteOffset..byteOffset + byteLength];
    arr := new Word[byteLength / 4];
    var i := 0;
    while i < arr.Length
      invariant 0 <= i <= arr.Length
      invariant forall k :: 0 <= k < i ==> arr[k] == PackLE(view)[k]
    {
      var p := byteOffset + i * 4;
      assert i * 4 + 4 <= byteLength;
      assert view[4 * i] == buffer[p] && view[4 * i + 1] == buffer[p + 1];
      assert view[4 * i + 2] == buffer[p + 2] && view[4 * i + 3] == buffer[p + 3];
      arr[i] := WordLE(buffer[p], buffer[p + 1], buffer[p + 2], buffer[p + 3]);
      i := i + 1;
    }
    assert arr[..] == PackLE(view);
  }

  /**
   * The bits numToBitsNumerical ends with when it has produced `bits`, the
   * residual is `rest` and m weights (2^(m-1) down to 1) are still to come.
   */
  function GreedyLoop(bits: seq<Bit>, rest: int, m: nat): seq<Bit>
    decreases m
  {
    if m == 0 then bits
    else
      var bit: Bit := if rest >= Pow2(m - 1) then 1 else 0;
      GreedyLoop(bits + [bit], rest - bit * Pow2(m - 1), m - 1)
  }

  lemma {:induction false} GreedyLoopBits(bits: seq<Bit>, rest: int, m: nat)
    ensures GreedyLoop(bits, rest, m) == bits + GreedyBits(rest, m)
    decreases m
  {
    if m == 0 {
      assert bits + [] == bits;
    } else {
      var bit: Bit := if rest >= Pow2(m - 1) then 1 else 0;
      assert bit * Pow2(m - 1) == if bit == 1 then Pow2(m - 1) else 0;
      GreedyLoopBits(bits + [bit], rest - bit * Pow2(m - 1), m - 1);
      assert (bits + [bit]) + GreedyBits(rest - bit * Pow2(m - 1), m - 1) == bits + ([bit] + GreedyBits(rest - bit * Pow2(m - 1), m - 1));
    }
  }

  /**
   * numToBitsNumerical: bitCount bits (32 by default), most significant first.
   * The JavaScript weight starts at 2 ** (bitCount - 1), which is 0.5 for
   * bitCount = 0 so that no bit is produced; the integer weight 0 does the same.
   */
  method NumToBitsNumerical(num: int, bitCount: nat := 32) returns (bits: seq<Bit>)
    ensures bits == GreedyBits(num, bitCount)
    ensures |bits| == bitCount
    ensures 0 <= num < Pow2(bitCount) ==>
      FromBitsMsb(bits) == num && forall j :: 0 <= j < bitCount ==> bits[j] == BitAt(num, bitCount - 1 - j)
  {
    bits := [];
    var i := if bitCount == 0 then 0 else Pow2(bitCount - 1);
    var rest := num;
    ghost var m: nat := bitCount;
    while i >= 1
      invariant i == if m == 0 then 0 else Pow2(m - 1)
      invariant GreedyLoop(bits, rest, m) == GreedyLoop([], num, bitCount)
      decreases i
    {
      var bit: Bit := if rest >= i then 1 else 0;
      bits := bits + [bit];
      rest := rest - bit * i;
      i := i / 2;
      m := m - 1;
    }
    GreedyLoopBits([], num, bitCount);
    assert [] + GreedyBits(num, bitCount) == GreedyBits(num, bitCount);
    if 0 <= num < Pow2(bitCount) {
      GreedyBitsDigits(num, bitCount);
    }
  }

  /** uintArray32ToBits: one 32-bit MSB-first row per word, in word order. */
  method UintArray32ToBits(uintArray: seq<int>) returns (bits: seq<seq<Bit>>)
    ensures bits == WordRows(uintArray)
    ensures |bits| == |uintArray|
    ensures forall i :: 0 <= i < |bits| ==> |bits[i]| == 32
    ensures forall i :: 0 <= i < |bits| && 0 <= uintArray[i] < 0x1_0000_0000 ==>
      FromBitsMsb(bits[i]) == uintArray[i]
  {
    bits := [];
    for i := 0 to |uintArray|
      invariant bits == WordRows(uintArray[..i])
    {
      var uint := uintArray[i];
      var row := NumToBitsNumerical(uint);
      bits := bits + [row];
    }
    assert uintArray[..|uintArray|] == uintArray;
    Pow2Value32();
    forall i | 0 <= i < |bits| && 0 <= uintArray[i] < 0x1_0000_0000
      ensures FromBitsMsb(bits[i]) == uintArray[i]
    {
      GreedyBitsValue(uintArray[i], 32);
    }
  }
}

/** Bit fields stored in bytes, most significant bit first, as in `src/bitfield.h`, and the
    bitmaps they stand for. */
module Bits {
  import opened Sequences

  type Byte = bv8

  /** `128 >> k`. */
  function Mask(k: nat): Byte
    requires k < 8
  {
    if k == 0 then 0x80 else if k == 1 then 0x40 else if k == 2 then 0x20 else if k == 3 then 0x10
    else if k == 4 then 0x08 else if k == 5 then 0x04 else if k == 6 then 0x02 else 0x01
  }

  predicate TestByte(x: Byte, k: nat)
    requires k < 8
  {
    x & Mask(k) != 0
  }

  /** The mask of the bits of the last byte that belong to a field of `nbits` bits. */
  function LastByteMask(nbits: nat): Byte {
    if nbits == 0 then 0
    else
      var s := nbits % 8;
      if s == 0 then 0xff else if s == 1 then 0x80 else if s == 2 then 0xc0 else if s == 3 then 0xe0
      else if s == 4 then 0xf0 else if s == 5 then 0xf8 else if s == 6 then 0xfc else 0xfe
  }

  lemma OrBit(x: Byte, y: Byte, k: nat)
    requires k < 8
    ensures TestByte(x | y, k) == (TestByte(x, k) || TestByte(y, k))
  {
  }

  lemma AndBit(x: Byte, y: Byte, k: nat)
    requires k < 8
    ensures TestByte(x & y, k) == (TestByte(x, k) && TestByte(y, k))
  {
  }

  lemma NotBit(x: Byte, k: nat)
    requires k < 8
    ensures TestByte(!x, k) == !TestByte(x, k)
  {
  }

  lemma MaskBit(j: nat, k: nat)
    requires j < 8 && k < 8
    ensures TestByte(Mask(j), k) == (j == k)
  {
  }

  /** The bits of a byte are counted from the highest one down. */
  lemma HighestBitFirst(x: Byte, k: nat)
    requires k < 8
    ensures TestByte(x, 0) == (x >= 0x80)
    ensures k < 7 ==> TestByte(x, k + 1) == TestByte(x << 1, k)
  {
  }

  lemma LastByteMaskBit(nbits: nat, k: nat)
    requires nbits > 0 && k < 8
    ensures TestByte(LastByteMask(nbits), k) == (k < if nbits % 8 == 0 then 8 else nbits % 8)
  {
  }

  /** Bytes are equal when their bits are. */
  lemma ByteExt(x: Byte, y: Byte)
    requires forall k :: 0 <= k < 8 ==> TestByte(x, k) == TestByte(y, k)
    ensures x == y
  {
    assert TestByte(x, 0) == TestByte(y, 0) && TestByte(x, 1) == TestByte(y, 1);
    assert TestByte(x, 2) == TestByte(y, 2) && TestByte(x, 3) == TestByte(y, 3);
    assert TestByte(x, 4) == TestByte(y, 4) && TestByte(x, 5) == TestByte(y, 5);
    assert TestByte(x, 6) == TestByte(y, 6) && TestByte(x, 7) == TestByte(y, 7);
  }

  function Bit(x: Byte, k: nat): nat
    requires k < 8
  {
    if TestByte(x, k) then 1 else 0
  }

  /** The number of bits set among the first `s` of a byte. */
  function BitsBelow(x: Byte, s: nat): nat
    requires s <= 8
  {
    if s == 0 then 0 else BitsBelow(x, s - 1) + Bit(x, s - 1)
  }

  /** The entry of the table `cntbits`. */
  function CntBits(x: Byte): nat {
    BitsBelow(x, 8)
  }

  // ---------- fields of many bytes ----------

  predicate Test(bytes: seq<Byte>, index: nat)
    requires index < 8 * |bytes|
  {
    TestByte(bytes[index / 8], index % 8)
  }

  /** The bitmap a field of `nbits` bits stands for. */
  function View(bytes: seq<Byte>, nbits: nat): (v: Bitmap)
    requires nbits <= 8 * |bytes|
    ensures |v| == nbits
    ensures forall i :: 0 <= i < nbits ==> v[i] == Test(bytes, i)
  {
    seq(nbits, i requires 0 <= i < nbits => Test(bytes, i))
  }

  /** The number of bits set among the first `k`. */
  function Count(v: Bitmap, k: nat): (n: nat)
    requires k <= |v|
    ensures n <= k
  {
    if k == 0 then 0 else Count(v, k - 1) + if v[k - 1] then 1 else 0
  }

  lemma {:induction false} CountSame(v: Bitmap, w: Bitmap, k: nat)
    requires k <= |v| && k <= |w| && forall i :: 0 <= i < k ==> v[i] == w[i]
    ensures Count(v, k) == Count(w, k)
  {
    if k > 0 {
      CountSame(v, w, k - 1);
    }
  }

  /** None is set exactly when the count is zero, all are when it is full. */
  lemma {:induction false} CountExtremes(v: Bitmap, k: nat)
    requires k <= |v|
    ensures Count(v, k) == 0 <==> forall i :: 0 <= i < k ==> !v[i]
    ensures Count(v, k) == k <==> forall i :: 0 <= i < k ==> v[i]
  {
    if k > 0 {
      CountExtremes(v, k - 1);
    }
  }

  function And(v: Bitmap, w: Bitmap): (r: Bitmap)
    requires |v| == |w|
    ensures |r| == |v| && forall i :: 0 <= i < |v| ==> r[i] == (v[i] && w[i])
  {
    seq(|v|, i requires 0 <= i < |v| => v[i] && w[i])
  }

  function Not(v: Bitmap): (r: Bitmap)
    ensures |r| == |v| && forall i :: 0 <= i < |v| ==> r[i] == !v[i]
  {
    seq(|v|, i requires 0 <= i < |v| => !v[i])
  }

  /** Splitting a count by a second bitmap. */
  lemma {:induction false} CountSplit(v: Bitmap, w: Bitmap, k: nat)
    requires |v| == |w| && k <= |v|
    ensures Count(v, k) == Count(And(v, w), k) + Count(And(v, Not(w)), k)
  {
    if k > 0 {
      CountSplit(v, w, k - 1);
    }
  }

  /** The bits of byte `i`, of which the first `s` belong to the field. */
  lemma CountByte(v: Bitmap, i: nat, s: nat, x: Byte)
    requires s <= 8 && 8 * i + s <= |v|
    requires forall k :: 0 <= k < s ==> v[8 * i + k] == TestByte(x, k)
    requires forall k :: s <= k < 8 ==> !TestByte(x, k)
    ensures Count(v, 8 * i + s) == Count(v, 8 * i) + CntBits(x)
  {
    CountBits(v, i, s, x);
    CountNoMore(x, s);
  }

  lemma {:induction false} CountBits(v: Bitmap, i: nat, s: nat, x: Byte)
    requires s <= 8 && 8 * i + s <= |v|
    requires forall k :: 0 <= k < s ==> v[8 * i + k] == TestByte(x, k)
    ensures Count(v, 8 * i + s) == Count(v, 8 * i) + BitsBelow(x, s)
  {
    if s > 0 {
      CountBits(v, i, s - 1, x);
      assert v[8 * i + (s - 1)] == TestByte(x, s - 1);
    }
  }

  lemma {:induction false} CountNoMore(x: Byte, s: nat)
    requires s <= 8 && forall k :: s <= k < 8 ==> !TestByte(x, k)
    ensures BitsBelow(x, s) == CntBits(x)
    decreases 8 - s
  {
    if s < 8 {
      CountNoMore(x, s + 1);
    }
  }

  lemma TestAt(bytes: seq<Byte>, i: nat, k: nat)
    requires i < |bytes| && k < 8
    ensures Test(bytes, 8 * i + k) == TestByte(bytes[i], k)
  {
    assert (8 * i + k) / 8 == i && (8 * i + k) % 8 == k;
  }

  /** The bitmap `v` shows the bits of `bytes`, byte by byte. */
  ghost predicate Shows(v: Bitmap, bytes: seq<Byte>) {
    && |v| <= 8 * |bytes|
    && forall i: nat, k: nat :: i < |bytes| && k < 8 && 8 * i + k < |v| ==> v[8 * i + k] == TestByte(bytes[i], k)
  }

  lemma ViewShows(bytes: seq<Byte>, nbits: nat)
    requires nbits <= 8 * |bytes|
    ensures Shows(View(bytes, nbits), bytes)
  {
    forall i: nat, k: nat | i < |bytes| && k < 8 && 8 * i + k < nbits
      ensures View(bytes, nbits)[8 * i + k] == TestByte(bytes[i], k)
    {
      TestAt(bytes, i, k);
    }
  }

  lemma WholeByte(v: Bitmap, bytes: seq<Byte>, i: nat)
    requires Shows(v, bytes) && 8 * i + 8 <= |v|
    ensures Count(v, 8 * i + 8) == Count(v, 8 * i) + CntBits(bytes[i])
  {
    CountByte(v, i, 8, bytes[i]);
  }

  lemma MaskedBit(x: Byte, nbits: nat, k: nat)
    requires nbits > 0 && k < 8
    ensures TestByte(x & LastByteMask(nbits), k) == (k < (if nbits % 8 == 0 then 8 else nbits % 8) && TestByte(x, k))
  {
    AndBit(x, LastByteMask(nbits), k);
    LastByteMaskBit(nbits, k);
  }

  lemma MaskedBits(y: Byte, nbits: nat, s: nat) returns (x: Byte)
    requires nbits > 0 && s == if nbits % 8 == 0 then 8 else nbits % 8
    ensures x == y & LastByteMask(nbits)
    ensures forall k: nat :: k < 8 ==> TestByte(x, k) == (k < s && TestByte(y, k))
  {
    x := y & LastByteMask(nbits);
    forall k: nat | k < 8
      ensures TestByte(x, k) == (k < s && TestByte(y, k))
    {
      MaskedBit(y, nbits, k);
    }
  }

  /** The last byte, masked to the bits of the field. */
  lemma LastByte(v: Bitmap, bytes: seq<Byte>, i: nat)
    requires Shows(v, bytes) && 8 * i < |v| <= 8 * i + 8
    ensures Count(v, |v|) == Count(v, 8 * i) + CntBits(bytes[i] & LastByteMask(|v|))
  {
    var s := |v| - 8 * i;
    var x := MaskedBits(bytes[i], |v|, s);
    MaskedCount(v, bytes[i], i, s, x);
  }

  lemma MaskedCount(v: Bitmap, y: Byte, i: nat, s: nat, x: Byte)
    requires s <= 8 && 8 * i + s == |v|
    requires forall k: nat :: k < s ==> v[8 * i + k] == TestByte(y, k)
    requires forall k: nat :: k < 8 ==> TestByte(x, k) == (k < s && TestByte(y, k))
    ensures Count(v, |v|) == Count(v, 8 * i) + CntBits(x)
  {
    CountByte(v, i, s, x);
  }

  /** The table entries of the first `k` bytes, added up. */
  function ByteSum(bytes: seq<Byte>, k: nat): nat
    requires k <= |bytes|
  {
    if k == 0 then 0 else ByteSum(bytes, k - 1) + CntBits(bytes[k - 1])
  }

  lemma {:induction false} WholeBytes(v: Bitmap, bytes: seq<Byte>, k: nat)
    requires Shows(v, bytes) && 8 * k <= |v|
    ensures Count(v, 8 * k) == ByteSum(bytes, k)
  {
    if k > 0 {
      WholeBytes(v, bytes, k - 1);
      WholeByte(v, bytes, k - 1);
    }
  }

  /** The count of a field: its whole bytes and its masked last one. */
  lemma CountByBytes(bytes: seq<Byte>, nbits: nat, i: nat)
    requires 8 * i < nbits <= 8 * i + 8 && nbits <= 8 * |bytes|
    ensures Count(View(bytes, nbits), nbits) == ByteSum(bytes, i) + CntBits(bytes[i] & LastByteMask(nbits))
  {
    ViewShows(bytes, nbits);
    WholeBytes(View(bytes, nbits), bytes, i);
    LastByte(View(bytes, nbits), bytes, i);
  }

  lemma CountWhole(bytes: seq<Byte>, k: nat)
    requires k <= |bytes|
    ensures Count(View(bytes, 8 * k), 8 * k) == ByteSum(bytes, k)
  {
    ViewShows(bytes, 8 * k);
    WholeBytes(View(bytes, 8 * k), bytes, k);
  }

  lemma LastByteIndex(nbits: nat, n: nat)
    requires nbits > 0 && n == (nbits + 7) / 8
    ensures 0 <= 8 * (n - 1) < nbits <= 8 * n && (nbits % 32 == 0 ==> nbits == 8 * n)
  {
  }

  /** `countSetBitSlow`: one table look-up a byte. */
  method CountSetBitSlow(bytes: seq<Byte>, nbits: nat) returns (count: nat)
    requires |bytes| == (nbits + 7) / 8
    ensures count == Count(View(bytes, nbits), nbits)
  {
    if nbits == 0 {
      return 0;
    }
    count := 0;
    var to := (nbits + 7) / 8;
    if to > 1 {
      for i := 0 to to - 1
        invariant count == ByteSum(bytes, i)
      {
        count := count + CntBits(bytes[i]);
      }
    }
    count := count + CntBits(bytes[to - 1] & LastByteMask(nbits));
    LastByteIndex(nbits, to);
    CountByBytes(bytes, nbits, to - 1);
  }

  /** `countSetBit`: the fast form reads 32-bit words; the bytes that fill no word, and the
      masked last byte, are counted on their own. */
  method CountSetBit(bytes: seq<Byte>, nbits: nat) returns (count: nat)
    requires |bytes| == (nbits + 7) / 8
    ensures count == Count(View(bytes, nbits), nbits)
  {
    if nbits == 0 {
      return 0;
    }
    var len := (nbits + 7) / 8;
    LastByteIndex(nbits, len);
    if nbits % 32 != 0 {
      len := len - 1;
      CountByBytes(bytes, nbits, len);
      var rest := CountWords(bytes, len);
      count := CntBits(bytes[len] & LastByteMask(nbits)) + rest;
    } else {
      CountWhole(bytes, len);
      count := CountWords(bytes, len);
    }
  }

  /** The whole bytes of `countSetBit`. */
  method CountWords(bytes: seq<Byte>, len: nat) returns (count: nat)
    requires len <= |bytes|
    ensures count == ByteSum(bytes, len)
  {
    count := 0;
    var to := len / 4;
    for i := 0 to to
      invariant count == ByteSum(bytes, 4 * i)
    {
      WordSum(bytes, 4 * i);
      count := count + CountBit32(bytes[4 * i..4 * i + 4]);
    }
    for i := len - len % 4 to len
      invariant count == ByteSum(bytes, i)
    {
      count := count + CntBits(bytes[i]);
    }
  }

  /** The four table look-ups of `countBit32`, in whatever order the word was loaded. */
  function CountBit32(word: seq<Byte>): nat
    requires |word| == 4
  {
    CntBits(word[0]) + CntBits(word[1]) + CntBits(word[2]) + CntBits(word[3])
  }

  lemma WordSum(bytes: seq<Byte>, i: nat)
    requires i + 4 <= |bytes|
    ensures ByteSum(bytes, i + 4) == ByteSum(bytes, i) + CountBit32(bytes[i..i + 4])
  {
    assert ByteSum(bytes, i + 1) == ByteSum(bytes, i) + CntBits(bytes[i]);
    assert ByteSum(bytes, i + 2) == ByteSum(bytes, i + 1) + CntBits(bytes[i + 1]);
    assert ByteSum(bytes, i + 3) == ByteSum(bytes, i + 2) + CntBits(bytes[i + 2]);
  }

  // ---------- byte-wise operations on whole fields ----------

  function OrBytes(a: seq<Byte>, b: seq<Byte>): (r: seq<Byte>)
    requires |a| == |b|
    ensures |r| == |a| && forall i :: 0 <= i < |a| ==> r[i] == a[i] | b[i]
  {
    seq(|a|, i requires 0 <= i < |a| => a[i] | b[i])
  }

  function AndBytes(a: seq<Byte>, b: seq<Byte>): (r: seq<Byte>)
    requires |a| == |b|
    ensures |r| == |a| && forall i :: 0 <= i < |a| ==> r[i] == a[i] & b[i]
  {
    seq(|a|, i requires 0 <= i < |a| => a[i] & b[i])
  }

  function NotBytes(a: seq<Byte>): (r: seq<Byte>)
    ensures |r| == |a| && forall i :: 0 <= i < |a| ==> r[i] == !a[i]
  {
    seq(|a|, i requires 0 <= i < |a| => !a[i])
  }

  lemma ViewAnd(a: seq<Byte>, b: seq<Byte>, nbits: nat)
    requires |a| == |b| && nbits <= 8 * |a|
    ensures View(AndBytes(a, b), nbits) == And(View(a, nbits), View(b, nbits))
  {
    forall i | 0 <= i < nbits
      ensures Test(AndBytes(a, b), i) == (Test(a, i) && Test(b, i))
    {
      AndBit(a[i / 8], b[i / 8], i % 8);
    }
  }

  lemma ViewOr(a: seq<Byte>, b: seq<Byte>, nbits: nat)
    requires |a| == |b| && nbits <= 8 * |a|
    ensures View(OrBytes(a, b), nbits) == Not(And(Not(View(a, nbits)), Not(View(b, nbits))))
  {
    forall i | 0 <= i < nbits
      ensures Test(OrBytes(a, b), i) == (Test(a, i) || Test(b, i))
    {
      OrBit(a[i / 8], b[i / 8], i % 8);
    }
  }

  lemma ViewNot(a: seq<Byte>, nbits: nat)
    requires nbits <= 8 * |a|
    ensures View(NotBytes(a), nbits) == Not(View(a, nbits))
  {
    forall i | 0 <= i < nbits
      ensures Test(NotBytes(a), i) == !Test(a, i)
    {
      NotBit(a[i / 8], i % 8);
    }
  }

  /** The byte that `setBitInternal` stores. */
  function SetByte(x: Byte, k: nat, on: bool): Byte
    requires k < 8
  {
    if on then x | Mask(k) else x & !Mask(k)
  }

  lemma OrMask(x: Byte, m: Byte, q: Byte)
    ensures m == q && q != 0 ==> (x | m) & q != 0
    ensures m & q == 0 ==> (x | m) & q == x & q
  {
  }

  lemma ClearMask(x: Byte, m: Byte, q: Byte)
    ensures m == q ==> (x & !m) & q == 0
    ensures m & q == 0 ==> (x & !m) & q == x & q
  {
  }

  lemma SetByteHere(x: Byte, k: nat, on: bool)
    requires k < 8
    ensures TestByte(SetByte(x, k, on), k) == on
  {
    MaskBit(k, k);
    if on {
      OrMask(x, Mask(k), Mask(k));
    } else {
      ClearMask(x, Mask(k), Mask(k));
    }
  }

  lemma OrElsewhere(x: Byte, k: nat, j: nat)
    requires k < 8 && j < 8 && j != k
    ensures TestByte(x | Mask(k), j) == TestByte(x, j)
  {
    MaskBit(k, j);
    OrMask(x, Mask(k), Mask(j));
  }

  lemma ClearElsewhere(x: Byte, k: nat, j: nat)
    requires k < 8 && j < 8 && j != k
    ensures TestByte(x & !Mask(k), j) == TestByte(x, j)
  {
    MaskBit(k, j);
    ClearMask(x, Mask(k), Mask(j));
  }

  lemma SetByteElsewhere(x: Byte, k: nat, on: bool, j: nat)
    requires k < 8 && j < 8 && j != k
    ensures TestByte(SetByte(x, k, on), j) == TestByte(x, j)
  {
    if on {
      OrElsewhere(x, k, j);
    } else {
      ClearElsewhere(x, k, j);
    }
  }

  lemma SetByteBit(x: Byte, k: nat, on: bool, j: nat)
    requires k < 8 && j < 8
    ensures TestByte(SetByte(x, k, on), j) == if j == k then on else TestByte(x, j)
  {
    if j == k {
      SetByteHere(x, k, on);
    } else {
      SetByteElsewhere(x, k, on, j);
    }
  }

  /** Storing one byte changes one bit of the bitmap. */
  lemma ViewSet(a: seq<Byte>, nbits: nat, index: nat, on: bool)
    requires index < nbits <= 8 * |a|
    ensures View(a[index / 8 := SetByte(a[index / 8], index % 8, on)], nbits) == View(a, nbits)[index := on]
  {
    var y := SetByte(a[index / 8], index % 8, on);
    forall i | 0 <= i < nbits
      ensures Test(a[index / 8 := y], i) == if i == index then on else Test(a, i)
    {
      if i / 8 == index / 8 {
        SetByteBit(a[index / 8], index % 8, on, i % 8);
      }
    }
  }

  /** The bits behind the field in its last byte are zero. */
  predicate SpareZero(a: seq<Byte>, nbits: nat) {
    forall i :: nbits <= i < 8 * |a| ==> !Test(a, i)
  }

  /** All bytes full and the last one equal to its mask: every bit of the field is set and
      no spare bit is. */
  method TestAllBitSet(a: seq<Byte>, blocks: nat) returns (all: bool)
    requires |a| == (blocks + 7) / 8
    ensures all <==> SpareZero(a, blocks) && forall i :: 0 <= i < blocks ==> Test(a, i)
  {
    if |a| == 0 {
      return true;
    }
    for k := 0 to |a| - 1
      invariant forall i :: 0 <= i < 8 * k ==> Test(a, i)
    {
      if a[k] != 0xff {
        FullByte(a, k);
        return false;
      }
      FullByte(a, k);
    }
    MaskedByte(a, blocks);
    return a[|a| - 1] == LastByteMask(blocks);
  }

  lemma FullByte(a: seq<Byte>, k: nat)
    requires k < |a|
    ensures a[k] == 0xff <==> forall i :: 8 * k <= i < 8 * k + 8 ==> Test(a, i)
  {
    forall j | 0 <= j < 8
      ensures Test(a, 8 * k + j) == TestByte(a[k], j)
    {
      TestAt(a, k, j);
    }
    if forall i :: 8 * k <= i < 8 * k + 8 ==> Test(a, i) {
      forall j | 0 <= j < 8
        ensures TestByte(a[k], j) == TestByte(0xff, j)
      {
        assert Test(a, 8 * k + j);
      }
      ByteExt(a[k], 0xff);
    }
  }

  lemma MaskedByte(a: seq<Byte>, blocks: nat)
    requires |a| == (blocks + 7) / 8 && |a| > 0
    ensures a[|a| - 1] == LastByteMask(blocks)
       <==> forall i :: 8 * (|a| - 1) <= i < 8 * |a| ==> Test(a, i) == (i < blocks)
  {
    var k, m := |a| - 1, LastByteMask(blocks);
    forall j | 0 <= j < 8
      ensures Test(a, 8 * k + j) == TestByte(a[k], j)
      ensures TestByte(m, j) == (8 * k + j < blocks)
    {
      TestAt(a, k, j);
      LastByteMaskBit(blocks, j);
    }
    LastByteExt(a, k, m, blocks);
  }

  lemma LastByteExt(a: seq<Byte>, k: nat, m: Byte, blocks: nat)
    requires k < |a| && forall j :: 0 <= j < 8 ==> Test(a, 8 * k + j) == TestByte(a[k], j)
    requires forall j :: 0 <= j < 8 ==> TestByte(m, j) == (8 * k + j < blocks)
    ensures a[k] == m <==> forall i :: 8 * k <= i < 8 * k + 8 ==> Test(a, i) == (i < blocks)
  {
    if forall i :: 8 * k <= i < 8 * k + 8 ==> Test(a, i) == (i < blocks) {
      forall j | 0 <= j < 8
        ensures TestByte(a[k], j) == TestByte(m, j)
      {
        assert Test(a, 8 * k + j) == (8 * k + j < blocks);
      }
      ByteExt(a[k], m);
    } else {
      var i :| 8 * k <= i < 8 * k + 8 && Test(a, i) != (i < blocks);
      assert Test(a, 8 * k + (i - 8 * k)) == TestByte(a[k], i - 8 * k);
    }
  }
}

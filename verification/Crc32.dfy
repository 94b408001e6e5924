/** The CRC-32 of `src/BtStatisticsManager.cc` (section 8 of RFC 1952) and the bursts of errors
    that it detects. A machine word is the sequence of its bits, the lowest first. */
module Crc32 {
  import opened Integers

  type Word = w: seq<bool> | |w| == 32 witness seq(32, _ => false)

  // ---------- words ----------

  /** The lowest `n` bits of a number. */
  function FromNat(v: nat, n: nat): (w: seq<bool>)
    ensures |w| == n
  {
    if n == 0 then [] else [v % 2 == 1] + FromNat(v / 2, n - 1)
  }

  function ToNat(w: seq<bool>): nat {
    if w == [] then 0 else (if w[0] then 1 else 0) + 2 * ToNat(w[1..])
  }

  function Pow2(n: nat): nat {
    if n == 0 then 1 else 2 * Pow2(n - 1)
  }

  function Xor(a: Word, b: Word): Word {
    seq(32, i requires 0 <= i < 32 => a[i] != b[i])
  }

  function And(a: Word, b: Word): Word {
    seq(32, i requires 0 <= i < 32 => a[i] && b[i])
  }

  function Not(a: Word): Word {
    seq(32, i requires 0 <= i < 32 => !a[i])
  }

  /** `crc >> 1`. */
  function ShiftRight(a: Word): Word {
    seq(32, i requires 0 <= i < 32 => i < 31 && a[i + 1])
  }

  /** `-(crc & 1)`: all bits are the lowest one. */
  function NegatedLowBit(a: Word): Word {
    seq(32, _ => a[0])
  }

  lemma {:induction false} ToNatFromNat(v: nat, n: nat)
    requires v < Pow2(n)
    ensures ToNat(FromNat(v, n)) == v
  {
    if n > 0 {
      ToNatFromNat(v / 2, n - 1);
    }
  }

  lemma {:induction false} ToNatBound(w: seq<bool>)
    ensures ToNat(w) < Pow2(|w|)
  {
    if w != [] {
      ToNatBound(w[1..]);
    }
  }

  lemma {:induction false} ToNatInjective(v: seq<bool>, w: seq<bool>)
    requires |v| == |w| && ToNat(v) == ToNat(w)
    ensures v == w
  {
    if v != [] {
      ToNatInjective(v[1..], w[1..]);
      assert v == [v[0]] + v[1..] && w == [w[0]] + w[1..];
    }
  }

  lemma Pow2Values()
    ensures Pow2(8) == 0x100 && Pow2(31) == 0x8000_0000 && Pow2(32) == 0x1_0000_0000
  {
    assert Pow2(8) == 0x100;
    assert Pow2(16) == 0x1_0000;
    assert Pow2(24) == 0x100_0000;
  }

  lemma {:induction false} HighBits(v: nat, k: nat, n: nat)
    requires v < Pow2(k) && k <= n
    ensures FromNat(v, n)[..k] == FromNat(v, k)
    ensures forall i :: k <= i < n ==> !FromNat(v, n)[i]
  {
    if n > 0 {
      if k == 0 {
        HighBits(v / 2, 0, n - 1);
      } else {
        HighBits(v / 2, k - 1, n - 1);
      }
    }
  }

  // ---------- the checksum ----------

  const POLYNOMIAL: Word := FromNat(0xEDB8_8320, 32)

  const INITIAL: Word := FromNat(0xFFFF_FFFF, 32)

  /** One turn of the inner loop. */
  function Step(crc: Word): Word {
    Xor(ShiftRight(crc), And(POLYNOMIAL, NegatedLowBit(crc)))
  }

  function Steps(crc: Word, n: nat): Word
    decreases n
  {
    if n == 0 then crc else Steps(Step(crc), n - 1)
  }

  /** One turn of the outer loop. */
  function Update(crc: Word, b: uint8): Word {
    Steps(Xor(crc, FromNat(b, 32)), 8)
  }

  function Run(crc: Word, data: seq<uint8>): Word {
    if data == [] then crc else Update(Run(crc, data[..|data| - 1]), data[|data| - 1])
  }

  function Checksum(data: seq<uint8>): (r: uint32)
  {
    var w := Not(Run(INITIAL, data));
    ToNatBound(w);
    Pow2Values();
    ToNat(w)
  }

  method CalculateChecksum(data: seq<uint8>) returns (checksum: uint32)
    ensures checksum == Checksum(data)
  {
    var crc := TakeBytes(INITIAL, data);
    ToNatBound(Not(crc));
    Pow2Values();
    checksum := ToNat(Not(crc));
  }

  method TakeBytes(crc: Word, data: seq<uint8>) returns (r: Word)
    ensures r == Run(crc, data)
  {
    r := crc;
    for i := 0 to |data|
      invariant r == Run(crc, data[..i])
    {
      assert data[..i + 1][..i] == data[..i];
      r := TakeByte(r, data[i]);
    }
    assert data[..|data|] == data;
  }

  method TakeByte(crc: Word, b: uint8) returns (r: Word)
    ensures r == Update(crc, b)
  {
    r := TakeBits(Xor(crc, FromNat(b, 32)), 8);
  }

  method TakeBits(crc: Word, n: nat) returns (r: Word)
    ensures r == Steps(crc, n)
  {
    r := crc;
    for j := 0 to n
      invariant Steps(r, n - j) == Steps(crc, n)
    {
      r := Step(r);
    }
  }

  // ---------- bit by bit ----------

  /** The bits of the data in the order in which the loop takes them in. */
  function Bits(data: seq<uint8>): (r: seq<bool>)
    ensures |r| == 8 * |data|
  {
    if data == [] then [] else Bits(data[..|data| - 1]) + FromNat(data[|data| - 1], 8)
  }

  /** A word with some bits xored into its low end. */
  function XorIn(crc: Word, w: seq<bool>): Word {
    seq(32, i requires 0 <= i < 32 => if i < |w| then crc[i] != w[i] else crc[i])
  }

  function TakeIn(crc: Word, b: bool): Word {
    Step(XorIn(crc, [b]))
  }

  function RunBits(crc: Word, w: seq<bool>): Word
    decreases |w|
  {
    if w == [] then crc else RunBits(TakeIn(crc, w[0]), w[1..])
  }

  /** What enters above the lowest bit waits for the next step. */
  lemma StepWaits(crc: Word, w: seq<bool>)
    requires 1 <= |w| <= 32
    ensures Step(XorIn(crc, w)) == XorIn(TakeIn(crc, w[0]), w[1..])
  {
  }

  lemma NothingIn(crc: Word)
    ensures XorIn(crc, []) == crc
  {
  }

  /** Stepping does to `x` what taking in the bits does to `crc`. */
  predicate Stepped(crc: Word, w: seq<bool>, x: Word) {
    Steps(x, |w|) == RunBits(crc, w)
  }

  lemma NoTurn(crc: Word, w: seq<bool>, x: Word)
    requires |w| == 0 && x == XorIn(crc, w)
    ensures Stepped(crc, w, x)
  {
    assert w == [];
    NothingIn(crc);
  }

  lemma OneTurn(crc: Word, w: seq<bool>, x: Word) returns (next: Word, y: Word)
    requires 0 < |w| <= 32 && x == XorIn(crc, w)
    ensures y == XorIn(next, w[1..])
    ensures Stepped(next, w[1..], y) ==> Stepped(crc, w, x)
  {
    next, y := TakeIn(crc, w[0]), Step(x);
    StepWaits(crc, w);
  }

  /** Up to 32 bits can be taken in at once before stepping. */
  lemma {:induction false} AtOnce(crc: Word, w: seq<bool>, x: Word)
    requires |w| <= 32 && x == XorIn(crc, w)
    ensures Stepped(crc, w, x)
    decreases |w|
  {
    if w == [] {
      NoTurn(crc, w, x);
    } else {
      var next, y := OneTurn(crc, w, x);
      AtOnce(next, w[1..], y);
    }
  }

  lemma ByteIn(crc: Word, b: uint8)
    ensures Xor(crc, FromNat(b, 32)) == XorIn(crc, FromNat(b, 8))
  {
    HighBits(b, 8, 32);
    assert FromNat(b, 32)[..8] == FromNat(b, 8);
    forall i | 0 <= i < 8
      ensures FromNat(b, 32)[i] == FromNat(b, 8)[i]
    {
      assert FromNat(b, 32)[..8][i] == FromNat(b, 32)[i];
    }
  }

  lemma UpdateIsRunBits(crc: Word, b: uint8)
    ensures Update(crc, b) == RunBits(crc, FromNat(b, 8))
  {
    ByteIn(crc, b);
    AtOnce(crc, FromNat(b, 8), Xor(crc, FromNat(b, 32)));
  }

  lemma {:induction false} RunBitsAppend(crc: Word, v: seq<bool>, w: seq<bool>)
    ensures RunBits(crc, v + w) == RunBits(RunBits(crc, v), w)
    decreases |v|
  {
    if v == [] {
      assert v + w == w;
    } else {
      assert (v + w)[1..] == v[1..] + w;
      RunBitsAppend(TakeIn(crc, v[0]), v[1..], w);
    }
  }

  /** The byte loop takes in the bits of the data. */
  lemma {:induction false} RunIsRunBits(crc: Word, data: seq<uint8>)
    ensures Run(crc, data) == RunBits(crc, Bits(data))
  {
    if data != [] {
      var init, b := data[..|data| - 1], data[|data| - 1];
      RunIsRunBits(crc, init);
      RunBitsAppend(crc, Bits(init), FromNat(b, 8));
      UpdateIsRunBits(Run(crc, init), b);
    }
  }

  // ---------- what a state tells about the bits before it ----------

  /** The words agree in the bits from `j` on. */
  predicate AgreeFrom(s: Word, t: Word, j: nat) {
    forall i :: j <= i < 32 ==> s[i] == t[i]
  }

  lemma TopOfPolynomial()
    ensures POLYNOMIAL[31]
  {
    Top(0xEDB8_8320);
  }

  lemma Top(v: nat)
    requires 0x8000_0000 <= v < 0x1_0000_0000
    ensures FromNat(v, 32)[31]
  {
    Pow2Values();
    TopBit(v, 31);
  }

  lemma {:induction false} TopBit(v: nat, k: nat)
    requires Pow2(k) <= v < 2 * Pow2(k)
    ensures FromNat(v, k + 1)[k]
  {
    if k > 0 {
      TopBit(v / 2, k - 1);
    }
  }

  lemma TakenBit(s: Word, b: bool, i: nat)
    requires i < 32
    ensures TakeIn(s, b)[i] == ((i < 31 && s[i + 1]) != (POLYNOMIAL[i] && (s[0] != b)))
  {
  }

  /** The top bit after a step tells which bit left. */
  lemma SameBitLeft(s: Word, t: Word, a: bool, b: bool)
    requires TakeIn(s, a)[31] == TakeIn(t, b)[31]
    ensures (s[0] != a) == (t[0] != b)
  {
    TopOfPolynomial();
    TakenBit(s, a, 31);
    TakenBit(t, b, 31);
  }

  lemma SameBitBefore(s: Word, t: Word, a: bool, b: bool, i: nat)
    requires 0 < i < 32 && (s[0] != a) == (t[0] != b) && TakeIn(s, a)[i - 1] == TakeIn(t, b)[i - 1]
    ensures s[i] == t[i]
  {
    var taken := POLYNOMIAL[i - 1] && (s[0] != a);
    BitBefore(s, a, i, taken);
    BitBefore(t, b, i, taken);
  }

  lemma BitBefore(s: Word, b: bool, i: nat, taken: bool)
    requires 0 < i < 32 && taken == (POLYNOMIAL[i - 1] && (s[0] != b))
    ensures s[i] == (TakeIn(s, b)[i - 1] != taken)
  {
    TakenBit(s, b, i - 1);
  }

  /** A step can be undone. */
  lemma StepBack(s: Word, t: Word, a: bool, b: bool, j: nat)
    requires j <= 31 && AgreeFrom(TakeIn(s, a), TakeIn(t, b), j)
    ensures (s[0] != a) == (t[0] != b)
    ensures AgreeFrom(s, t, j + 1)
  {
    var x, y := TakeIn(s, a), TakeIn(t, b);
    assert x[31] == y[31];
    SameBitLeft(s, t, a, b);
    forall i | j + 1 <= i < 32
      ensures s[i] == t[i]
    {
      assert x[i - 1] == y[i - 1];
      SameBitBefore(s, t, a, b, i);
    }
  }

  /** States from which windows of `|v|` bits lead to the same state agree above them. */
  lemma {:induction false} AgreeAbove(s: Word, t: Word, v: seq<bool>, w: seq<bool>)
    requires |v| == |w| <= 32 && RunBits(s, v) == RunBits(t, w)
    ensures AgreeFrom(s, t, |v|)
    decreases |v|
  {
    if v != [] {
      AgreeAbove(TakeIn(s, v[0]), TakeIn(t, w[0]), v[1..], w[1..]);
      StepBack(s, t, v[0], w[0], |v| - 1);
    }
  }

  /** From one state, different windows of up to 32 bits lead to different states. */
  lemma {:induction false} WindowInjective(crc: Word, v: seq<bool>, w: seq<bool>)
    requires |v| == |w| <= 32 && RunBits(crc, v) == RunBits(crc, w)
    ensures v == w
    decreases |v|
  {
    if v != [] {
      AgreeAbove(TakeIn(crc, v[0]), TakeIn(crc, w[0]), v[1..], w[1..]);
      StepBack(crc, crc, v[0], w[0], |v| - 1);
      WindowInjective(TakeIn(crc, v[0]), v[1..], w[1..]);
      assert v == [v[0]] + v[1..] && w == [w[0]] + w[1..];
    }
  }

  /** Under the same bits, different states stay different. */
  lemma {:induction false} StateInjective(s: Word, t: Word, w: seq<bool>)
    requires RunBits(s, w) == RunBits(t, w)
    ensures s == t
    decreases |w|
  {
    if w != [] {
      StateInjective(TakeIn(s, w[0]), TakeIn(t, w[0]), w[1..]);
      StepInjective(s, t, w[0]);
    }
  }

  lemma StepInjective(s: Word, t: Word, b: bool)
    requires TakeIn(s, b) == TakeIn(t, b)
    ensures s == t
  {
    StepBack(s, t, b, b, 0);
    AgreeAll(s, t);
  }

  lemma AgreeAll(s: Word, t: Word)
    requires s[0] == t[0] && AgreeFrom(s, t, 1)
    ensures s == t
  {
  }

  lemma {:induction false} BitsInjective(a: seq<uint8>, b: seq<uint8>)
    requires |a| == |b| && Bits(a) == Bits(b)
    ensures a == b
  {
    if a != [] {
      var n := |a| - 1;
      assert Bits(a)[..8 * n] == Bits(a[..n]) && Bits(b)[..8 * n] == Bits(b[..n]);
      assert Bits(a)[8 * n..] == FromNat(a[n], 8) && Bits(b)[8 * n..] == FromNat(b[n], 8);
      BitsInjective(a[..n], b[..n]);
      assert Pow2(8) == 0x100;
      ToNatFromNat(a[n], 8);
      ToNatFromNat(b[n], 8);
      assert a == a[..n] + [a[n]] && b == b[..n] + [b[n]];
    }
  }

  // ---------- detection ----------

  /** The data agree outside the bits from `lo` up to `hi`. */
  predicate AgreeOutside(a: seq<uint8>, b: seq<uint8>, lo: nat, hi: nat) {
    && |a| == |b|
    && lo <= hi <= 8 * |a|
    && Bits(a)[..lo] == Bits(b)[..lo]
    && Bits(a)[hi..] == Bits(b)[hi..]
  }

  /** A change within 32 consecutive bits changes the checksum of data of any length. */
  lemma BurstDetected(a: seq<uint8>, b: seq<uint8>, lo: nat, hi: nat)
    requires AgreeOutside(a, b, lo, hi) && hi - lo <= 32 && a != b
    ensures Checksum(a) != Checksum(b)
  {
    if Checksum(a) == Checksum(b) {
      SameState(a, b);
      SameBits(Bits(a), Bits(b), lo, hi);
      BitsInjective(a, b);
    }
  }

  lemma SameBits(v: seq<bool>, w: seq<bool>, lo: nat, hi: nat)
    requires |v| == |w| && lo <= hi <= |v| && hi - lo <= 32
    requires v[..lo] == w[..lo] && v[hi..] == w[hi..]
    requires RunBits(INITIAL, v) == RunBits(INITIAL, w)
    ensures v == w
  {
    ThreeParts(v, lo, hi);
    ThreeParts(w, lo, hi);
    var crc := RunBits(INITIAL, v[..lo]);
    WindowSame(crc, v[lo..hi], w[lo..hi], v[hi..]);
    SameParts(v, w, lo, hi);
  }

  lemma WindowSame(crc: Word, v: seq<bool>, w: seq<bool>, rest: seq<bool>)
    requires |v| == |w| <= 32 && RunBits(RunBits(crc, v), rest) == RunBits(RunBits(crc, w), rest)
    ensures v == w
  {
    StateInjective(RunBits(crc, v), RunBits(crc, w), rest);
    WindowInjective(crc, v, w);
  }

  lemma SameParts(v: seq<bool>, w: seq<bool>, lo: nat, hi: nat)
    requires |v| == |w| && lo <= hi <= |v|
    requires v[..lo] == w[..lo] && v[lo..hi] == w[lo..hi] && v[hi..] == w[hi..]
    ensures v == w
  {
    assert v == v[..lo] + v[lo..hi] + v[hi..];
    assert w == w[..lo] + w[lo..hi] + w[hi..];
  }

  lemma SameState(a: seq<uint8>, b: seq<uint8>)
    requires Checksum(a) == Checksum(b)
    ensures RunBits(INITIAL, Bits(a)) == RunBits(INITIAL, Bits(b))
  {
    var x, y := Run(INITIAL, a), Run(INITIAL, b);
    ToNatInjective(Not(x), Not(y));
    NotInjective(x, y);
    RunIsRunBits(INITIAL, a);
    RunIsRunBits(INITIAL, b);
  }

  lemma NotInjective(x: Word, y: Word)
    requires Not(x) == Not(y)
    ensures x == y
  {
    forall i | 0 <= i < 32
      ensures x[i] == y[i]
    {
      assert Not(x)[i] == !x[i] && Not(y)[i] == !y[i];
    }
  }

  lemma RunBitsSplit(crc: Word, v: seq<bool>, k: nat)
    requires k <= |v|
    ensures RunBits(crc, v) == RunBits(RunBits(crc, v[..k]), v[k..])
  {
    RunBitsAppend(crc, v[..k], v[k..]);
    assert v == v[..k] + v[k..];
  }

  lemma ThreeParts(v: seq<bool>, lo: nat, hi: nat)
    requires lo <= hi <= |v|
    ensures RunBits(INITIAL, v) == RunBits(RunBits(RunBits(INITIAL, v[..lo]), v[lo..hi]), v[hi..])
  {
    RunBitsSplit(INITIAL, v, hi);
    RunBitsSplit(INITIAL, v[..hi], lo);
    assert v[..hi][..lo] == v[..lo];
    assert v[..hi][lo..] == v[lo..hi];
  }

  lemma {:induction false} BitsSplit(a: seq<uint8>, k: nat)
    requires k <= |a|
    ensures Bits(a)[..8 * k] == Bits(a[..k]) && Bits(a)[8 * k..] == Bits(a[k..])
  {
    if k == |a| {
      assert a[..k] == a;
    } else {
      var n := |a| - 1;
      BitsSplit(a[..n], k);
      assert a[..n][..k] == a[..k];
      assert a[k..][..n - k] == a[..n][k..];
    }
  }

  /** A change within four consecutive bytes changes the checksum. */
  lemma ByteBurstDetected(a: seq<uint8>, b: seq<uint8>, i: nat, j: nat)
    requires |a| == |b| && i <= j <= |a| && j - i <= 4
    requires a[..i] == b[..i] && a[j..] == b[j..] && a != b
    ensures Checksum(a) != Checksum(b)
  {
    BitsSplit(a, i);
    BitsSplit(b, i);
    BitsSplit(a, j);
    BitsSplit(b, j);
    BurstDetected(a, b, 8 * i, 8 * j);
  }

  // ---------- the checksum as a division ----------

  lemma LowestFirst(v: nat, n: nat)
    requires n > 0
    ensures FromNat(v, n) == [v % 2 == 1] + FromNat(v / 2, n - 1)
  {
  }

  lemma FourBits(v: nat, n: nat, b3: bool, b2: bool, b1: bool, b0: bool, rest: nat)
    requires n >= 4
    requires v == 16 * rest + (if b3 then 8 else 0) + (if b2 then 4 else 0) + (if b1 then 2 else 0)
                  + if b0 then 1 else 0
    ensures FromNat(v, n) == [b0, b1, b2, b3] + FromNat(rest, n - 4)
  {
    LowestFirst(v, n);
    LowestFirst(v / 2, n - 1);
    LowestFirst(v / 4, n - 2);
    LowestFirst(v / 8, n - 3);
    assert v / 2 / 2 == v / 4 && v / 4 / 2 == v / 8 && v / 8 / 2 == rest;
  }

  /** The exponents below 32 of the generator polynomial of CRC-32. */
  predicate InGenerator(e: int) {
    e in {0, 1, 2, 4, 5, 7, 8, 10, 11, 12, 16, 22, 23, 26}
  }

  /** The lowest bit of a constant of `n` bits stands for exponent `top`, the next one for the one
      below. */
  predicate Generator(v: nat, n: nat, top: int) {
    forall i :: 0 <= i < n ==> (FromNat(v, n)[i] <==> InGenerator(top - i))
  }

  lemma FourMore(v: nat, n: nat, top: int, b3: bool, b2: bool, b1: bool, b0: bool, rest: nat)
    requires n >= 4 && Generator(rest, n - 4, top - 4)
    requires v == 16 * rest + (if b3 then 8 else 0) + (if b2 then 4 else 0) + (if b1 then 2 else 0)
                  + if b0 then 1 else 0
    requires b0 == InGenerator(top) && b1 == InGenerator(top - 1)
    requires b2 == InGenerator(top - 2) && b3 == InGenerator(top - 3)
    ensures Generator(v, n, top)
  {
    FourBits(v, n, b3, b2, b1, b0, rest);
    forall i | 0 <= i < n
      ensures FromNat(v, n)[i] <==> InGenerator(top - i)
    {
      if i >= 4 {
        assert FromNat(v, n)[i] == FromNat(rest, n - 4)[i - 4];
      }
    }
  }

  /** The constant of the loop is the generator, highest exponent first. */
  lemma GeneratorBits()
    ensures Generator(0xEDB8_8320, 32, 31)
  {
    FourMore(0xE, 4, 3, true, true, true, false, 0);
    FourMore(0xED, 8, 7, true, true, false, true, 0xE);
    FourMore(0xEDB, 12, 11, true, false, true, true, 0xED);
    FourMore(0xEDB8, 16, 15, true, false, false, false, 0xEDB);
    FourMore(0xE_DB88, 20, 19, true, false, false, false, 0xEDB8);
    FourMore(0xED_B883, 24, 23, false, false, true, true, 0xE_DB88);
    FourMore(0xEDB_8832, 28, 27, false, false, true, false, 0xED_B883);
    FourMore(0xEDB8_8320, 32, 31, false, false, false, false, 0xEDB_8832);
  }

  lemma {:induction false} AllOnes(n: nat, v: nat)
    requires v == Pow2(n) - 1
    ensures forall i :: 0 <= i < n ==> FromNat(v, n)[i]
  {
    if n > 0 {
      LowestFirst(v, n);
      AllOnes(n - 1, v / 2);
    }
  }

  lemma {:induction false} FromNatToNat(w: seq<bool>)
    ensures FromNat(ToNat(w), |w|) == w
  {
    if w != [] {
      FromNatToNat(w[1..]);
      assert w == [w[0]] + w[1..];
    }
  }

  /** Bit `k` of a number: whether it is odd after `k` halvings. */
  predicate BitOf(v: nat, k: nat) {
    if k == 0 then v % 2 == 1 else BitOf(v / 2, k - 1)
  }

  lemma {:induction false} BitOfNumber(v: nat, n: nat, k: nat)
    requires k < n
    ensures FromNat(v, n)[k] == BitOf(v, k)
  {
    LowestFirst(v, n);
    if k > 0 {
      BitOfNumber(v / 2, n - 1, k - 1);
    }
  }

  /** The bits of the data: of each byte the lowest one first. */
  lemma {:induction false} BitsAt(data: seq<uint8>, t: nat)
    requires t < 8 * |data|
    ensures Bits(data)[t] == BitOf(data[t / 8], t % 8)
  {
    var n := |data| - 1;
    if t < 8 * n {
      BitsAt(data[..n], t);
    } else {
      BitOfNumber(data[n], 8, t - 8 * n);
      assert t / 8 == n && t % 8 == t - 8 * n;
    }
  }

  /** One turn of a shift register whose feedback is given by the generator polynomial. */
  predicate Turned(x: Word, bit: bool, y: Word) {
    forall i :: 0 <= i < 32 ==> y[i] == ((i < 31 && x[i + 1]) != (InGenerator(31 - i) && x[0] != bit))
  }

  /** A shift register of 32 bits that starts with ones and takes in the data. */
  predicate Divides(data: seq<uint8>, r: seq<Word>) {
    && |r| == 8 * |data| + 1
    && (forall i :: 0 <= i < 32 ==> r[0][i])
    && forall t :: 0 <= t < 8 * |data| ==> Turned(r[t], BitOf(data[t / 8], t % 8), r[t + 1])
  }

  lemma TurnIsStep(x: Word, bit: bool, y: Word)
    requires Turned(x, bit, y)
    ensures y == TakeIn(x, bit)
  {
    GeneratorBits();
    forall i | 0 <= i < 32
      ensures y[i] == TakeIn(x, bit)[i]
    {
      TakenBit(x, bit, i);
    }
  }

  lemma {:induction false} RegisterAt(data: seq<uint8>, r: seq<Word>, t: nat)
    requires Divides(data, r) && t <= 8 * |data|
    ensures r[t] == RunBits(INITIAL, Bits(data)[..t])
  {
    if t == 0 {
      StartsWithOnes(r[0]);
      assert Bits(data)[..0] == [];
    } else {
      RegisterAt(data, r, t - 1);
      RegisterNext(data, r, t);
      OneBitMore(Bits(data), t);
    }
  }

  lemma RegisterNext(data: seq<uint8>, r: seq<Word>, t: nat)
    requires Divides(data, r) && 0 < t <= 8 * |data|
    ensures r[t] == TakeIn(r[t - 1], Bits(data)[t - 1])
  {
    var k := t - 1;
    BitsAt(data, k);
    assert Turned(r[k], BitOf(data[k / 8], k % 8), r[k + 1]);
    TurnIsStep(r[k], Bits(data)[k], r[k + 1]);
  }

  lemma StartsWithOnes(w: Word)
    requires forall i :: 0 <= i < 32 ==> w[i]
    ensures w == INITIAL
  {
    Pow2Values();
    AllOnes(32, 0xFFFF_FFFF);
  }

  lemma OneBitMore(bits: seq<bool>, t: nat)
    requires 0 < t <= |bits|
    ensures RunBits(INITIAL, bits[..t]) == TakeIn(RunBits(INITIAL, bits[..t - 1]), bits[t - 1])
  {
    var init, b := bits[..t - 1], bits[t - 1];
    assert bits[..t] == init + [b];
    RunBitsAppend(INITIAL, init, [b]);
    assert [b][1..] == [];
  }

  /** The checksum is the complement of what such a register ends with. */
  lemma ChecksumIsDivision(data: seq<uint8>, r: seq<Word>)
    requires Divides(data, r)
    ensures forall i :: 0 <= i < 32 ==> BitOf(Checksum(data), i) == !r[8 * |data|][i]
  {
    RegisterAt(data, r, 8 * |data|);
    assert Bits(data)[..8 * |data|] == Bits(data);
    RunIsRunBits(INITIAL, data);
    Complement(data, r[8 * |data|]);
  }

  lemma Complement(data: seq<uint8>, w: Word)
    requires w == Run(INITIAL, data)
    ensures forall i :: 0 <= i < 32 ==> BitOf(Checksum(data), i) == !w[i]
  {
    FromNatToNat(Not(w));
    forall i | 0 <= i < 32
      ensures BitOf(Checksum(data), i) == !w[i]
    {
      BitOfNumber(Checksum(data), 32, i);
    }
  }
}

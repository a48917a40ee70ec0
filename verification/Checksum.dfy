/** The Bech32m checksum (crates/crypto/src/bech32.rs, BIP-173 and BIP-350): a
    linear code over five-bit digits. */
module Checksum {
  import opened Base

  /** A five-bit digit. */
  type Digit = d: nat | d < 32

  const BECH32M_CONST: bv32 := 0x2bc8_30a3

  /** `g` if the bit is set. */
  function Pick(bit: bool, g: bv32): bv32 { if bit then g else 0 }

  function Bit(b: bv32, mask: bv32): bool { b & mask == mask }

  function Xor(a: bv32, b: bv32): bv32 { a ^ b }

  function FromBits(p0: bool, p1: bool, p2: bool, p3: bool, p4: bool): bv32 {
    Pick(p0, 1) ^ Pick(p1, 2) ^ Pick(p2, 4) ^ Pick(p3, 8) ^ Pick(p4, 16)
  }

  function ToNumber(p0: bool, p1: bool, p2: bool, p3: bool, p4: bool): Digit {
    (if p0 then 1 else 0) + (if p1 then 2 else 0) + (if p2 then 4 else 0) + (if p3 then 8 else 0)
    + (if p4 then 16 else 0)
  }

  /** A digit as a machine word. */
  function Word(d: Digit): bv32 {
    FromBits(d % 2 == 1, d / 2 % 2 == 1, d / 4 % 2 == 1, d / 8 % 2 == 1, d / 16 % 2 == 1)
  }

  /** The low five bits of a machine word as a digit. */
  function DigitOf(b: bv32): Digit {
    ToNumber(Bit(b, 1), Bit(b, 2), Bit(b, 4), Bit(b, 8), Bit(b, 16))
  }

  lemma BitsOfWord(p0: bool, p1: bool, p2: bool, p3: bool, p4: bool, b: bv32)
    requires b == FromBits(p0, p1, p2, p3, p4)
    ensures b < 32
    ensures Bit(b, 1) == p0 && Bit(b, 2) == p1 && Bit(b, 4) == p2 && Bit(b, 8) == p3 && Bit(b, 16) == p4
  {
  }

  lemma WordOfBits(b: bv32)
    requires b < 32
    ensures b == FromBits(Bit(b, 1), Bit(b, 2), Bit(b, 4), Bit(b, 8), Bit(b, 16))
  {
  }

  lemma NumberOfBits(d: Digit)
    ensures ToNumber(d % 2 == 1, d / 2 % 2 == 1, d / 4 % 2 == 1, d / 8 % 2 == 1, d / 16 % 2 == 1) == d
  {
  }

  lemma BitsOfNumber(p0: bool, p1: bool, p2: bool, p3: bool, p4: bool, d: Digit)
    requires d == ToNumber(p0, p1, p2, p3, p4)
    ensures p0 == (d % 2 == 1) && p1 == (d / 2 % 2 == 1) && p2 == (d / 4 % 2 == 1)
    ensures p3 == (d / 8 % 2 == 1) && p4 == (d / 16 % 2 == 1)
  {
  }

  lemma DigitOfWord(d: Digit)
    ensures Word(d) < 32 && DigitOf(Word(d)) == d
  {
    BitsOfWord(d % 2 == 1, d / 2 % 2 == 1, d / 4 % 2 == 1, d / 8 % 2 == 1, d / 16 % 2 == 1, Word(d));
    NumberOfBits(d);
  }

  lemma WordOfDigit(b: bv32)
    requires b < 32
    ensures Word(DigitOf(b)) == b
  {
    BitsOfNumber(Bit(b, 1), Bit(b, 2), Bit(b, 4), Bit(b, 8), Bit(b, 16), DigitOf(b));
    WordOfBits(b);
  }

  // -- one digit ------------------------------------------------------------

  /** The generators selected by the bits of `top`. */
  function Selection(top: bv32): bv32 {
    Pick(Bit(top, 1), 0x3b6a_57b2) ^ Pick(Bit(top, 2), 0x2650_8e6d) ^ Pick(Bit(top, 4), 0x1ea1_19fa)
    ^ Pick(Bit(top, 8), 0x3d42_33dd) ^ Pick(Bit(top, 16), 0x2a14_62b3)
  }

  function Mix(chk: bv32, v: bv32, s: bv32): bv32 { (((chk & 0x01ff_ffff) << 5) ^ v) ^ s }

  /** One digit fed into the checksum. */
  function Step(chk: bv32, v: bv32): bv32 {
    Mix(chk, v, Selection(chk >> 25))
  }

  lemma StepStaysSmall(chk: bv32, v: bv32)
    requires chk < 0x4000_0000 && v < 32
    ensures Step(chk, v) < 0x4000_0000
    ensures chk < 0x0200_0000 ==> Step(chk, v) == (chk << 5) ^ v
  {
  }

  lemma LowBitsTellTop(p: bv32, q: bv32)
    requires p < 32 && q < 32
    ensures Selection(p) & 31 == Selection(q) & 31 ==> p == q
  {
  }

  lemma LowBitsSurvive(x: bv32, y: bv32, s: bv32, t: bv32, v: bv32)
    requires Mix(x, v, s) == Mix(y, v, t)
    ensures s & 31 == t & 31
    ensures s == t ==> (x & 0x01ff_ffff) << 5 == (y & 0x01ff_ffff) << 5
  {
  }

  lemma Joined(a: bv32, b: bv32)
    requires a >> 25 == b >> 25 && (a & 0x01ff_ffff) << 5 == (b & 0x01ff_ffff) << 5
    ensures a == b
  {
  }

  lemma TopIsDigit(a: bv32)
    requires a < 0x4000_0000
    ensures a >> 25 < 32
  {
  }

  lemma StatesAgree(a: bv32, b: bv32, v: bv32, s: bv32, t: bv32)
    requires Mix(a, v, s) == Mix(b, v, t)
    requires s & 31 == t & 31 ==> a >> 25 == b >> 25
    requires a >> 25 == b >> 25 ==> s == t
    ensures a == b
  {
    LowBitsSurvive(a, b, s, t, v);
    Joined(a, b);
  }

  /** A step loses nothing of the state. */
  lemma StepIsInjective(a: bv32, b: bv32, v: bv32)
    requires a < 0x4000_0000 && b < 0x4000_0000 && Step(a, v) == Step(b, v)
    ensures a == b
  {
    TopIsDigit(a);
    TopIsDigit(b);
    LowBitsTellTop(a >> 25, b >> 25);
    StatesAgree(a, b, v, Selection(a >> 25), Selection(b >> 25));
  }

  lemma StepSeesDigit(a: bv32, v: bv32, w: bv32)
    requires Step(a, v) == Step(a, w)
    ensures v == w
  {
  }

  // -- a sequence of digits -------------------------------------------------

  function Fold<S, D>(step: (S, D) -> S, start: S, ds: seq<D>): S
    decreases |ds|
  {
    if ds == [] then start else Fold(step, step(start, ds[0]), ds[1..])
  }

  lemma {:induction false} FoldOfConcat<S, D>(step: (S, D) -> S, start: S, xs: seq<D>, ys: seq<D>)
    ensures Fold(step, start, xs + ys) == Fold(step, Fold(step, start, xs), ys)
    decreases |xs|
  {
    if xs == [] {
      assert xs + ys == ys;
    } else {
      assert (xs + ys)[1..] == xs[1..] + ys;
      FoldOfConcat(step, step(start, xs[0]), xs[1..], ys);
    }
  }

  lemma FoldOfOne<S, D>(step: (S, D) -> S, start: S, d: D)
    ensures Fold(step, start, [d]) == step(start, d)
  {
    assert [d][1..] == [];
  }

  /** Every step on a joined state is a step on each part. */
  ghost predicate Splits<S(!new), D(!new)>(f: (S, D) -> S, g: (S, D) -> S, h: (S, D) -> S,
                                           join: (S, S) -> S, fits: (S, nat) -> bool, n: nat)
  {
    && (forall x, y, d, i: nat :: fits(y, i) && i < n ==> f(join(x, y), d) == join(g(x, d), h(y, d)))
    && (forall y, d, i: nat :: fits(y, i) && i < n ==> fits(h(y, d), i + 1))
  }

  lemma {:induction false} FoldSplits<S(!new), D(!new)>(f: (S, D) -> S, g: (S, D) -> S, h: (S, D) -> S,
                                                        join: (S, S) -> S, fits: (S, nat) -> bool,
                                                        a: S, b: S, ds: seq<D>, k: nat)
    requires fits(b, k) && Splits(f, g, h, join, fits, k + |ds|)
    ensures Fold(f, join(a, b), ds) == join(Fold(g, a, ds), Fold(h, b, ds))
    ensures fits(Fold(h, b, ds), k + |ds|)
    decreases |ds|
  {
    if ds != [] {
      FoldSplits(f, g, h, join, fits, g(a, ds[0]), h(b, ds[0]), ds[1..], k + 1);
    }
  }

  function Feed(chk: bv32, d: Digit): bv32 { Step(chk, Word(d)) }

  function Polymod(ds: seq<Digit>): bv32 { Fold(Feed, 1, ds) }

  method ComputePolymod(ds: seq<Digit>) returns (chk: bv32)
    ensures chk == Polymod(ds)
  {
    chk := 1;
    var i := 0;
    while i < |ds|
      invariant 0 <= i <= |ds|
      invariant Fold(Feed, chk, ds[i..]) == Polymod(ds)
    {
      assert ds[i..][1..] == ds[i + 1..];
      chk := Feed(chk, ds[i]);
      i := i + 1;
    }
  }

  lemma FeedFacts(a: bv32, b: bv32, d: Digit)
    requires a < 0x4000_0000 && b < 0x4000_0000
    ensures Feed(a, d) < 0x4000_0000
    ensures Feed(a, d) == Feed(b, d) ==> a == b
  {
    DigitOfWord(d);
    StepStaysSmall(a, Word(d));
    if Feed(a, d) == Feed(b, d) {
      StepIsInjective(a, b, Word(d));
    }
  }

  lemma FeedSeesDigit(chk: bv32, d: Digit, e: Digit)
    ensures Feed(chk, d) == Feed(chk, e) ==> d == e
  {
    if Feed(chk, d) == Feed(chk, e) {
      StepSeesDigit(chk, Word(d), Word(e));
      DigitOfWord(d);
      DigitOfWord(e);
    }
  }

  lemma {:induction false} FoldStaysSmall(chk: bv32, ds: seq<Digit>)
    requires chk < 0x4000_0000
    ensures Fold(Feed, chk, ds) < 0x4000_0000
    decreases |ds|
  {
    if ds != [] {
      FeedFacts(chk, chk, ds[0]);
      FoldStaysSmall(Feed(chk, ds[0]), ds[1..]);
    }
  }

  lemma {:induction false} FoldIsInjective(a: bv32, b: bv32, ds: seq<Digit>)
    requires a < 0x4000_0000 && b < 0x4000_0000 && Fold(Feed, a, ds) == Fold(Feed, b, ds)
    ensures a == b
    decreases |ds|
  {
    if ds != [] {
      FeedFacts(a, b, ds[0]);
      FeedFacts(b, a, ds[0]);
      FoldIsInjective(Feed(a, ds[0]), Feed(b, ds[0]), ds[1..]);
    }
  }

  /** One changed digit always changes the checksum. */
  lemma OneDigitMatters(xs: seq<Digit>, d: Digit, e: Digit, ys: seq<Digit>)
    requires d != e
    ensures Polymod(xs + [d] + ys) != Polymod(xs + [e] + ys)
  {
    var c := Fold(Feed, 1, xs);
    FoldStaysSmall(1, xs);
    FeedFacts(c, c, d);
    FeedFacts(c, c, e);
    FeedSeesDigit(c, d, e);
    FoldOfOne(Feed, c, d);
    FoldOfOne(Feed, c, e);
    FoldOfConcat(Feed, 1, xs, [d]);
    FoldOfConcat(Feed, 1, xs, [e]);
    FoldOfConcat(Feed, 1, xs + [d], ys);
    FoldOfConcat(Feed, 1, xs + [e], ys);
    if Fold(Feed, Feed(c, d), ys) == Fold(Feed, Feed(c, e), ys) {
      FoldIsInjective(Feed(c, d), Feed(c, e), ys);
    }
  }

  // -- the six checksum digits ----------------------------------------------

  const CHECKSUM_LENGTH: nat := 6

  function Zeros(n: nat): seq<Digit> { if n == 0 then [] else [0] + Zeros(n - 1) }

  function Push(p: bv32, v: bv32): bv32 { (p << 5) ^ v }

  function PushDigit(p: bv32, d: Digit): bv32 { Push(p, Word(d)) }

  /** Digits packed into a word, most significant first. */
  function Pack(ds: seq<Digit>): bv32 { Fold(PushDigit, 0, ds) }

  /** The bound on a word that packs `k` digits. */
  function Packed(k: nat): bv32
    requires k <= 6
  {
    match k
    case 0 => 1
    case 1 => 0x20
    case 2 => 0x400
    case 3 => 0x8000
    case 4 => 0x10_0000
    case 5 => 0x0200_0000
    case _ => 0x4000_0000
  }

  lemma PackStep(p: bv32, v: bv32, k: nat)
    requires k < 6 && p < Packed(k) && v < 32
    ensures p < 0x0200_0000 && Push(p, v) < Packed(k + 1)
  {
  }

  lemma TopUnmoved(chk: bv32, p: bv32)
    requires p < 0x0200_0000
    ensures Xor(chk, p) >> 25 == chk >> 25
  {
  }

  lemma MixAbsorbs(chk: bv32, p: bv32, v: bv32, s: bv32)
    requires p < 0x0200_0000
    ensures Mix(Xor(chk, p), v, s) == Xor(Mix(chk, 0, s), Push(p, v))
  {
  }

  lemma StepAbsorbs(chk: bv32, p: bv32, v: bv32)
    requires p < 0x0200_0000
    ensures Step(Xor(chk, p), v) == Xor(Step(chk, 0), Push(p, v))
  {
    TopUnmoved(chk, p);
    MixAbsorbs(chk, p, v, Selection(chk >> 25));
  }

  function FeedZero(chk: bv32, d: Digit): bv32 { Feed(chk, 0) }

  /** `p` packs `k` digits. */
  predicate Fits(p: bv32, k: nat) { k <= 6 && p < Packed(k) }

  lemma AbsorbOne(chk: bv32, p: bv32, d: Digit, k: nat)
    requires k < 6 && Fits(p, k)
    ensures Fits(PushDigit(p, d), k + 1)
    ensures Feed(Xor(chk, p), d) == Xor(FeedZero(chk, d), PushDigit(p, d))
  {
    DigitOfWord(d);
    WordOfZero();
    PackStep(p, Word(d), k);
    StepAbsorbs(chk, p, Word(d));
  }

  lemma FeedSplits()
    ensures Splits(Feed, FeedZero, PushDigit, Xor, Fits, 6)
  {
    forall x: bv32, y: bv32, d: Digit, i: nat | Fits(y, i) && i < 6
      ensures Feed(Xor(x, y), d) == Xor(FeedZero(x, d), PushDigit(y, d))
    {
      AbsorbOne(x, y, d, i);
    }
    forall y: bv32, d: Digit, i: nat | Fits(y, i) && i < 6
      ensures Fits(PushDigit(y, d), i + 1)
    {
      AbsorbOne(0, y, d, i);
    }
  }

  /** Six digits enter the checksum unmixed: it is what zeros would give, plus the digits packed. */
  lemma FoldAbsorbs(chk: bv32, ds: seq<Digit>)
    requires |ds| == 6
    ensures Fold(Feed, chk, ds) == Xor(Fold(Feed, chk, Zeros(6)), Pack(ds))
    ensures Pack(ds) < 0x4000_0000
  {
    FeedSplits();
    FoldSplits(Feed, FeedZero, PushDigit, Xor, Fits, chk, 0, ds, 0);
    FoldOfZeros(chk, ds);
    XorZero(chk);
  }

  lemma {:induction false} FoldOfZeros(chk: bv32, ds: seq<Digit>)
    ensures Fold(FeedZero, chk, ds) == Fold(Feed, chk, Zeros(|ds|))
    decreases |ds|
  {
    if ds != [] {
      assert Zeros(|ds|)[1..] == Zeros(|ds| - 1);
      FoldOfZeros(Feed(chk, 0), ds[1..]);
    }
  }

  lemma XorZero(z: bv32)
    ensures Xor(z, 0) == z
  {
  }

  lemma WordOfZero()
    ensures Word(0) == 0
  {
  }

  /** The six digits of a thirty-bit word, as `encode` writes them. */
  function Unpack(x: bv32): seq<Digit> {
    [DigitOf((x >> 25) & 31), DigitOf((x >> 20) & 31), DigitOf((x >> 15) & 31),
     DigitOf((x >> 10) & 31), DigitOf((x >> 5) & 31), DigitOf(x & 31)]
  }

  lemma Reassembled(x: bv32)
    requires x < 0x4000_0000
    ensures Push(Push(Push(Push(Push(Push(0, (x >> 25) & 31), (x >> 20) & 31), (x >> 15) & 31),
                                (x >> 10) & 31), (x >> 5) & 31), x & 31) == x
  {
  }

  function PushAll(w0: bv32, w1: bv32, w2: bv32, w3: bv32, w4: bv32, w5: bv32): bv32 {
    Push(Push(Push(Push(Push(Push(0, w0), w1), w2), w3), w4), w5)
  }

  lemma PackSix(ds: seq<Digit>)
    requires |ds| == 6
    ensures Pack(ds) == PushAll(Word(ds[0]), Word(ds[1]), Word(ds[2]), Word(ds[3]), Word(ds[4]), Word(ds[5]))
  {
    FoldTwo(PushDigit, 0, ds);
    FoldTwo(PushDigit, PushDigit(PushDigit(0, ds[0]), ds[1]), ds[2..]);
    FoldTwo(PushDigit, PushDigit(PushDigit(PushDigit(PushDigit(0, ds[0]), ds[1]), ds[2]), ds[3]), ds[4..]);
  }

  lemma FoldTwo<S, D>(step: (S, D) -> S, start: S, ds: seq<D>)
    requires |ds| >= 2
    ensures Fold(step, start, ds) == Fold(step, step(step(start, ds[0]), ds[1]), ds[2..])
  {
    assert ds[1..][1..] == ds[2..];
  }

  lemma Disassembled(x: bv32, w0: bv32, w1: bv32, w2: bv32, w3: bv32, w4: bv32, w5: bv32)
    requires w0 < 32 && w1 < 32 && w2 < 32 && w3 < 32 && w4 < 32 && w5 < 32
    requires x == PushAll(w0, w1, w2, w3, w4, w5)
    ensures (x >> 25) & 31 == w0 && (x >> 20) & 31 == w1 && (x >> 15) & 31 == w2
    ensures (x >> 10) & 31 == w3 && (x >> 5) & 31 == w4 && x & 31 == w5
  {
  }

  lemma LowFiveBits(x: bv32)
    ensures x & 31 < 32
  {
  }

  lemma UnpackOfPack(ds: seq<Digit>)
    requires |ds| == 6
    ensures Unpack(Pack(ds)) == ds
  {
    PackSix(ds);
    UnpackWords(Pack(ds), ds[0], ds[1], ds[2], ds[3], ds[4], ds[5]);
    assert ds == [ds[0], ds[1], ds[2], ds[3], ds[4], ds[5]];
  }

  lemma UnpackWords(x: bv32, d0: Digit, d1: Digit, d2: Digit, d3: Digit, d4: Digit, d5: Digit)
    requires x == PushAll(Word(d0), Word(d1), Word(d2), Word(d3), Word(d4), Word(d5))
    ensures Unpack(x) == [d0, d1, d2, d3, d4, d5]
  {
    DigitOfWord(d0);
    DigitOfWord(d1);
    DigitOfWord(d2);
    DigitOfWord(d3);
    DigitOfWord(d4);
    DigitOfWord(d5);
    Disassembled(x, Word(d0), Word(d1), Word(d2), Word(d3), Word(d4), Word(d5));
  }

  lemma PackOfUnpack(x: bv32)
    requires x < 0x4000_0000
    ensures Pack(Unpack(x)) == x
  {
    PackSix(Unpack(x));
    WordAt(x >> 25);
    WordAt(x >> 20);
    WordAt(x >> 15);
    WordAt(x >> 10);
    WordAt(x >> 5);
    WordAt(x);
    Reassembled(x);
  }

  lemma WordAt(x: bv32)
    ensures Word(DigitOf(x & 31)) == x & 31
  {
    LowFiveBits(x);
    WordOfDigit(x & 31);
  }

  /** The checksum digits `encode` appends. */
  function ChecksumOf(ds: seq<Digit>): seq<Digit> {
    Unpack(Xor(Polymod(ds + Zeros(CHECKSUM_LENGTH)), BECH32M_CONST))
  }

  lemma XorStaysSmall(z: bv32, c: bv32)
    requires z < 0x4000_0000 && c < 0x4000_0000
    ensures Xor(z, c) < 0x4000_0000
  {
  }

  lemma XorUndone(z: bv32, p: bv32)
    ensures Xor(z, Xor(z, p)) == p
  {
  }

  lemma XorSolves(z: bv32, p: bv32, c: bv32)
    ensures Xor(z, p) == c <==> p == Xor(z, c)
  {
    XorUndone(z, p);
    XorUndone(z, c);
  }

  /** Of all six-digit endings exactly one is accepted: the one `encode` writes. */
  lemma OneChecksumAccepted(ds: seq<Digit>, cs: seq<Digit>)
    requires |cs| == CHECKSUM_LENGTH
    ensures Polymod(ds + cs) == BECH32M_CONST <==> cs == ChecksumOf(ds)
  {
    var c := Fold(Feed, 1, ds);
    var z := Fold(Feed, c, Zeros(CHECKSUM_LENGTH));
    FoldStaysSmall(1, ds);
    FoldStaysSmall(c, Zeros(CHECKSUM_LENGTH));
    FoldOfConcat(Feed, 1, ds, cs);
    FoldOfConcat(Feed, 1, ds, Zeros(CHECKSUM_LENGTH));
    FoldAbsorbs(c, cs);
    XorSolves(z, Pack(cs), BECH32M_CONST);
    XorStaysSmall(z, BECH32M_CONST);
    PackOfUnpack(Xor(z, BECH32M_CONST));
    UnpackOfPack(cs);
  }
}

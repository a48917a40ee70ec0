/** Regrouping the bits of a byte string (crates/crypto/src/bech32.rs,
    `convert_bits`), specified on the bits themselves. */
module Regroup {
  import opened Base

  type Byte = b: nat | b < 256

  function Pow2(n: nat): (p: nat)
    ensures p > 0
  {
    if n == 0 then 1 else 2 * Pow2(n - 1)
  }

  // u32 shifts and masks.
  const U32: nat := 0x1_0000_0000

  function Quotient(x: nat, d: nat): nat
    requires d > 0
  {
    x / d
  }

  function Shl(x: nat, k: nat): nat { x * Pow2(k) % U32 }

  function Shr(x: nat, k: nat): nat { Quotient(x, Pow2(k)) }

  /** `(x << k) | v` for a `v` of `k` bits: the shifted word ends in `k` zeros, so the union is a sum. */
  function ShlOr(x: nat, k: nat, v: nat): nat { (x * Pow2(k) + v) % U32 }

  function Mask(x: nat, w: nat): nat { x % Pow2(w) }

  // -- bits of numbers ------------------------------------------------------

  /** The low `n` bits of `x`, most significant first. */
  function Low(x: nat, n: nat): (bs: seq<bool>)
    ensures |bs| == n
  {
    if n == 0 then [] else Low(x / 2, n - 1) + [x % 2 == 1]
  }

  /** The number a bit string writes. */
  function Number(bs: seq<bool>): nat {
    if bs == [] then 0 else 2 * Number(bs[..|bs| - 1]) + (if bs[|bs| - 1] then 1 else 0)
  }

  function Falses(n: nat): seq<bool> { seq(n, _ => false) }

  lemma ProductAtLeast(k: nat, d: nat)
    requires k > 0
    ensures k * d >= d
  {
  }

  lemma Opposite(a: int, b: int, d: int)
    ensures (a - b) * d == -((b - a) * d)
  {
  }

  lemma DivisionIs(x: nat, d: nat, q: nat, r: nat)
    requires x == q * d + r && r < d
    ensures x / d == q && x % d == r
  {
    var q' := x / d;
    assert q * d == q' * d + (q - q') * d;
    if q' < q {
      ProductAtLeast(q - q', d);
    } else if q < q' {
      Opposite(q, q', d);
      ProductAtLeast(q' - q, d);
    }
  }

  lemma Halves(x: nat, p: nat)
    requires p > 0
    ensures x / (2 * p) == x / 2 / p
    ensures x % (2 * p) == 2 * (x / 2 % p) + x % 2
  {
    var q, r := x / 2 / p, x / 2 % p;
    assert x / 2 == q * p + r;
    assert x == q * (2 * p) + (2 * r + x % 2);
    DivisionIs(x, 2 * p, q, 2 * r + x % 2);
  }

  lemma LowUnfolds(x: nat, n: nat)
    requires n > 0
    ensures Low(x, n) == Low(x / 2, n - 1) + [x % 2 == 1]
  {
  }

  lemma {:induction false} LowSplits(x: nat, m: nat, k: nat)
    ensures Low(x, m + k) == Low(Shr(x, k), m) + Low(x, k)
    decreases k
  {
    if k > 0 {
      LowSplits(x / 2, m, k - 1);
      Halves(x, Pow2(k - 1));
      LowUnfolds(x, m + k);
      LowUnfolds(x, k);
    }
  }

  lemma {:induction false} LowOfMod(x: nat, m: nat, n: nat)
    requires n <= m
    ensures Low(x % Pow2(m), n) == Low(x, n)
    decreases n
  {
    if n > 0 {
      Halves(x, Pow2(m - 1));
      LowOfMod(x / 2, m - 1, n - 1);
    }
  }

  lemma {:induction false} LowOfShift(a: nat, k: nat)
    ensures Low(a * Pow2(k), k) == Falses(k)
    decreases k
  {
    if k > 0 {
      assert a * Pow2(k) == 2 * (a * Pow2(k - 1));
      LowOfShift(a, k - 1);
    }
  }

  lemma {:induction false} NumberOfLow(x: nat, n: nat)
    ensures Number(Low(x, n)) == x % Pow2(n)
    decreases n
  {
    if n > 0 {
      NumberOfLow(x / 2, n - 1);
      Halves(x, Pow2(n - 1));
      assert Low(x, n)[..n - 1] == Low(x / 2, n - 1);
    }
  }

  lemma {:induction false} LowOfNumber(bs: seq<bool>)
    ensures Low(Number(bs), |bs|) == bs && Number(bs) < Pow2(|bs|)
    decreases |bs|
  {
    if bs != [] {
      LowOfNumber(bs[..|bs| - 1]);
      assert bs == bs[..|bs| - 1] + [bs[|bs| - 1]];
    }
  }

  lemma {:induction false} NumberOfFalses(n: nat)
    ensures Number(Falses(n)) == 0
    decreases n
  {
    if n > 0 {
      assert Falses(n)[..n - 1] == Falses(n - 1);
      NumberOfFalses(n - 1);
    }
  }

  // -- bits of digit strings ------------------------------------------------

  ghost predicate Digits(ds: seq<nat>, w: nat) { forall i :: 0 <= i < |ds| ==> ds[i] < Pow2(w) }

  /** The bits of a string of `w`-bit digits, in order. */
  function Bits(ds: seq<nat>, w: nat): seq<bool> {
    if ds == [] then [] else Low(ds[0], w) + Bits(ds[1..], w)
  }

  /** A bit string cut into `w`-bit digits, dropping an incomplete last one. */
  function Group(bs: seq<bool>, w: nat): seq<nat>
    requires w > 0
    decreases |bs|
  {
    if |bs| < w then [] else [Number(bs[..w])] + Group(bs[w..], w)
  }

  lemma {:induction false} BitsLength(ds: seq<nat>, w: nat)
    ensures |Bits(ds, w)| == |ds| * w
  {
    if ds != [] {
      BitsLength(ds[1..], w);
      assert |ds| * w == w + (|ds| - 1) * w;
    }
  }

  lemma {:induction false} BitsOfConcat(xs: seq<nat>, ys: seq<nat>, w: nat)
    ensures Bits(xs + ys, w) == Bits(xs, w) + Bits(ys, w)
  {
    if xs == [] {
      assert xs + ys == ys;
    } else {
      assert (xs + ys)[1..] == xs[1..] + ys;
      BitsOfConcat(xs[1..], ys, w);
    }
  }

  lemma BitsOfOne(d: nat, w: nat)
    ensures Bits([d], w) == Low(d, w)
  {
    assert [d][1..] == [];
  }

  lemma BitsOfMore(ds: seq<nat>, d: nat, w: nat)
    ensures Bits(ds + [d], w) == Bits(ds, w) + Low(d, w)
  {
    BitsOfConcat(ds, [d], w);
    BitsOfOne(d, w);
  }

  lemma SmallMod(x: nat, p: nat)
    requires x < p
    ensures x % p == x
  {
  }

  /** A digit in front of other bits is the first one cut. */
  lemma {:induction false} GroupOfDigit(d: nat, w: nat, rest: seq<bool>)
    requires w > 0 && d < Pow2(w)
    ensures Group(Low(d, w) + rest, w) == [d] + Group(rest, w)
  {
    var bs := Low(d, w) + rest;
    assert bs[..w] == Low(d, w) && bs[w..] == rest;
    NumberOfLow(d, w);
    SmallMod(d, Pow2(w));
  }

  /** Cutting the bits of digits gives the digits back. */
  lemma {:induction false} GroupOfBits(ds: seq<nat>, w: nat)
    requires w > 0 && Digits(ds, w)
    ensures Group(Bits(ds, w), w) == ds
  {
    if ds != [] {
      GroupOfDigit(ds[0], w, Bits(ds[1..], w));
      GroupOfBits(ds[1..], w);
      assert ds == [ds[0]] + ds[1..];
    }
  }

  /** Digits cut from whole bits have those bits. */
  lemma {:induction false} BitsOfGroup(bs: seq<bool>, w: nat, n: nat)
    requires w > 0 && |bs| == n * w
    ensures Bits(Group(bs, w), w) == bs
    ensures |Group(bs, w)| == n && Digits(Group(bs, w), w)
    decreases n
  {
    if n > 0 {
      OneMore(n, w);
      var first, rest := bs[..w], bs[w..];
      GroupUnfolds(bs, w);
      LowOfNumber(first);
      BitsOfGroup(rest, w, n - 1);
      BitsOfCons(Number(first), Group(rest, w), w);
      DigitsCons(Number(first), Group(rest, w), w);
      assert bs == first + rest;
    }
  }

  lemma {:induction false} GroupUnfolds(bs: seq<bool>, w: nat)
    requires 0 < w <= |bs|
    ensures Group(bs, w) == [Number(bs[..w])] + Group(bs[w..], w)
  {
  }

  lemma DigitsCons(d: nat, rest: seq<nat>, w: nat)
    requires d < Pow2(w) && Digits(rest, w)
    ensures Digits([d] + rest, w)
  {
  }

  lemma OneMore(n: nat, w: nat)
    requires n > 0
    ensures n * w == w + (n - 1) * w >= w
  {
  }

  lemma {:induction false} BitsOfCons(d: nat, rest: seq<nat>, w: nat)
    ensures Bits([d] + rest, w) == Low(d, w) + Bits(rest, w)
  {
    assert ([d] + rest)[1..] == rest;
  }

  // -- regrouping -----------------------------------------------------------

  datatype BitsError = OutOfRange | InvalidPadding

  /** The bits that do not fill a last digit. */
  function Spare(n: nat, to: nat): (r: nat)
    requires to > 0
    ensures r <= n && r < to
  {
    n % to
  }

  function Slack(n: nat, to: nat): nat
    requires to > 0
  {
    if Spare(n, to) == 0 then 0 else to - Spare(n, to)
  }

  function Padded(bs: seq<bool>, to: nat): seq<bool>
    requires to > 0
  {
    bs + Falses(Slack(|bs|, to))
  }

  function Whole(bs: seq<bool>, to: nat): seq<bool>
    requires to > 0
  {
    bs[..|bs| - Spare(|bs|, to)]
  }

  function Remains(bs: seq<bool>, to: nat): seq<bool>
    requires to > 0
  {
    bs[|bs| - Spare(|bs|, to)..]
  }

  /** The same bits in digits of another width: padded with zeros, or, unpadded,
      with a remainder that is shorter than one input digit and all zeros. */
  ghost function Regrouped(data: seq<nat>, from: nat, to: nat, pad: bool): Result<seq<nat>, BitsError>
    requires to > 0
  {
    var bs := Bits(data, from);
    var remains := Remains(bs, to);
    if !Digits(data, from) then Err(OutOfRange)
    else if pad then Ok(Group(Padded(bs, to), to))
    else if |remains| >= from || remains != Falses(|remains|) then Err(InvalidPadding)
    else Ok(Group(Whole(bs, to), to))
  }

  lemma U32IsPow2()
    ensures Pow2(32) == U32
  {
    assert Pow2(8) == 256;
    assert Pow2(16) == 65536;
    assert Pow2(24) == 0x100_0000;
  }

  /** Taking in one digit: `(acc << from) | v`. */
  lemma TakeIn(acc: nat, bits: nat, from: nat, v: nat)
    requires bits + from <= 32 && v < Pow2(from)
    ensures Low(ShlOr(acc, from, v), bits + from) == Low(acc, bits) + Low(v, from)
  {
    var x := acc * Pow2(from) + v;
    U32IsPow2();
    LowOfMod(x, 32, bits + from);
    LowSplits(x, bits, from);
    DivisionIs(x, Pow2(from), acc, v);
    LowOfMod(x, from, from);
  }

  /** Giving out one digit: `(acc >> bits) & maxv`. */
  lemma GiveOut(acc: nat, bits: nat, to: nat)
    ensures Low(acc, to + bits) == Low(Mask(Shr(acc, bits), to), to) + Low(acc, bits)
    ensures Mask(Shr(acc, bits), to) < Pow2(to)
  {
    LowSplits(acc, to, bits);
    LowOfMod(Shr(acc, bits), to, to);
  }

  lemma ShiftedBits(acc: nat, bits: nat, to: nat, k: nat)
    requires bits + k == to <= 32
    ensures Low(Mask(Shl(acc, k), to), to) == Low(acc, bits) + Falses(k)
  {
    var x := acc * Pow2(k);
    U32IsPow2();
    LowOfMod(Shl(acc, k), to, to);
    LowOfMod(x, 32, to);
    LowSplits(x, bits, k);
    DivisionIs(x, Pow2(k), acc, 0);
    LowOfShift(acc, k);
  }

  lemma ZeroDigit(d: nat, to: nat)
    requires d < Pow2(to)
    ensures d == 0 <==> Low(d, to) == Falses(to)
  {
    NumberOfLow(d, to);
    SmallMod(d, Pow2(to));
    NumberOfFalses(to);
    LowOfZero(to);
  }

  lemma MaskIsSmall(x: nat, to: nat)
    ensures Mask(x, to) < Pow2(to)
  {
  }

  /** The last digit, padded: `(acc << (to - bits)) & maxv`. */
  lemma LastDigit(acc: nat, bits: nat, to: nat)
    requires bits <= to <= 32
    ensures Low(Mask(Shl(acc, to - bits), to), to) == Low(acc, bits) + Falses(to - bits)
    ensures Mask(Shl(acc, to - bits), to) == 0 <==> Low(acc, bits) == Falses(bits)
    ensures Mask(Shl(acc, to - bits), to) < Pow2(to)
  {
    var k := to - bits;
    ShiftedBits(acc, bits, to, k);
    MaskIsSmall(Shl(acc, k), to);
    ZeroDigit(Mask(Shl(acc, k), to), to);
    FalsesEnd(Low(acc, bits), k);
  }

  lemma FalsesEnd(bs: seq<bool>, k: nat)
    ensures bs + Falses(k) == Falses(|bs| + k) <==> bs == Falses(|bs|)
  {
    assert (bs + Falses(k))[..|bs|] == bs;
    assert Falses(|bs| + k)[..|bs|] == Falses(|bs|);
    assert Falses(|bs|) + Falses(k) == Falses(|bs| + k);
  }

  lemma {:induction false} LowOfZero(n: nat)
    ensures Low(0, n) == Falses(n)
    decreases n
  {
    if n > 0 {
      LowOfZero(n - 1);
    }
  }

  /** The digits given out and the bits still held are the bits taken in. */
  ghost predicate Conserved(taken: seq<nat>, from: nat, out: seq<nat>, to: nat, acc: nat, bits: nat) {
    && Digits(taken, from) && Digits(out, to)
    && Bits(out, to) + Low(acc, bits) == Bits(taken, from)
  }

  lemma ConservedTakingIn(taken: seq<nat>, from: nat, out: seq<nat>, to: nat, acc: nat, bits: nat, v: nat)
    requires Conserved(taken, from, out, to, acc, bits) && bits + from <= 32 && v < Pow2(from)
    ensures Conserved(taken + [v], from, out, to, ShlOr(acc, from, v), bits + from)
  {
    TakeIn(acc, bits, from, v);
    BitsOfMore(taken, v, from);
    Regrouping(Bits(out, to), Low(acc, bits), Low(v, from));
  }

  lemma Regrouping(a: seq<bool>, b: seq<bool>, c: seq<bool>)
    ensures (a + b) + c == a + (b + c)
  {
  }

  lemma ConservedGivingOut(taken: seq<nat>, from: nat, out: seq<nat>, to: nat, acc: nat, held: nat, bits: nat)
    requires Conserved(taken, from, out, to, acc, held) && held == bits + to
    ensures Conserved(taken, from, out + [Mask(Shr(acc, bits), to)], to, acc, bits)
  {
    var digit := Mask(Shr(acc, bits), to);
    GiveOut(acc, bits, to);
    BitsOfMore(out, digit, to);
    Regrouping(Bits(out, to), Low(digit, to), Low(acc, bits));
  }

  /** Gives out whole digits while the accumulator holds one. */
  method Drain(ghost taken: seq<nat>, ghost from: nat, start: seq<nat>, to: nat, acc: nat, held: nat)
    returns (out: seq<nat>, bits: nat)
    requires to > 0 && Conserved(taken, from, start, to, acc, held)
    ensures Conserved(taken, from, out, to, acc, bits) && bits < to
  {
    out, bits := start, held;
    while bits >= to
      invariant Conserved(taken, from, out, to, acc, bits)
    {
      ConservedGivingOut(taken, from, out, to, acc, bits, bits - to);
      bits := bits - to;
      out := out + [Mask(Shr(acc, bits), to)];
    }
  }

  method ConvertBits(data: seq<Byte>, from: nat, to: nat, pad: bool) returns (r: Result<seq<nat>, BitsError>)
    requires 0 < from <= 8 && 0 < to <= 8
    ensures r == Regrouped(data, from, to, pad)
  {
    var acc: nat, bits: nat, i := 0, 0, 0;
    var out: seq<nat> := [];
    ghost var taken: seq<nat> := [];
    while i < |data|
      invariant 0 <= i <= |data| && bits < to
      invariant taken == data[..i] && Conserved(taken, from, out, to, acc, bits)
    {
      var v := data[i];
      if Shr(v, from) != 0 {
        OutOfRangeDigit(v, from);
        RangeRefused(data, i, from, to, pad);
        return Err(OutOfRange);
      }
      InRangeDigit(v, from);
      ConservedTakingIn(taken, from, out, to, acc, bits, v);
      taken := taken + [v];
      acc := ShlOr(acc, from, v);
      out, bits := Drain(taken, from, out, to, acc, bits + from);
      i := i + 1;
    }
    assert taken == data;
    var last := Mask(Shl(acc, to - bits), to);
    Finished(data, from, out, to, acc, bits, last);
    if pad {
      if bits > 0 {
        out := out + [last];
      }
    } else if bits >= from || last != 0 {
      return Err(InvalidPadding);
    }
    return Ok(out);
  }

  lemma QuotientIsZero(v: nat, p: nat)
    requires p > 0
    ensures Quotient(v, p) == 0 <==> v < p
  {
    assert v == Quotient(v, p) * p + v % p;
    if v < p {
      DivisionIs(v, p, 0, v);
    }
  }

  lemma OutOfRangeDigit(v: nat, from: nat)
    requires Shr(v, from) != 0
    ensures v >= Pow2(from)
  {
    QuotientIsZero(v, Pow2(from));
  }

  lemma InRangeDigit(v: nat, from: nat)
    requires Shr(v, from) == 0
    ensures v < Pow2(from)
  {
    QuotientIsZero(v, Pow2(from));
  }

  lemma RangeRefused(data: seq<nat>, i: nat, from: nat, to: nat, pad: bool)
    requires i < |data| && to > 0 && data[i] >= Pow2(from)
    ensures Regrouped(data, from, to, pad) == Err(OutOfRange)
  {
  }

  /** What is left after the last whole digit. */
  lemma Leftover(bs: seq<bool>, to: nat, out: seq<nat>, tail: seq<bool>)
    requires |tail| < to && bs == Bits(out, to) + tail
    ensures Whole(bs, to) == Bits(out, to) && Remains(bs, to) == tail && Spare(|bs|, to) == |tail|
  {
    BitsLength(out, to);
    DivisionIs(|bs|, to, |out|, |tail|);
  }

  lemma FinishedUnpadded(data: seq<nat>, from: nat, to: nat, out: seq<nat>, acc: nat, bits: nat)
    requires 0 < to <= 32 && bits < to && Digits(data, from) && Digits(out, to)
    requires Bits(out, to) + Low(acc, bits) == Bits(data, from)
    ensures Regrouped(data, from, to, false)
         == if bits >= from || Mask(Shl(acc, to - bits), to) != 0 then Err(InvalidPadding) else Ok(out)
  {
    Leftover(Bits(data, from), to, out, Low(acc, bits));
    LastDigit(acc, bits, to);
    GroupOfBits(out, to);
  }

  lemma PaddedBits(bs: seq<bool>, to: nat, out: seq<nat>, acc: nat, bits: nat, last: nat)
    requires 0 < to <= 32 && bits < to && Bits(out, to) + Low(acc, bits) == bs
    requires last == Mask(Shl(acc, to - bits), to)
    ensures Padded(bs, to) == Bits(if bits > 0 then out + [last] else out, to)
  {
    Leftover(bs, to, out, Low(acc, bits));
    if bits > 0 {
      LastDigit(acc, bits, to);
      BitsOfMore(out, last, to);
    }
  }

  lemma FinishedPadded(data: seq<nat>, from: nat, to: nat, out: seq<nat>, acc: nat, bits: nat, last: nat)
    requires 0 < to <= 32 && bits < to && Digits(data, from) && Digits(out, to)
    requires Bits(out, to) + Low(acc, bits) == Bits(data, from)
    requires last == Mask(Shl(acc, to - bits), to)
    ensures Regrouped(data, from, to, true) == Ok(if bits > 0 then out + [last] else out)
  {
    PaddedBits(Bits(data, from), to, out, acc, bits, last);
    LastDigit(acc, bits, to);
    GroupOfBits(if bits > 0 then out + [last] else out, to);
  }

  lemma Finished(data: seq<nat>, from: nat, out: seq<nat>, to: nat, acc: nat, bits: nat, last: nat)
    requires 0 < to <= 32 && bits < to && Conserved(data, from, out, to, acc, bits)
    requires last == Mask(Shl(acc, to - bits), to)
    ensures Regrouped(data, from, to, false) == if bits >= from || last != 0 then Err(InvalidPadding) else Ok(out)
    ensures Regrouped(data, from, to, true) == Ok(if bits > 0 then out + [last] else out)
  {
    FinishedUnpadded(data, from, to, out, acc, bits);
    FinishedPadded(data, from, to, out, acc, bits, last);
  }
}

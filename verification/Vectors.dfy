/** Strings published with BIP-350 that the codec has to agree with: they tie
    down the expansion of the prefix, the generators, the final constant and the
    digits of the checksum. */
module Vectors {
  import opened Base
  import opened Checksum
  import opened Regroup
  import opened Bech32

  type Stepper = (bv32, Digit) -> bv32

  /** A checksum step under another name, so that it is computed one literal at a time. */
  ghost predicate Feeds(step: Stepper) { forall c, d :: step(c, d) == Feed(c, d) }

  lemma {:induction false} FoldThree(
    step: Stepper, s0: bv32, a: Digit, s1: bv32, b: Digit, s2: bv32, c: Digit, s3: bv32, rest: seq<Digit>)
    requires step(s0, a) == s1 && step(s1, b) == s2 && step(s2, c) == s3
    ensures Fold(step, s0, [a, b, c] + rest) == Fold(step, s3, rest)
  {
    assert ([a, b, c] + rest)[1..] == [b, c] + rest && ([b, c] + rest)[1..] == [c] + rest && ([c] + rest)[1..] == rest;
    assert Fold(step, s2, [c] + rest) == Fold(step, s3, rest);
    assert Fold(step, s1, [b, c] + rest) == Fold(step, s2, [c] + rest);
  }

  lemma SpellsNothing(hrp: Text, e: seq<Digit>, sum: seq<Digit>)
    requires Expand(hrp) == e && |sum| == CHECKSUM_LENGTH && Polymod(e + sum) == BECH32M_CONST
    ensures Spelling(hrp, Fives([])) == hrp + ['1'] + Chars(sum)
  {
    OneChecksumAccepted(e, sum);
    assert Bits([], 8) == [] && Fives([]) == [];
    assert e + [] == e && [] + sum == sum;
  }

  lemma NothingUnder(hrp: Text, e: seq<Digit>, sum: seq<Digit>, s: Text)
    requires hrp != [] && Printable(hrp) && NoUpper(hrp)
    requires Expand(hrp) == e && |sum| == CHECKSUM_LENGTH && Polymod(e + sum) == BECH32M_CONST
    requires s == hrp + ['1'] + Chars(sum) && |s| <= MAX_LEN
    ensures Encoded(hrp, []) == Ok(s) && Decoded(s) == Ok((hrp, []))
  {
    SpellsNothing(hrp, e, sum);
    DecodeOfEncode(hrp, []);
  }

  // -- "a1lqfn3a" -----------------------------------------------------------

  lemma LetterPrefixSteps(step: Stepper)
    requires Feeds(step)
    ensures step(0x0000_0001, 3) == 0x0000_0023
    ensures step(0x0000_0023, 0) == 0x0000_0460
    ensures step(0x0000_0460, 1) == 0x0000_8c01
  {
  }

  lemma LetterStartSteps(step: Stepper)
    requires Feeds(step)
    ensures step(0x0000_8c01, 31) == 0x0011_803f
    ensures step(0x0011_803f, 0) == 0x0230_07e0
    ensures step(0x0230_07e0, 9) == 0x3d6a_abbb
  {
  }

  lemma LetterEndSteps(step: Stepper)
    requires Feeds(step)
    ensures step(0x3d6a_abbb, 19) == 0x02f2_b18a
    ensures step(0x02f2_b18a, 17) == 0x253c_66e3
    ensures step(0x253c_66e3, 29) == 0x2bc8_30a3
  {
  }

  lemma {:induction false} LetterPrefixFold(step: Stepper, rest: seq<Digit>)
    requires Feeds(step)
    ensures Fold(step, 0x0000_0001, [3, 0, 1] + rest) == Fold(step, 0x0000_8c01, rest)
  {
    LetterPrefixSteps(step);
    FoldThree(step, 0x0000_0001, 3, 0x0000_0023, 0, 0x0000_0460, 1, 0x0000_8c01, rest);
  }

  lemma {:induction false} LetterStartFold(step: Stepper, rest: seq<Digit>)
    requires Feeds(step)
    ensures Fold(step, 0x0000_8c01, [31, 0, 9] + rest) == Fold(step, 0x3d6a_abbb, rest)
  {
    LetterStartSteps(step);
    FoldThree(step, 0x0000_8c01, 31, 0x0011_803f, 0, 0x0230_07e0, 9, 0x3d6a_abbb, rest);
  }

  lemma {:induction false} LetterEndFold(step: Stepper, rest: seq<Digit>)
    requires Feeds(step)
    ensures Fold(step, 0x3d6a_abbb, [19, 17, 29] + rest) == Fold(step, 0x2bc8_30a3, rest)
  {
    LetterEndSteps(step);
    FoldThree(step, 0x3d6a_abbb, 19, 0x02f2_b18a, 17, 0x253c_66e3, 29, 0x2bc8_30a3, rest);
  }

  lemma {:induction false} LetterFold(step: Stepper)
    requires Feeds(step)
    ensures Fold(step, 1, [3, 0, 1] + ([31, 0, 9] + ([19, 17, 29] + []))) == BECH32M_CONST
  {
    LetterPrefixFold(step, [31, 0, 9] + ([19, 17, 29] + []));
    LetterStartFold(step, [19, 17, 29] + []);
    LetterEndFold(step, []);
  }

  lemma {:induction false} LetterPolymod(e: seq<Digit>, sum: seq<Digit>)
    requires e == [3, 0, 1] && sum == [31, 0, 9, 19, 17, 29]
    ensures Polymod(e + sum) == BECH32M_CONST
  {
    LetterFold(Feed);
    assert e + sum == [3, 0, 1] + ([31, 0, 9] + ([19, 17, 29] + []));
  }

  lemma LetterParts()
    ensures Expand("a") == [3, 0, 1] && Chars([31, 0, 9, 19, 17, 29]) == "lqfn3a"
    ensures "a" + ['1'] + "lqfn3a" == "a1lqfn3a"
  {
  }

  /** No data under the prefix "a" is written "a1lqfn3a", and reads back. */
  lemma LetterVector(hrp: Text, s: Text)
    requires hrp == "a" && s == "a1lqfn3a"
    ensures Encoded(hrp, []) == Ok(s) && Decoded(s) == Ok((hrp, []))
  {
    var e, sum := [3, 0, 1], [31, 0, 9, 19, 17, 29];
    LetterParts();
    LetterPolymod(e, sum);
    NothingUnder(hrp, e, sum, s);
  }

  /** A string in capitals reads as it does in lowercase. */
  lemma CapitalsDecode(s: Text, t: Text, hrp: Text, data: seq<Byte>)
    requires NoLower(t) && Lower(t) == s && Decoded(s) == Ok((hrp, data))
    ensures Decoded(t) == Ok((hrp, data))
  {
    assert NoUpper(s);
    LowerOfLower(s);
    DecodesExactlyWhen(s, hrp, data);
    DecodesExactlyWhen(t, hrp, data);
  }

  lemma CapitalsOf(s: Text, t: Text)
    requires s == "a1lqfn3a" && t == "A1LQFN3A"
    ensures NoLower(t) && Lower(t) == s
  {
  }

  lemma CapitalVector(hrp: Text, s: Text, t: Text)
    requires hrp == "a" && s == "a1lqfn3a" && t == "A1LQFN3A"
    ensures Decoded(t) == Ok((hrp, []))
  {
    LetterVector(hrp, s);
    CapitalsOf(s, t);
    CapitalsDecode(s, t, hrp, []);
  }

  // -- "?1v759aa" -----------------------------------------------------------

  lemma MarkPrefixSteps(step: Stepper)
    requires Feeds(step)
    ensures step(0x0000_0001, 1) == 0x0000_0021
    ensures step(0x0000_0021, 0) == 0x0000_0420
    ensures step(0x0000_0420, 31) == 0x0000_841f
  {
  }

  lemma MarkStartSteps(step: Stepper)
    requires Feeds(step)
    ensures step(0x0000_841f, 12) == 0x0010_83ec
    ensures step(0x0010_83ec, 30) == 0x0210_7d9e
    ensures step(0x0210_7d9e, 20) == 0x3965_e466
  {
  }

  lemma MarkEndSteps(step: Stepper)
    requires Feeds(step)
    ensures step(0x3965_e466, 5) == 0x254b_c451
    ensures step(0x254b_c451, 29) == 0x253c_66e3
    ensures step(0x253c_66e3, 29) == 0x2bc8_30a3
  {
  }

  lemma {:induction false} MarkPrefixFold(step: Stepper, rest: seq<Digit>)
    requires Feeds(step)
    ensures Fold(step, 0x0000_0001, [1, 0, 31] + rest) == Fold(step, 0x0000_841f, rest)
  {
    MarkPrefixSteps(step);
    FoldThree(step, 0x0000_0001, 1, 0x0000_0021, 0, 0x0000_0420, 31, 0x0000_841f, rest);
  }

  lemma {:induction false} MarkStartFold(step: Stepper, rest: seq<Digit>)
    requires Feeds(step)
    ensures Fold(step, 0x0000_841f, [12, 30, 20] + rest) == Fold(step, 0x3965_e466, rest)
  {
    MarkStartSteps(step);
    FoldThree(step, 0x0000_841f, 12, 0x0010_83ec, 30, 0x0210_7d9e, 20, 0x3965_e466, rest);
  }

  lemma {:induction false} MarkEndFold(step: Stepper, rest: seq<Digit>)
    requires Feeds(step)
    ensures Fold(step, 0x3965_e466, [5, 29, 29] + rest) == Fold(step, 0x2bc8_30a3, rest)
  {
    MarkEndSteps(step);
    FoldThree(step, 0x3965_e466, 5, 0x254b_c451, 29, 0x253c_66e3, 29, 0x2bc8_30a3, rest);
  }

  lemma {:induction false} MarkFold(step: Stepper)
    requires Feeds(step)
    ensures Fold(step, 1, [1, 0, 31] + ([12, 30, 20] + ([5, 29, 29] + []))) == BECH32M_CONST
  {
    MarkPrefixFold(step, [12, 30, 20] + ([5, 29, 29] + []));
    MarkStartFold(step, [5, 29, 29] + []);
    MarkEndFold(step, []);
  }

  lemma {:induction false} MarkPolymod(e: seq<Digit>, sum: seq<Digit>)
    requires e == [1, 0, 31] && sum == [12, 30, 20, 5, 29, 29]
    ensures Polymod(e + sum) == BECH32M_CONST
  {
    MarkFold(Feed);
    assert e + sum == [1, 0, 31] + ([12, 30, 20] + ([5, 29, 29] + []));
  }

  lemma MarkParts()
    ensures Expand("?") == [1, 0, 31] && Chars([12, 30, 20, 5, 29, 29]) == "v759aa"
    ensures "?" + ['1'] + "v759aa" == "?1v759aa"
  {
  }

  /** No data under the prefix "?" is written "?1v759aa", and reads back. */
  lemma MarkVector(hrp: Text, s: Text)
    requires hrp == "?" && s == "?1v759aa"
    ensures Encoded(hrp, []) == Ok(s) && Decoded(s) == Ok((hrp, []))
  {
    var e, sum := [1, 0, 31], [12, 30, 20, 5, 29, 29];
    MarkParts();
    MarkPolymod(e, sum);
    NothingUnder(hrp, e, sum, s);
  }
}

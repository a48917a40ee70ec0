/** The Bech32m codec (crates/crypto/src/bech32.rs). Text is a string of octets. */
module Bech32 {
  import opened Base
  import opened Checksum
  import opened Regroup

  type Octet = c: char | c as int < 256 witness 'a'

  type Text = seq<Octet>

  const MAX_LEN: nat := 90

  datatype CodecError =
    | EmptyPrefix | PrefixOutOfRange | PrefixUppercase | TooLong
    | MixedCase | NoSeparator | DataTooShort | InvalidCharacter | ChecksumMismatch | Regrouping(bits: BitsError)

  // -- characters -----------------------------------------------------------

  const CHARSET: Text := "qpzry9x8gf2tvdw0s3jn54khce6mua7l"

  function CharOf(d: Digit): Octet { CHARSET[d] }

  function IndexOf(c: Octet): Option<Digit> {
    match c
    case 'q' => Some(0)
    case 'p' => Some(1)
    case 'z' => Some(2)
    case 'r' => Some(3)
    case 'y' => Some(4)
    case '9' => Some(5)
    case 'x' => Some(6)
    case '8' => Some(7)
    case 'g' => Some(8)
    case 'f' => Some(9)
    case '2' => Some(10)
    case 't' => Some(11)
    case 'v' => Some(12)
    case 'd' => Some(13)
    case 'w' => Some(14)
    case '0' => Some(15)
    case 's' => Some(16)
    case '3' => Some(17)
    case 'j' => Some(18)
    case 'n' => Some(19)
    case '5' => Some(20)
    case '4' => Some(21)
    case 'k' => Some(22)
    case 'h' => Some(23)
    case 'c' => Some(24)
    case 'e' => Some(25)
    case '6' => Some(26)
    case 'm' => Some(27)
    case 'u' => Some(28)
    case 'a' => Some(29)
    case '7' => Some(30)
    case 'l' => Some(31)
    case _ => None
  }

  predicate IsLower(c: Octet) { 'a' <= c <= 'z' }

  predicate IsUpper(c: Octet) { 'A' <= c <= 'Z' }

  function LowerChar(c: Octet): Octet { if IsUpper(c) then (c as int + 32) as char else c }

  function Lower(s: Text): (r: Text)
    ensures |r| == |s|
    ensures forall i :: 0 <= i < |s| ==> r[i] == LowerChar(s[i])
  {
    seq(|s|, i requires 0 <= i < |s| => LowerChar(s[i]))
  }

  lemma IndexOfChar(d: Digit)
    ensures IndexOf(CharOf(d)) == Some(d)
  {
  }

  lemma CharOfIndex(c: Octet)
    requires IndexOf(c).Some?
    ensures CharOf(IndexOf(c).value) == c
    ensures c != '1' && !IsUpper(c)
  {
  }

  // -- the prefix -----------------------------------------------------------

  predicate Printable(hrp: Text) { forall i :: 0 <= i < |hrp| ==> 33 <= hrp[i] as int <= 126 }

  predicate NoUpper(s: Text) { forall i :: 0 <= i < |s| ==> !IsUpper(s[i]) }

  predicate NoLower(s: Text) { forall i :: 0 <= i < |s| ==> !IsLower(s[i]) }

  /** The prefix as checksum digits: the high bits, a zero, the low bits. */
  function Expand(hrp: Text): seq<Digit> {
    seq(|hrp|, i requires 0 <= i < |hrp| => hrp[i] as int / 32)
    + [0]
    + seq(|hrp|, i requires 0 <= i < |hrp| => hrp[i] as int % 32)
  }

  /** Nothing of the prefix is lost to the checksum: each character is its high part times 32 and its low part. */
  lemma ExpandSays(hrp: Text)
    ensures |Expand(hrp)| == 2 * |hrp| + 1 && Expand(hrp)[|hrp|] == 0
    ensures forall i :: 0 <= i < |hrp| ==> Expand(hrp)[i] as int * 32 + Expand(hrp)[|hrp| + 1 + i] == hrp[i] as int
  {
  }

  // -- digits and characters ------------------------------------------------

  function Chars(ds: seq<Digit>): (s: Text)
    ensures |s| == |ds|
    ensures forall i :: 0 <= i < |ds| ==> s[i] == CharOf(ds[i])
  {
    seq(|ds|, i requires 0 <= i < |ds| => CharOf(ds[i]))
  }

  predicate InCharset(s: Text) { forall i :: 0 <= i < |s| ==> IndexOf(s[i]).Some? }

  function Indices(s: Text): (ds: seq<Digit>)
    requires InCharset(s)
    ensures |ds| == |s|
    ensures forall i :: 0 <= i < |s| ==> IndexOf(s[i]) == Some(ds[i])
  {
    seq(|s|, i requires 0 <= i < |s| => IndexOf(s[i]).value)
  }

  lemma IndicesOfChars(ds: seq<Digit>)
    ensures InCharset(Chars(ds)) && Indices(Chars(ds)) == ds
  {
    forall i | 0 <= i < |ds| ensures IndexOf(Chars(ds)[i]) == Some(ds[i]) { IndexOfChar(ds[i]); }
  }

  lemma CharsOfIndices(s: Text)
    requires InCharset(s)
    ensures Chars(Indices(s)) == s && NoUpper(s) && '1' !in s
  {
    forall i | 0 <= i < |s| ensures CharOf(IndexOf(s[i]).value) == s[i] && s[i] != '1' && !IsUpper(s[i]) {
      CharOfIndex(s[i]);
    }
  }

  // -- regrouping -----------------------------------------------------------

  lemma Widths()
    ensures Pow2(5) == 32 && Pow2(8) == 256
  {
  }

  lemma BytesAreDigits(data: seq<Byte>)
    ensures Digits(data, 8)
  {
    Widths();
  }

  lemma PaddedIsWhole(n: nat, to: nat, k: nat)
    requires to > 0 && k == n / to + (if n % to == 0 then 0 else 1)
    ensures n + Slack(n, to) == k * to
  {
    assert n == (n / to) * to + n % to;
    assert (n / to + 1) * to == (n / to) * to + to;
  }

  /** Bits cut into whole digits of `w` bits. */
  lemma WholeDigits(bs: seq<bool>, w: nat, n: nat)
    requires w > 0 && |bs| == n * w
    ensures Bits(Group(bs, w), w) == bs && Digits(Group(bs, w), w)
  {
    BitsOfGroup(bs, w, n);
  }

  /** The payload digits of a byte string. */
  ghost function Fives(data: seq<Byte>): (p: seq<Digit>)
    ensures Regrouped(data, 8, 5, true) == Ok(p)
    ensures Bits(p, 5) == Padded(Bits(data, 8), 5)
  {
    var bs := Bits(data, 8);
    var k := |bs| / 5 + (if |bs| % 5 == 0 then 0 else 1);
    BytesAreDigits(data);
    PaddedIsWhole(|bs|, 5, k);
    WholeDigits(Padded(bs, 5), 5, k);
    Widths();
    Group(Padded(bs, 5), 5)
  }

  lemma DigitsAreFives(p: seq<Digit>)
    ensures Digits(p, 5)
  {
    Widths();
  }

  /** Bytes regrouped into digits, padded, regroup into the bytes again. */
  lemma BytesComeBack(data: seq<Byte>)
    ensures Regrouped(Fives(data), 5, 8, false) == Ok(data)
  {
    var p := Fives(data);
    var bs := Bits(data, 8);
    var slack := Slack(|bs|, 5);
    DigitsAreFives(p);
    BytesAreDigits(data);
    BitsLength(data, 8);
    Leftover(bs + Falses(slack), 8, data, Falses(slack));
    GroupOfBits(data, 8);
  }

  lemma SlackIs(n: nat, spare: nat, k: nat)
    requires n + spare == k * 5 && spare < 5
    ensures Slack(n, 5) == spare
  {
  }

  /** Digits that regroup into bytes are the digits those bytes are written with. */
  lemma DigitsComeBack(p: seq<Digit>, data: seq<nat>)
    requires Regrouped(p, 5, 8, false) == Ok(data)
    ensures (forall i :: 0 <= i < |data| ==> data[i] < 256)
    ensures Fives(data) == p
  {
    var bs := Bits(p, 5);
    var whole := Whole(bs, 8);
    WholeDigits(whole, 8, |bs| / 8);
    Widths();
    BytesAreDigits(data);
    BitsLength(p, 5);
    SlackIs(|whole|, |Remains(bs, 8)|, |p|);
    assert Padded(whole, 5) == bs;
    DigitsAreFives(p);
    GroupOfBits(p, 5);
  }

  // -- encode ---------------------------------------------------------------

  /** The one lowercase spelling of a prefix and a payload. */
  function Spelling(hrp: Text, payload: seq<Digit>): Text {
    hrp + ['1'] + Chars(payload + ChecksumOf(Expand(hrp) + payload))
  }

  ghost function Encoded(hrp: Text, data: seq<Byte>): Result<Text, CodecError> {
    if hrp == [] then Err(EmptyPrefix)
    else if !Printable(hrp) then Err(PrefixOutOfRange)
    else if !NoUpper(hrp) then Err(PrefixUppercase)
    else if |Spelling(hrp, Fives(data))| > MAX_LEN then Err(TooLong)
    else Ok(Spelling(hrp, Fives(data)))
  }

  // -- decode ---------------------------------------------------------------

  /** The position of the last separator. */
  function LastSeparator(s: Text): (r: Option<nat>)
    ensures r.None? ==> '1' !in s
    ensures r.Some? ==> r.value < |s| && s[r.value] == '1' && '1' !in s[r.value + 1..]
  {
    if s == [] then None
    else if s[|s| - 1] == '1' then Some(|s| - 1)
    else
      var r := LastSeparator(s[..|s| - 1]);
      assert s == s[..|s| - 1] + [s[|s| - 1]];
      assert r.Some? ==> s[r.value + 1..] == s[..|s| - 1][r.value + 1..] + [s[|s| - 1]];
      r
  }

  /** A string of one case split, in lowercase, at its last separator. */
  function Split(s: Text): Result<(Text, Text), CodecError> {
    if |s| > MAX_LEN then Err(TooLong)
    else if !NoLower(s) && !NoUpper(s) then Err(MixedCase)
    else
      match LastSeparator(Lower(s))
      case None => Err(NoSeparator)
      case Some(k) => Ok((Lower(s)[..k], Lower(s)[k + 1..]))
  }

  ghost function Decoded(s: Text): Result<(Text, seq<nat>), CodecError> {
    match Split(s)
    case Err(e) => Err(e)
    case Ok((hrp, tail)) => DecodedParts(hrp, tail)
  }

  ghost function DecodedParts(hrp: Text, tail: Text): Result<(Text, seq<nat>), CodecError> {
    if hrp == [] then Err(EmptyPrefix)
    else if |tail| < CHECKSUM_LENGTH then Err(DataTooShort)
    else if !InCharset(tail) then Err(InvalidCharacter)
    else if Polymod(Expand(hrp) + Indices(tail)) != BECH32M_CONST then Err(ChecksumMismatch)
    else
      match Regrouped(Indices(tail)[..|tail| - CHECKSUM_LENGTH], 5, 8, false)
      case Err(e) => Err(Regrouping(e))
      case Ok(data) => Ok((hrp, data))
  }

  lemma {:induction false} SeparatorAt(hrp: Text, tail: Text)
    requires '1' !in tail
    ensures LastSeparator(hrp + ['1'] + tail) == Some(|hrp|)
    decreases |tail|
  {
    var s := hrp + ['1'] + tail;
    if tail != [] {
      assert s[..|s| - 1] == hrp + ['1'] + tail[..|tail| - 1];
      SeparatorAt(hrp, tail[..|tail| - 1]);
    }
  }

  lemma SplitAt(s: Text, hrp: Text, tail: Text)
    requires Lower(s) == hrp + ['1'] + tail && '1' !in tail
    ensures Split(s).Ok? <==> |s| <= MAX_LEN && (NoLower(s) || NoUpper(s))
    ensures Split(s).Ok? ==> Split(s) == Ok((hrp, tail))
  {
    SeparatorAt(hrp, tail);
    assert Lower(s)[..|hrp|] == hrp && Lower(s)[|hrp| + 1..] == tail;
  }

  lemma SplitParts(s: Text, hrp: Text, tail: Text)
    requires Split(s) == Ok((hrp, tail))
    ensures LastSeparator(Lower(s)) == Some(|hrp|) && Lower(s) == hrp + ['1'] + tail && '1' !in tail
    ensures |s| <= MAX_LEN && NoUpper(hrp)
  {
    assert NoUpper(Lower(s));
    assert forall i :: 0 <= i < |hrp| ==> hrp[i] == Lower(s)[i];
  }

  lemma LowerOfLower(s: Text)
    requires NoUpper(s)
    ensures Lower(s) == s
  {
  }

  /** The digits of an accepted tail: a payload and the one checksum that goes with it. */
  lemma AcceptedTail(hrp: Text, tail: Text)
    requires |tail| >= CHECKSUM_LENGTH && InCharset(tail)
    ensures var payload := Indices(tail)[..|tail| - CHECKSUM_LENGTH];
      Polymod(Expand(hrp) + Indices(tail)) == BECH32M_CONST
      <==> Indices(tail) == payload + ChecksumOf(Expand(hrp) + payload)
  {
    var ds := Indices(tail);
    var payload, sum := ds[..|tail| - CHECKSUM_LENGTH], ds[|tail| - CHECKSUM_LENGTH..];
    assert Expand(hrp) + ds == (Expand(hrp) + payload) + sum;
    assert ds == payload + sum;
    OneChecksumAccepted(Expand(hrp) + payload, sum);
  }

  /** A spelling that is short enough, of a prefix with no capital, decodes to what it spells. */
  lemma DecodeOfSpelling(hrp: Text, data: seq<Byte>)
    requires hrp != [] && NoUpper(hrp) && |Spelling(hrp, Fives(data))| <= MAX_LEN
    ensures Decoded(Spelling(hrp, Fives(data))) == Ok((hrp, data))
  {
    var payload := Fives(data);
    var ds := payload + ChecksumOf(Expand(hrp) + payload);
    var s := Spelling(hrp, payload);
    IndicesOfChars(ds);
    CharsOfIndices(Chars(ds));
    assert NoUpper(s);
    LowerOfLower(s);
    SplitAt(s, hrp, Chars(ds));
    assert ds[..|ds| - CHECKSUM_LENGTH] == payload;
    AcceptedTail(hrp, Chars(ds));
    BytesComeBack(data);
  }

  /** Whatever `encode` produces, `decode` takes apart again. */
  lemma DecodeOfEncode(hrp: Text, data: seq<Byte>)
    requires Encoded(hrp, data).Ok?
    ensures Decoded(Encoded(hrp, data).value) == Ok((hrp, data))
  {
    DecodeOfSpelling(hrp, data);
  }

  lemma AcceptedParts(hrp: Text, tail: Text, prefix: Text, data: seq<nat>)
    requires DecodedParts(hrp, tail) == Ok((prefix, data))
    ensures hrp == prefix != []
    ensures forall i :: 0 <= i < |data| ==> data[i] < 256
    ensures hrp + ['1'] + tail == Spelling(hrp, Fives(data))
  {
    var payload := Indices(tail)[..|tail| - CHECKSUM_LENGTH];
    AcceptedTail(hrp, tail);
    CharsOfIndices(tail);
    DigitsComeBack(payload, data);
  }

  /** An accepted string is, up to case, the one spelling of what it decodes to. */
  lemma AcceptedSpelling(s: Text, hrp: Text, data: seq<nat>)
    requires Decoded(s) == Ok((hrp, data))
    ensures hrp != [] && NoUpper(hrp) && |s| <= MAX_LEN
    ensures forall i :: 0 <= i < |data| ==> data[i] < 256
    ensures Lower(s) == Spelling(hrp, Fives(data))
  {
    var (prefix, tail) := Split(s).value;
    SplitParts(s, prefix, tail);
    AcceptedParts(prefix, tail, hrp, data);
  }

  /** Encoding what was decoded gives the lowercase of the string exactly when the prefix is printable. */
  lemma EncodeOfDecode(s: Text, hrp: Text, data: seq<Byte>)
    requires Decoded(s) == Ok((hrp, data))
    ensures Encoded(hrp, data) == if Printable(hrp) then Ok(Lower(s)) else Err(PrefixOutOfRange)
  {
    AcceptedSpelling(s, hrp, data);
  }

  /** `decode` takes every prefix `encode` refuses as unprintable, whatever the
      data, as long as the string is short enough and has no capital. */
  lemma UnprintableDecodes(hrp: Text, data: seq<Byte>)
    requires !Printable(hrp) && NoUpper(hrp) && |Spelling(hrp, Fives(data))| <= MAX_LEN
    ensures Decoded(Spelling(hrp, Fives(data))) == Ok((hrp, data))
    ensures Encoded(hrp, data) == Err(PrefixOutOfRange)
  {
    DecodeOfSpelling(hrp, data);
  }

  /** Such strings exist: every control character, and space, is such a prefix on its own. */
  lemma UnprintableExample(c: Octet)
    requires c as int < 33 || c as int == 127
    ensures Decoded(Spelling([c], Fives([]))) == Ok(([c], [])) && Encoded([c], []) == Err(PrefixOutOfRange)
  {
    assert Bits([], 8) == [];
    assert !(33 <= [c][0] as int <= 126);
    UnprintableDecodes([c], []);
  }

  /** One payload has one spelling: strings that decode alike differ in case only. */
  lemma OneSpelling(s: Text, t: Text)
    requires Decoded(s).Ok? && Decoded(s) == Decoded(t)
    ensures Lower(s) == Lower(t)
  {
    AcceptedSpelling(s, Decoded(s).value.0, Decoded(s).value.1);
    AcceptedSpelling(t, Decoded(s).value.0, Decoded(s).value.1);
  }

  lemma FivesLength(data: seq<Byte>)
    ensures |Fives(data)| == (8 * |data| + 4) / 5
  {
    BitsLength(data, 8);
    BitsLength(Fives(data), 5);
    StartedFives(8 * |data|, |Fives(data)|);
  }

  lemma StartedFives(n: nat, k: nat)
    requires k * 5 == n + Slack(n, 5)
    ensures k == (n + 4) / 5
  {
  }

  /** How long a spelling is: a character for each five bits, started or whole, and seven more. */
  lemma SpellingLength(hrp: Text, data: seq<Byte>)
    ensures |Spelling(hrp, Fives(data))| == |hrp| + 7 + (8 * |data| + 4) / 5
  {
    FivesLength(data);
  }

  /** A prefix and a payload are encoded exactly when the prefix is not empty,
      printable and without capitals and the string has at most ninety characters. */
  lemma EncodesExactlyWhen(hrp: Text, data: seq<Byte>)
    ensures Encoded(hrp, data).Ok? <==>
      && 0 < |hrp| && |hrp| + 7 + (8 * |data| + 4) / 5 <= 90
      && forall i :: 0 <= i < |hrp| ==> 33 <= hrp[i] as int <= 126 && !('A' <= hrp[i] <= 'Z')
    ensures Encoded(hrp, data).Ok? ==> Encoded(hrp, data).value == Spelling(hrp, Fives(data))
  {
    SpellingLength(hrp, data);
  }

  lemma ReadsExactlyWhen(s: Text, hrp: Text, data: seq<Byte>)
    ensures Decoded(s) == Ok((hrp, data)) <==>
      && |s| <= 90 && (NoLower(s) || NoUpper(s)) && hrp != [] && NoUpper(hrp) && Lower(s) == Spelling(hrp, Fives(data))
  {
    if Decoded(s) == Ok((hrp, data)) {
      AcceptedSpelling(s, hrp, data);
    } else if && |s| <= 90 && (NoLower(s) || NoUpper(s)) && hrp != [] && NoUpper(hrp)
              && Lower(s) == Spelling(hrp, Fives(data)) {
      var payload := Fives(data);
      var tail := Chars(payload + ChecksumOf(Expand(hrp) + payload));
      IndicesOfChars(payload + ChecksumOf(Expand(hrp) + payload));
      CharsOfIndices(tail);
      SplitAt(s, hrp, tail);
      LowerOfLower(Lower(s));
      SplitAt(Lower(s), hrp, tail);
      DecodeOfSpelling(hrp, data);
    }
  }

  /** A string decodes exactly when it has at most ninety characters, is of one
      case, and is in lowercase the spelling of some prefix and payload; and then to those. */
  lemma DecodesExactlyWhen(s: Text, hrp: Text, data: seq<Byte>)
    ensures Decoded(s) == Ok((hrp, data)) <==>
      && |s| <= 90 && hrp != [] && (forall i :: 0 <= i < |hrp| ==> !('A' <= hrp[i] <= 'Z'))
      && ((forall i :: 0 <= i < |s| ==> !('a' <= s[i] <= 'z')) || (forall i :: 0 <= i < |s| ==> !('A' <= s[i] <= 'Z')))
      && Lower(s) == Spelling(hrp, Fives(data))
  {
    ReadsExactlyWhen(s, hrp, data);
  }

  /** Any one data character changed to another of the charset makes an accepted string refused. */
  lemma SubstitutionRefused(s: Text, i: nat, c: Octet)
    requires Decoded(s).Ok? && LastSeparator(Lower(s)).value < i < |s|
    requires IndexOf(LowerChar(c)).Some? && LowerChar(c) != LowerChar(s[i])
    ensures Decoded(s[i := c]).Err?
  {
    var (hrp, tail) := Split(s).value;
    SplitParts(s, hrp, tail);
    CharOfIndex(LowerChar(c));
    SplitChanged(s, hrp, tail, i, c);
    PartsChecked(hrp, tail);
    OneCharacterMatters(hrp, tail, i - |hrp| - 1, LowerChar(c));
    PartsChecked(hrp, tail[i - |hrp| - 1 := LowerChar(c)]);
  }

  /** Any one character of the prefix changed to another of the same case and
      kind, such as a letter to a letter, makes an accepted string refused: the
      checksum covers the prefix. */
  lemma PrefixSubstitutionRefused(s: Text, i: nat, c: Octet)
    requires Decoded(s).Ok? && i < LastSeparator(Lower(s)).value
    requires LowerChar(c) != LowerChar(s[i]) && LowerChar(c) as int / 32 == LowerChar(s[i]) as int / 32
    ensures Decoded(s[i := c]).Err?
  {
    var (hrp, tail) := Split(s).value;
    SplitParts(s, hrp, tail);
    PrefixChanged(s, hrp, tail, i, c);
    PartsChecked(hrp, tail);
    OnePrefixCharacterMatters(hrp, tail, i, LowerChar(c));
    PartsChecked(hrp[i := LowerChar(c)], tail);
  }

  lemma PrefixChanged(s: Text, hrp: Text, tail: Text, i: nat, c: Octet)
    requires Split(s) == Ok((hrp, tail)) && i < |hrp| < |s|
    ensures Split(s[i := c]).Err? || Split(s[i := c]) == Ok((hrp[i := LowerChar(c)], tail))
  {
    SplitParts(s, hrp, tail);
    assert Lower(s[i := c]) == hrp[i := LowerChar(c)] + ['1'] + tail;
    SplitAt(s[i := c], hrp[i := LowerChar(c)], tail);
  }

  lemma OnePrefixCharacterMatters(hrp: Text, tail: Text, i: nat, c: Octet)
    requires InCharset(tail) && i < |hrp| && c != hrp[i] && c as int / 32 == hrp[i] as int / 32
    ensures Polymod(Expand(hrp) + Indices(tail)) != Polymod(Expand(hrp[i := c]) + Indices(tail))
  {
    var e, e' := Expand(hrp), Expand(hrp[i := c]);
    var at := |hrp| + 1 + i;
    ExpandSays(hrp);
    ExpandSays(hrp[i := c]);
    assert e' == e[at := e'[at]] && e'[at] != e[at];
    var before, after := e[..at], e[at + 1..] + Indices(tail);
    assert e + Indices(tail) == before + [e[at]] + after;
    assert e' + Indices(tail) == before + [e'[at]] + after;
    OneDigitMatters(before, e[at], e'[at], after);
  }

  lemma PartsChecked(hrp: Text, tail: Text)
    ensures DecodedParts(hrp, tail).Ok? ==> InCharset(tail) && Polymod(Expand(hrp) + Indices(tail)) == BECH32M_CONST
  {
  }

  lemma SplitChanged(s: Text, hrp: Text, tail: Text, i: nat, c: Octet)
    requires Split(s) == Ok((hrp, tail)) && |hrp| < i < |s| == |hrp| + 1 + |tail|
    requires LowerChar(c) != '1'
    ensures Split(s[i := c]).Err? || Split(s[i := c]) == Ok((hrp, tail[i - |hrp| - 1 := LowerChar(c)]))
  {
    SplitParts(s, hrp, tail);
    var tail' := tail[i - |hrp| - 1 := LowerChar(c)];
    assert Lower(s[i := c]) == hrp + ['1'] + tail';
    SplitAt(s[i := c], hrp, tail');
  }

  lemma OneCharacterMatters(hrp: Text, tail: Text, j: nat, c: Octet)
    requires InCharset(tail) && j < |tail| && IndexOf(c).Some? && c != tail[j]
    ensures InCharset(tail[j := c])
    ensures Polymod(Expand(hrp) + Indices(tail)) != Polymod(Expand(hrp) + Indices(tail[j := c]))
  {
    var ds, ds' := Indices(tail), Indices(tail[j := c]);
    CharOfIndex(c);
    CharOfIndex(tail[j]);
    assert ds[j] != ds'[j];
    var before, after := Expand(hrp) + ds[..j], ds[j + 1..];
    assert Expand(hrp) + ds == before + [ds[j]] + after;
    assert Expand(hrp) + ds' == before + [ds'[j]] + after;
    OneDigitMatters(before, ds[j], ds'[j], after);
  }

  // -- the procedures -------------------------------------------------------

  method Encode(hrp: Text, data: seq<Byte>) returns (r: Result<Text, CodecError>)
    ensures r == Encoded(hrp, data)
  {
    if hrp == [] {
      return Err(EmptyPrefix);
    }
    if !Printable(hrp) {
      return Err(PrefixOutOfRange);
    }
    if !NoUpper(hrp) {
      return Err(PrefixUppercase);
    }
    var regrouped := ConvertBits(data, 8, 5, true);
    assert regrouped == Ok(Fives(data));
    var payload: seq<Digit> := regrouped.value;
    var polymod := ComputePolymod(Expand(hrp) + payload + Zeros(CHECKSUM_LENGTH));
    var digits := payload + Unpack(Xor(polymod, BECH32M_CONST));
    var out := WriteDigits(hrp + ['1'], digits);
    if |out| > MAX_LEN {
      return Err(TooLong);
    }
    return Ok(out);
  }

  method WriteDigits(start: Text, ds: seq<Digit>) returns (out: Text)
    ensures out == start + Chars(ds)
  {
    out := start;
    var i := 0;
    while i < |ds|
      invariant 0 <= i <= |ds| && out == start + Chars(ds)[..i]
    {
      out := out + [CharOf(ds[i])];
      i := i + 1;
    }
  }

  method FindSeparator(s: Text) returns (r: Option<nat>)
    ensures r == LastSeparator(s)
  {
    var i := |s|;
    while i > 0
      invariant 0 <= i <= |s| && LastSeparator(s) == LastSeparator(s[..i])
    {
      if s[i - 1] == '1' {
        return Some(i - 1);
      }
      assert s[..i][..i - 1] == s[..i - 1];
      i := i - 1;
    }
    return None;
  }

  method ReadDigits(tail: Text) returns (r: Option<seq<Digit>>)
    ensures r == if InCharset(tail) then Some(Indices(tail)) else None
  {
    var values: seq<Digit>, i := [], 0;
    while i < |tail|
      invariant 0 <= i <= |tail| && InCharset(tail[..i]) && values == Indices(tail[..i])
    {
      var index := IndexOf(tail[i]);
      if index.None? {
        return None;
      }
      assert tail[..i + 1] == tail[..i] + [tail[i]];
      values := values + [index.value];
      i := i + 1;
    }
    assert tail[..i] == tail;
    return Some(values);
  }

  method Decode(s: Text) returns (r: Result<(Text, seq<nat>), CodecError>)
    ensures r == Decoded(s)
  {
    if |s| > MAX_LEN {
      return Err(TooLong);
    }
    if !NoLower(s) && !NoUpper(s) {
      return Err(MixedCase);
    }
    var lowered := Lower(s);
    var sep := FindSeparator(lowered);
    if sep.None? {
      return Err(NoSeparator);
    }
    r := DecodeParts(lowered[..sep.value], lowered[sep.value + 1..]);
  }

  method DecodeParts(hrp: Text, tail: Text) returns (r: Result<(Text, seq<nat>), CodecError>)
    ensures r == DecodedParts(hrp, tail)
  {
    if hrp == [] {
      return Err(EmptyPrefix);
    }
    if |tail| < CHECKSUM_LENGTH {
      return Err(DataTooShort);
    }
    var values := ReadDigits(tail);
    if values.None? {
      return Err(InvalidCharacter);
    }
    var polymod := ComputePolymod(Expand(hrp) + values.value);
    if polymod != BECH32M_CONST {
      return Err(ChecksumMismatch);
    }
    var regrouped := ConvertBits(values.value[..|tail| - CHECKSUM_LENGTH], 5, 8, false);
    match regrouped
    case Err(e) => return Err(Regrouping(e));
    case Ok(data) => return Ok((hrp, data));
  }
}

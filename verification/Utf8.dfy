/**
 * UTF-8 as section 4 of RFC 3629 defines it, with the error classification of
 * Rust's `str::from_utf8` and the replacement policy of
 * `String::from_utf8_lossy`: one U+FFFD for each maximal subpart (section 3.9 of
 * the Unicode Standard). A Dafny `char` is a Unicode scalar value, which is what a
 * Rust `char` is, so a `string` stands for the contents of a `str`.
 */
module Utf8 {
  import opened Common

  newtype byte = b: int | 0 <= b < 256
  type bytes = seq<byte>

  const REPLACEMENT: char := '\U{FFFD}'

  /** What the first bytes of a non-empty input are. */
  datatype Unit =
    | Full(len: nat, c: char)  // a complete well-formed sequence
    | Bad(len: nat)            // a maximal subpart that no further byte can repair
    | Short                    // the whole input is a proper prefix of a well-formed sequence

  /** Length of the sequence that `b` opens; 0 when no sequence starts with it. */
  function Width(b: byte): nat {
    if b < 0x80 then 1
    else if 0xC2 <= b <= 0xDF then 2
    else if 0xE0 <= b <= 0xEF then 3
    else if 0xF0 <= b <= 0xF4 then 4
    else 0
  }

  predicate IsTail(b: byte) {
    0x80 <= b <= 0xBF
  }

  predicate SecondOk(first: byte, b: byte) {
    if first == 0xE0 then 0xA0 <= b <= 0xBF
    else if first == 0xED then 0x80 <= b <= 0x9F
    else if first == 0xF0 then 0x90 <= b <= 0xBF
    else if first == 0xF4 then 0x80 <= b <= 0x8F
    else IsTail(b)
  }

  function Scalar2(a: int, b: int): int {
    (a - 0xC0) * 0x40 + (b - 0x80)
  }

  function Scalar3(a: int, b: int, c: int): int {
    (a - 0xE0) * 0x1000 + (b - 0x80) * 0x40 + (c - 0x80)
  }

  function Scalar4(a: int, b: int, c: int, d: int): int {
    (a - 0xF0) * 0x40000 + (b - 0x80) * 0x1000 + (c - 0x80) * 0x40 + (d - 0x80)
  }

  function FirstUnit(b: bytes): (u: Unit)
    requires b != []
    ensures u.Full? ==> 1 <= u.len <= |b| && u.len <= 4
    ensures u.Bad? ==> 1 <= u.len <= |b| && u.len <= 3
    ensures u.Short? ==> |b| <= 3
  {
    var w := Width(b[0]);
    if w == 0 then Bad(1)
    else if w == 1 then Full(1, b[0] as char)
    else if |b| < 2 then Short
    else if !SecondOk(b[0], b[1]) then Bad(1)
    else if w == 2 then Full(2, Scalar2(b[0] as int, b[1] as int) as char)
    else if |b| < 3 then Short
    else if !IsTail(b[2]) then Bad(2)
    else if w == 3 then Full(3, Scalar3(b[0] as int, b[1] as int, b[2] as int) as char)
    else if |b| < 4 then Short
    else if !IsTail(b[3]) then Bad(3)
    else Full(4, Scalar4(b[0] as int, b[1] as int, b[2] as int, b[3] as int) as char)
  }

  function Encode(c: char): (b: bytes)
    ensures 1 <= |b| <= 4
  {
    var n := c as int;
    if n < 0x80 then [n as byte]
    else if n < 0x800 then [(0xC0 + n / 0x40) as byte, (0x80 + n % 0x40) as byte]
    else if n < 0x10000 then
      [(0xE0 + n / 0x1000) as byte, (0x80 + n / 0x40 % 0x40) as byte, (0x80 + n % 0x40) as byte]
    else
      [(0xF0 + n / 0x40000) as byte, (0x80 + n / 0x1000 % 0x40) as byte,
       (0x80 + n / 0x40 % 0x40) as byte, (0x80 + n % 0x40) as byte]
  }

  function EncodeAll(s: string): bytes {
    if s == "" then [] else Encode(s[0]) + EncodeAll(s[1..])
  }

  /** `str::len`: the number of bytes a text occupies. */
  function ByteLen(s: string): nat {
    |EncodeAll(s)|
  }

  // ----- one unit at a time

  /** The base-64 digits of a scalar value are what its encoding carries. */
  lemma Digits(a: int, b: int, c: int, d: int)
    requires 0 <= a && 0 <= b < 0x40 && 0 <= c < 0x40 && 0 <= d < 0x40
    ensures var n := a * 0x40000 + b * 0x1000 + c * 0x40 + d;
            n / 0x40000 == a && n / 0x1000 % 0x40 == b && n / 0x40 % 0x40 == c && n % 0x40 == d
  {
    Div64(a * 0x1000 + b * 0x40 + c, d);
    Div64(a * 0x40 + b, c);
    Div64(a, b);
    DivDiv64(a * 0x40000 + b * 0x1000 + c * 0x40 + d);
  }

  lemma Div64(q: int, r: int)
    requires 0 <= r < 0x40
    ensures (q * 0x40 + r) / 0x40 == q && (q * 0x40 + r) % 0x40 == r
  {
  }

  lemma DivDiv64(n: int)
    ensures n / 0x1000 == n / 0x40 / 0x40 && n / 0x40000 == n / 0x1000 / 0x40
  {
  }

  lemma DigitsBack(n: int)
    requires 0 <= n
    ensures n == n / 0x40000 * 0x40000 + n / 0x1000 % 0x40 * 0x1000 + n / 0x40 % 0x40 * 0x40 + n % 0x40
  {
    DivDiv64(n);
    DivMod64(n);
    DivMod64(n / 0x40);
    DivMod64(n / 0x1000);
  }

  lemma DivMod64(n: int)
    ensures n == n / 0x40 * 0x40 + n % 0x40
  {
  }

  lemma FullUnitIsEncoding(b: bytes)
    requires b != [] && FirstUnit(b).Full?
    ensures b[..FirstUnit(b).len] == Encode(FirstUnit(b).c)
  {
    var n := FirstUnit(b).len;
    if n == 2 {
      EncodedPair(b);
    } else if n == 3 {
      EncodedTriple(b);
    } else if n == 4 {
      EncodedQuadruple(b);
    }
  }

  lemma EncodedPair(b: bytes)
    requires b != [] && FirstUnit(b).Full? && FirstUnit(b).len == 2
    ensures b[..2] == Encode(FirstUnit(b).c)
  {
    Digits(0, 0, b[0] as int - 0xC0, b[1] as int - 0x80);
  }

  lemma EncodedTriple(b: bytes)
    requires b != [] && FirstUnit(b).Full? && FirstUnit(b).len == 3
    ensures b[..3] == Encode(FirstUnit(b).c)
  {
    Digits(0, b[0] as int - 0xE0, b[1] as int - 0x80, b[2] as int - 0x80);
  }

  lemma EncodedQuadruple(b: bytes)
    requires b != [] && FirstUnit(b).Full? && FirstUnit(b).len == 4
    ensures b[..4] == Encode(FirstUnit(b).c)
  {
    Digits(b[0] as int - 0xF0, b[1] as int - 0x80, b[2] as int - 0x80, b[3] as int - 0x80);
  }

  /** A unit that is already decided is not changed by the bytes that follow. */
  lemma DecidedUnitStable(a: bytes, b: bytes)
    requires a != [] && !FirstUnit(a).Short?
    ensures FirstUnit(a + b) == FirstUnit(a)
  {
  }

  lemma EncodeIsUnitAlone(c: char)
    ensures FirstUnit(Encode(c)) == Full(|Encode(c)|, c)
  {
    var n := c as int;
    DigitsBack(n);
    if 0x800 <= n < 0x10000 {
      assert n / 0x1000 % 0x40 == n / 0x1000 && n / 0x40000 == 0;
    } else if n < 0x800 {
      assert n / 0x40 % 0x40 == n / 0x40 && n / 0x1000 == 0 && n / 0x40000 == 0;
    }
  }

  lemma EncodeIsUnit(c: char, rest: bytes)
    ensures FirstUnit(Encode(c) + rest) == Full(|Encode(c)|, c)
  {
    hide Encode, FirstUnit;
    EncodeIsUnitAlone(c);
    DecidedUnitStable(Encode(c), rest);
  }

  // ----- whole inputs

  /** `String::from_utf8_lossy`. */
  function Lossy(b: bytes): string {
    if b == [] then ""
    else match FirstUnit(b)
      case Full(n, c) => [c] + Lossy(b[n..])
      case Bad(n) => [REPLACEMENT] + Lossy(b[n..])
      case Short => [REPLACEMENT]
  }

  /** The part of the lossy decoding that later bytes cannot change. */
  function Settled(b: bytes): string {
    if b == [] then ""
    else match FirstUnit(b)
      case Full(n, c) => [c] + Settled(b[n..])
      case Bad(n) => [REPLACEMENT] + Settled(b[n..])
      case Short => ""
  }

  /** The incomplete sequence at the end of `b`, empty when there is none. */
  function Unfinished(b: bytes): bytes {
    if b == [] then []
    else match FirstUnit(b)
      case Full(n, _) => Unfinished(b[n..])
      case Bad(n) => Unfinished(b[n..])
      case Short => b
  }

  /** `str::from_utf8`: the text, or how far the input is valid and what stopped it. */
  datatype Utf8Check = Valid(text: string) | Invalid(validUpTo: nat, errorLen: Option<nat>)

  function FromUtf8(b: bytes): Utf8Check {
    if b == [] then Valid("")
    else match FirstUnit(b)
      case Bad(n) => Invalid(0, Some(n))
      case Short => Invalid(0, None)
      case Full(n, c) =>
        match FromUtf8(b[n..])
        case Valid(text) => Valid([c] + text)
        case Invalid(upTo, len) => Invalid(n + upTo, len)
  }

  /** One step of every decoding function; the proofs below use only this much of them. */
  lemma Unfold(b: bytes)
    ensures b == [] ==> Lossy(b) == "" && Settled(b) == "" && Unfinished(b) == []
    ensures b != [] && FirstUnit(b).Short? ==>
              Lossy(b) == [REPLACEMENT] && Settled(b) == "" && Unfinished(b) == b
    ensures b != [] && !FirstUnit(b).Short? ==>
              var u := FirstUnit(b); var rest := b[u.len..]; var c := if u.Full? then u.c else REPLACEMENT;
              && Lossy(b) == [c] + Lossy(rest)
              && Settled(b) == [c] + Settled(rest)
              && Unfinished(b) == Unfinished(rest)
  {
  }

  lemma UnfoldStrict(b: bytes)
    ensures b == [] ==> FromUtf8(b) == Valid("")
    ensures b != [] && FirstUnit(b).Short? ==> FromUtf8(b) == Invalid(0, None)
    ensures b != [] && FirstUnit(b).Bad? ==> FromUtf8(b) == Invalid(0, Some(FirstUnit(b).len))
    ensures b != [] && FirstUnit(b).Full? ==>
              var u := FirstUnit(b);
              match FromUtf8(b[u.len..])
              case Valid(text) => FromUtf8(b) == Valid([u.c] + text)
              case Invalid(upTo, len) => FromUtf8(b) == Invalid(u.len + upTo, len)
  {
  }

  lemma {:induction false} LossyIsSettledPlusTail(b: bytes)
    ensures Lossy(b) == Settled(b) + (if Unfinished(b) == [] then "" else [REPLACEMENT])
  {
    hide FirstUnit, Lossy, Settled, Unfinished;
    Unfold(b);
    if b != [] && !FirstUnit(b).Short? {
      LossyIsSettledPlusTail(b[FirstUnit(b).len..]);
    }
  }

  /** What waits for more bytes is at most three bytes long and ends the input. */
  lemma {:induction false} UnfinishedIsShortSuffix(b: bytes)
    ensures var p := Unfinished(b);
            && (p == [] || FirstUnit(p).Short?)
            && |p| <= 3 && |p| <= |b| && p == b[|b| - |p|..]
  {
    hide FirstUnit, Lossy, Settled, Unfinished;
    Unfold(b);
    if b != [] && !FirstUnit(b).Short? {
      UnfinishedIsShortSuffix(b[FirstUnit(b).len..]);
    }
  }

  /** Decoding what is settled, then the unfinished tail with the new bytes, decodes it all. */
  lemma {:induction false} SettledSplit(a: bytes, b: bytes)
    ensures Settled(a + b) == Settled(a) + Settled(Unfinished(a) + b)
    ensures Unfinished(a + b) == Unfinished(Unfinished(a) + b)
  {
    hide FirstUnit, Settled, Unfinished;
    Unfold(a);
    if a == [] {
      assert a + b == b;
    } else if !FirstUnit(a).Short? {
      var n := FirstUnit(a).len;
      var c := if FirstUnit(a).Full? then FirstUnit(a).c else REPLACEMENT;
      var rest := a[n..];
      DecidedUnitStable(a, b);
      Unfold(a + b);
      assert (a + b)[n..] == rest + b;
      SettledSplit(rest, b);
      Assoc([c], Settled(rest), Settled(Unfinished(rest) + b));
    }
  }

  lemma {:induction false} EncodeAllConcat(s: string, t: string)
    ensures EncodeAll(s + t) == EncodeAll(s) + EncodeAll(t)
  {
    if s == "" {
      assert s + t == t;
    } else {
      assert (s + t)[1..] == s[1..] + t;
      EncodeAllConcat(s[1..], t);
    }
  }

  lemma EncodedStep(c: char, rest: bytes)
    ensures Lossy(Encode(c) + rest) == [c] + Lossy(rest)
    ensures Settled(Encode(c) + rest) == [c] + Settled(rest)
    ensures Unfinished(Encode(c) + rest) == Unfinished(rest)
    ensures match FromUtf8(rest)
            case Valid(text) => FromUtf8(Encode(c) + rest) == Valid([c] + text)
            case Invalid(upTo, len) => FromUtf8(Encode(c) + rest) == Invalid(|Encode(c)| + upTo, len)
  {
    hide FirstUnit, Encode, Lossy, Settled, Unfinished, FromUtf8;
    EncodeIsUnit(c, rest);
    Unfold(Encode(c) + rest);
    UnfoldStrict(Encode(c) + rest);
    assert (Encode(c) + rest)[|Encode(c)|..] == rest;
  }

  predicate DecodesTo(e: bytes, s: string, rest: bytes) {
    && Lossy(e + rest) == s + Lossy(rest)
    && Settled(e + rest) == s + Settled(rest)
    && Unfinished(e + rest) == Unfinished(rest)
  }

  lemma DecodesToStep(c: char, e: bytes, s: string, rest: bytes)
    requires DecodesTo(e, s, rest)
    ensures DecodesTo(Encode(c) + e, [c] + s, rest)
  {
    hide Encode, Lossy, Settled, Unfinished;
    EncodedStep(c, e + rest);
    assert Encode(c) + e + rest == Encode(c) + (e + rest);
    assert [c] + (s + Lossy(rest)) == [c] + s + Lossy(rest);
    assert [c] + (s + Settled(rest)) == [c] + s + Settled(rest);
  }

  lemma {:induction false} DecodeEncoded(s: string, rest: bytes)
    ensures DecodesTo(EncodeAll(s), s, rest)
  {
    hide Encode, Lossy, Settled, Unfinished;
    if s == "" {
      assert EncodeAll(s) + rest == rest;
    } else {
      DecodeEncoded(s[1..], rest);
      DecodesToStep(s[0], EncodeAll(s[1..]), s[1..], rest);
      assert [s[0]] + s[1..] == s;
    }
  }

  lemma UnfinishedAfterText(s: string, rest: bytes)
    ensures Unfinished(EncodeAll(s) + rest) == Unfinished(rest)
  {
    hide Lossy, Settled, Unfinished, EncodeAll;
    DecodeEncoded(s, rest);
  }

  lemma {:induction false} LossyRoundTrip(s: string)
    ensures Lossy(EncodeAll(s)) == s && Settled(EncodeAll(s)) == s && Unfinished(EncodeAll(s)) == []
  {
    hide Encode, FirstUnit, Lossy, Settled, Unfinished;
    Unfold([]);
    DecodeEncoded(s, []);
    assert EncodeAll(s) + [] == EncodeAll(s);
  }

  /** The strict decoder accepts exactly the encodings of texts, and undoes them. */
  lemma {:induction false} ValidIsEncoding(b: bytes)
    requires FromUtf8(b).Valid?
    ensures b == EncodeAll(FromUtf8(b).text)
  {
    hide FirstUnit, Encode, FromUtf8;
    UnfoldStrict(b);
    if b != [] {
      var u := FirstUnit(b);
      FullUnitIsEncoding(b);
      ValidIsEncoding(b[u.len..]);
      assert b == b[..u.len] + b[u.len..];
    }
  }

  /** The strict decoder reads an encoded text and then looks at what follows it. */
  lemma {:induction false} StrictAfterText(s: string, rest: bytes)
    ensures match FromUtf8(rest)
            case Valid(text) => FromUtf8(EncodeAll(s) + rest) == Valid(s + text)
            case Invalid(upTo, len) => FromUtf8(EncodeAll(s) + rest) == Invalid(ByteLen(s) + upTo, len)
  {
    hide FirstUnit, Encode, FromUtf8;
    if s == "" {
      assert EncodeAll(s) + rest == rest;
    } else {
      StrictAfterText(s[1..], rest);
      var later := EncodeAll(s[1..]) + rest;
      Assoc(Encode(s[0]), EncodeAll(s[1..]), rest);
      EncodedStep(s[0], later);
      if FromUtf8(rest).Valid? {
        Assoc([s[0]], s[1..], FromUtf8(rest).text);
        HeadTail(s);
      }
    }
  }

  lemma EncodingIsValid(s: string)
    ensures FromUtf8(EncodeAll(s)) == Valid(s)
  {
    hide FirstUnit, EncodeAll, FromUtf8;
    StrictAfterText(s, []);
    UnfoldStrict([]);
    assert EncodeAll(s) + [] == EncodeAll(s) && s + "" == s;
  }

  /** A prefix of valid bytes fails, if at all, only for ending inside a character. */
  lemma {:induction false} PrefixOfValid(a: bytes, b: bytes)
    requires FromUtf8(a + b).Valid?
    ensures FromUtf8(a).Valid? || FromUtf8(a).errorLen.None?
  {
    hide FirstUnit, FromUtf8;
    UnfoldStrict(a);
    if a != [] && !FirstUnit(a).Short? {
      DecidedUnitStable(a, b);
      UnfoldStrict(a + b);
      var n := FirstUnit(a).len;
      assert (a + b)[n..] == a[n..] + b;
      PrefixOfValid(a[n..], b);
    }
  }

  /** What an error from the strict decoder says about the input it was given. */
  lemma {:induction false} InvalidMeaning(b: bytes)
    requires FromUtf8(b).Invalid?
    ensures var e := FromUtf8(b);
            && e.validUpTo < |b|
            && FromUtf8(b[..e.validUpTo]).Valid?
            && FirstUnit(b[e.validUpTo..]) == (if e.errorLen.None? then Short else Bad(e.errorLen.value))
  {
    hide FirstUnit, Encode, FromUtf8;
    UnfoldStrict(b);
    var u := FirstUnit(b);
    if u.Full? {
      var rest := b[u.len..];
      InvalidMeaning(rest);
      var upTo := FromUtf8(rest).validUpTo;
      assert b[u.len + upTo..] == rest[upTo..];
      FullUnitIsEncoding(b);
      assert b[..u.len + upTo] == Encode(u.c) + rest[..upTo];
      EncodedStep(u.c, rest[..upTo]);
    } else {
      assert b[..0] == [] && b[0..] == b;
      UnfoldStrict([]);
    }
  }

  lemma {:induction false} ByteLenBounds(s: string)
    ensures |s| <= ByteLen(s) <= 4 * |s|
  {
    if s != "" {
      ByteLenBounds(s[1..]);
    }
  }
}

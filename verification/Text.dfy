/** The operations of Rust's `str` that the parsers use. */
module Text {
  import opened Common

  /** `char::is_whitespace`: the White_Space property of the Unicode Character Database. */
  predicate IsWhitespace(c: char) {
    var n := c as int;
    || 0x09 <= n <= 0x0D || n == 0x20 || n == 0x85 || n == 0xA0 || n == 0x1680
    || 0x2000 <= n <= 0x200A || n == 0x2028 || n == 0x2029 || n == 0x202F || n == 0x205F || n == 0x3000
  }

  function TrimStart(s: string): string {
    if s != "" && IsWhitespace(s[0]) then TrimStart(s[1..]) else s
  }

  function TrimEnd(s: string): string {
    if s != "" && IsWhitespace(s[|s| - 1]) then TrimEnd(s[..|s| - 1]) else s
  }

  function Trim(s: string): string {
    TrimEnd(TrimStart(s))
  }

  predicate IsTrimmed(s: string) {
    s == "" || (!IsWhitespace(s[0]) && !IsWhitespace(s[|s| - 1]))
  }

  /** `str::find`: where `pattern` first occurs. */
  function Find(s: string, pattern: string): (at: Option<nat>)
    ensures at.Some? ==> at.value + |pattern| <= |s|
    decreases |s|
  {
    if pattern <= s then Some(0)
    else if s == "" then None
    else match Find(s[1..], pattern)
      case Some(i) => Some(i + 1)
      case None => None
  }

  predicate OccursAt(s: string, pattern: string, i: nat) {
    i + |pattern| <= |s| && s[i..i + |pattern|] == pattern
  }

  lemma OccursAtStart(s: string, pattern: string)
    ensures OccursAt(s, pattern, 0) <==> pattern <= s
  {
    if |pattern| <= |s| {
      assert s[0..0 + |pattern|] == s[..|pattern|];
    }
  }

  lemma OccursLater(s: string, pattern: string, i: nat)
    requires s != ""
    ensures OccursAt(s, pattern, i + 1) <==> OccursAt(s[1..], pattern, i)
  {
    if i + 1 + |pattern| <= |s| {
      assert s[i + 1..i + 1 + |pattern|] == s[1..][i..i + |pattern|];
    }
  }

  lemma OccursInPrefix(a: string, b: string, pattern: string, i: nat)
    requires i + |pattern| <= |a|
    ensures OccursAt(a + b, pattern, i) <==> OccursAt(a, pattern, i)
  {
    assert (a + b)[i..i + |pattern|] == a[i..i + |pattern|];
  }

  lemma OccursInSuffix(s: string, k: nat, pattern: string, i: nat)
    requires k <= |s|
    ensures OccursAt(s[k..], pattern, i) <==> OccursAt(s, pattern, k + i)
  {
    if k + i + |pattern| <= |s| {
      assert s[k..][i..i + |pattern|] == s[k + i..k + i + |pattern|];
    }
  }

  /** The search finds the first occurrence, and fails only when there is none. */
  lemma {:induction false} FindIsFirst(s: string, pattern: string)
    ensures Find(s, pattern).Some? ==> OccursAt(s, pattern, Find(s, pattern).value)
    ensures forall i: nat :: OccursAt(s, pattern, i) ==> Find(s, pattern).Some? && Find(s, pattern).value <= i
    decreases |s|
  {
    hide OccursAt;
    OccursAtStart(s, pattern);
    if s != "" && !(pattern <= s) {
      FindIsFirst(s[1..], pattern);
      if Find(s[1..], pattern).Some? {
        OccursLater(s, pattern, Find(s[1..], pattern).value);
      }
    }
    forall i: nat | OccursAt(s, pattern, i)
      ensures Find(s, pattern).Some? && Find(s, pattern).value <= i
    {
      OccursFits(s, pattern, i);
      if s != "" && !(pattern <= s) {
        OccursLater(s, pattern, i - 1);
      }
    }
  }

  lemma OccursFits(s: string, pattern: string, i: nat)
    requires OccursAt(s, pattern, i)
    ensures i + |pattern| <= |s|
    ensures i == 0 ==> pattern <= s
    ensures s == "" ==> pattern <= s
  {
    OccursAtStart(s, pattern);
  }

  /** The first occurrence is pinned down by being one with none before it. */
  lemma FindAt(s: string, pattern: string, i: nat)
    requires OccursAt(s, pattern, i)
    requires forall j: nat :: j < i ==> !OccursAt(s, pattern, j)
    ensures Find(s, pattern) == Some(i)
  {
    FindIsFirst(s, pattern);
  }

  lemma FindNone(s: string, pattern: string)
    requires forall i: nat :: !OccursAt(s, pattern, i)
    ensures Find(s, pattern).None?
  {
    FindIsFirst(s, pattern);
  }

  /** `str::split` at one character. */
  function Split(s: string, at: char): (parts: seq<string>)
    ensures parts != []
  {
    if s == "" then [""]
    else
      var parts := Split(s[1..], at);
      if s[0] == at then [""] + parts else [[s[0]] + parts[0]] + parts[1..]
  }

  function Join(parts: seq<string>, separator: string): string {
    if parts == [] then ""
    else if |parts| == 1 then parts[0]
    else parts[0] + separator + Join(parts[1..], separator)
  }

  lemma {:induction false} SplitParts(s: string, at: char)
    ensures forall i :: 0 <= i < |Split(s, at)| ==> at !in Split(s, at)[i]
  {
    if s != "" {
      SplitParts(s[1..], at);
    }
  }

  lemma {:induction false} JoinSplit(s: string, at: char)
    ensures Join(Split(s, at), [at]) == s
  {
    if s != "" {
      var parts := Split(s[1..], at);
      JoinSplit(s[1..], at);
      if s[0] == at {
        assert ([""] + parts)[1..] == parts;
        assert Join([""] + parts, [at]) == [at] + s[1..];
      } else if |parts| > 1 {
        assert ([[s[0]] + parts[0]] + parts[1..])[1..] == parts[1..];
        Assoc([s[0]], parts[0], [at]);
        Assoc([s[0]], parts[0] + [at], Join(parts[1..], [at]));
      }
    }
  }

  lemma {:induction false} SplitNone(s: string, at: char)
    requires at !in s
    ensures Split(s, at) == [s]
  {
    if s != "" {
      assert at !in s[1..];
      SplitNone(s[1..], at);
      HeadTail(s);
    }
  }

  lemma {:induction false} SplitFirst(s: string, at: char, rest: string)
    requires at !in s
    ensures Split(s + [at] + rest, at) == [s] + Split(rest, at)
  {
    if s == "" {
      assert (s + [at] + rest)[1..] == rest;
    } else {
      var t := s[1..] + [at] + rest;
      assert (s + [at] + rest)[1..] == t;
      SplitFirst(s[1..], at, rest);
      HeadTail(s);
      assert Split(t, at)[0] == s[1..] && Split(t, at)[1..] == Split(rest, at);
    }
  }

  lemma {:induction false} SplitJoin(parts: seq<string>, at: char)
    requires parts != []
    requires forall i :: 0 <= i < |parts| ==> at !in parts[i]
    ensures Split(Join(parts, [at]), at) == parts
  {
    if |parts| == 1 {
      SplitNone(parts[0], at);
    } else {
      SplitJoin(parts[1..], at);
      SplitFirst(parts[0], at, Join(parts[1..], [at]));
      HeadTail(parts);
    }
  }

  /** `str::to_ascii_lowercase`. */
  function LowerAscii(s: string): string {
    seq(|s|, i requires 0 <= i < |s| => if 'A' <= s[i] <= 'Z' then (s[i] as int + 32) as char else s[i])
  }

  // ----- decimal numbers

  function Digit(d: nat): char
    requires d < 10
  {
    ('0' as int + d) as char
  }

  predicate IsDigit(c: char) {
    '0' <= c <= '9'
  }

  function PrintNat(n: nat): (s: string)
    ensures s != ""
  {
    if n < 10 then [Digit(n)] else PrintNat(n / 10) + [Digit(n % 10)]
  }

  predicate AllDigits(s: string) {
    forall i :: 0 <= i < |s| ==> IsDigit(s[i])
  }

  function DigitsValue(s: string): nat
    requires AllDigits(s)
  {
    if s == "" then 0 else DigitsValue(s[..|s| - 1]) * 10 + (s[|s| - 1] as int - '0' as int)
  }

  /** `str::parse::<u64>`: an optional plus sign, then digits that do not overflow. */
  function ParseU64(s: string): Option<u64> {
    var digits := if s != "" && s[0] == '+' then s[1..] else s;
    if digits != "" && AllDigits(digits) && DigitsValue(digits) <= U64_MAX then Some(DigitsValue(digits))
    else None
  }

  lemma {:induction false} PrintedDigits(n: nat)
    ensures AllDigits(PrintNat(n)) && DigitsValue(PrintNat(n)) == n
  {
    if n >= 10 {
      PrintedDigits(n / 10);
      var s := PrintNat(n);
      assert s[..|s| - 1] == PrintNat(n / 10);
    } else {
      assert [Digit(n)][..0] == "";
    }
  }

  lemma ParsePrinted(n: u64)
    ensures ParseU64(PrintNat(n)) == Some(n)
    ensures AllDigits(PrintNat(n))
  {
    PrintedDigits(n);
    assert IsDigit(PrintNat(n)[0]);
  }

  /** How an HTTP status prints: its number and its reason phrase. */
  function StatusText(code: nat, reason: string): string {
    PrintNat(code) + " " + reason
  }

  // ----- trimming

  lemma {:induction false} TrimStartEffect(s: string)
    ensures var t := TrimStart(s); t == "" || !IsWhitespace(t[0])
    ensures s == "" || !IsWhitespace(s[0]) ==> TrimStart(s) == s
    ensures |TrimStart(s)| <= |s| && TrimStart(s) == s[|s| - |TrimStart(s)|..]
  {
    if s != "" && IsWhitespace(s[0]) {
      TrimStartEffect(s[1..]);
    }
  }

  lemma {:induction false} TrimEndEffect(s: string)
    ensures TrimEnd(s) <= s
    ensures var t := TrimEnd(s); t == "" || !IsWhitespace(t[|t| - 1])
    ensures s == "" || !IsWhitespace(s[|s| - 1]) ==> TrimEnd(s) == s
  {
    if s != "" && IsWhitespace(s[|s| - 1]) {
      TrimEndEffect(s[..|s| - 1]);
    }
  }

  lemma TrimIsTrimmed(s: string)
    ensures IsTrimmed(Trim(s))
    ensures IsTrimmed(s) ==> Trim(s) == s
    ensures forall c :: c in Trim(s) ==> c in s
  {
    TrimStartEffect(s);
    TrimEndEffect(TrimStart(s));
  }

  predicate Blank(s: string) {
    forall i :: 0 <= i < |s| ==> IsWhitespace(s[i])
  }

  /** `trim().is_empty()`: there is nothing but white space. */
  lemma TrimmedAway(s: string)
    ensures Trim(s) == "" <==> Blank(s)
  {
    StartTrimmedAway(s);
    TrimStartEffect(s);
    var t := TrimStart(s);
    TrimEndEffect(t);
    if t != "" {
      EndKept(t);
    }
  }

  lemma {:induction false} StartTrimmedAway(s: string)
    ensures TrimStart(s) == "" <==> Blank(s)
  {
    if s != "" && IsWhitespace(s[0]) {
      StartTrimmedAway(s[1..]);
      assert forall i :: 1 <= i < |s| ==> s[i] == s[1..][i - 1];
      assert forall i :: 0 <= i < |s| - 1 ==> s[1..][i] == s[i + 1];
    }
  }

  lemma {:induction false} EndKept(s: string)
    requires s != "" && !IsWhitespace(s[0])
    ensures TrimEnd(s) != ""
  {
    if IsWhitespace(s[|s| - 1]) {
      EndKept(s[..|s| - 1]);
    }
  }
}

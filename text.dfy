/** The text helpers the decoders use: decimal and hexadecimal rendering of integers
    (`to_string`, `{:02X?}`), joining and splitting on a separator, and the removal of
    alphabetic characters (`remove_chars`). */
module Text {
  import opened Bytes

  predicate IsDigit(c: char) {
    '0' <= c <= '9'
  }

  /** Alphabetic characters. Only the ASCII letters are modelled (see README). */
  predicate IsAlphabetic(c: char) {
    'A' <= c <= 'Z' || 'a' <= c <= 'z'
  }

  predicate IsHexDigit(c: char) {
    IsDigit(c) || 'A' <= c <= 'F'
  }

  predicate NoneIn(s: string, sep: char) {
    forall i :: 0 <= i < |s| ==> s[i] != sep
  }

  // ---------------------------------------------------------------- decimal

  function DigitChar(d: nat): (c: char)
    requires d < 10
    ensures IsDigit(c) && c as int - '0' as int == d
  {
    ('0' as int + d) as char
  }

  function DigitValue(c: char): nat
    requires IsDigit(c)
  {
    c as int - '0' as int
  }

  predicate AllDigits(s: string) {
    forall i :: 0 <= i < |s| ==> IsDigit(s[i])
  }

  /** The value of a string of decimal digits. */
  function DecimalValue(s: string): nat
    requires AllDigits(s)
  {
    if s == [] then 0
    else DecimalValue(s[..|s| - 1]) * 10 + DigitValue(s[|s| - 1])
  }

  /** Decimal rendering of a natural number, as Rust's `to_string` on an unsigned integer:
      never empty (`DecimalDigits` says what it is made of). */
  function Decimal(n: nat): (s: string)
    ensures 1 <= |s|
    decreases n
  {
    if n < 10 then [DigitChar(n)] else Decimal(n / 10) + [DigitChar(n % 10)]
  }

  /** The rendering is digits only, with no leading zero unless the number is 0. */
  lemma {:induction false} DecimalDigits(n: nat)
    ensures var s := Decimal(n);
      && AllDigits(s)
      && (s[0] == '0') == (n == 0)
      && (|s| > 1 ==> n >= 10)
    decreases n
  {
    if n >= 10 {
      DecimalDigits(n / 10);
    }
  }

  /** Reading the decimal rendering back gives the number. */
  lemma {:induction false} DecimalRoundTrip(n: nat)
    ensures AllDigits(Decimal(n)) && DecimalValue(Decimal(n)) == n
    decreases n
  {
    DecimalDigits(n);
    if n >= 10 {
      DecimalRoundTrip(n / 10);
      var s := Decimal(n);
      assert s[..|s| - 1] == Decimal(n / 10);
    }
  }

  /** Distinct numbers render differently. */
  lemma DecimalInjective(m: nat, n: nat)
    ensures Decimal(m) == Decimal(n) ==> m == n
  {
    DecimalRoundTrip(m);
    DecimalRoundTrip(n);
  }

  // ------------------------------------------------------- letter stripping

  /** `s` with every alphabetic character removed, the others kept in order. */
  function Letterless(s: string): (r: string)
    ensures |r| <= |s|
    decreases |s|
  {
    if s == [] then []
    else Letterless(s[..|s| - 1]) + (if IsAlphabetic(s[|s| - 1]) then [] else [s[|s| - 1]])
  }

  predicate LetterFree(s: string) {
    forall i :: 0 <= i < |s| ==> !IsAlphabetic(s[i])
  }

  /** No letter is left after stripping. */
  lemma {:induction false} LetterlessLetterFree(s: string)
    ensures LetterFree(Letterless(s))
    decreases |s|
  {
    if s != [] {
      LetterlessLetterFree(s[..|s| - 1]);
    }
  }

  /** `remove_chars`: walks the characters and pushes every non-alphabetic one. */
  method RemoveChars(s: string) returns (r: string)
    ensures r == Letterless(s)
  {
    r := [];
    for i := 0 to |s|
      invariant r == Letterless(s[..i])
    {
      assert s[..i + 1][..i] == s[..i];
      if !IsAlphabetic(s[i]) {
        r := r + [s[i]];
      }
    }
    assert s[..|s|] == s;
  }

  /** Stripping works piecewise: it distributes over concatenation. */
  lemma {:induction false} LetterlessAppend(a: string, b: string)
    ensures Letterless(a + b) == Letterless(a) + Letterless(b)
    decreases |b|
  {
    if b != [] {
      var b' := b[..|b| - 1];
      LetterlessAppend(a, b');
      assert (a + b)[..|a + b| - 1] == a + b';
      var c := b[|b| - 1];
      var kept: string := if IsAlphabetic(c) then [] else [c];
      assert (a + b)[|a + b| - 1] == c;
      calc {
        Letterless(a + b);
        Letterless(a + b') + kept;
        Letterless(a) + Letterless(b') + kept;
        Letterless(a) + (Letterless(b') + kept);
        Letterless(a) + Letterless(b);
      }
    } else {
      assert a + b == a;
    }
  }

  /** A string without letters is left as it is, and one of letters only disappears. */
  lemma {:induction false} LetterlessKeepsLetterFree(s: string)
    ensures LetterFree(s) <==> Letterless(s) == s
    decreases |s|
  {
    LetterlessLetterFree(s);
    if s != [] {
      LetterlessKeepsLetterFree(s[..|s| - 1]);
      if Letterless(s) == s {
        assert !IsAlphabetic(s[|s| - 1]);
        assert Letterless(s[..|s| - 1]) == s[..|s| - 1];
      }
    }
  }

  lemma {:induction false} LetterlessDropsLetters(s: string)
    requires forall i :: 0 <= i < |s| ==> IsAlphabetic(s[i])
    ensures Letterless(s) == []
    decreases |s|
  {
    if s != [] {
      LetterlessDropsLetters(s[..|s| - 1]);
    }
  }

  /** Stripping twice is stripping once. */
  lemma LetterlessIdempotent(s: string)
    ensures Letterless(Letterless(s)) == Letterless(s)
  {
    LetterlessLetterFree(s);
    LetterlessKeepsLetterFree(Letterless(s));
  }

  /** A decimal rendering has no letters, so stripping leaves it unchanged. */
  lemma LetterlessOfDecimal(n: nat)
    ensures Letterless(Decimal(n)) == Decimal(n)
  {
    DecimalDigits(n);
    LetterlessKeepsLetterFree(Decimal(n));
  }

  // ------------------------------------------------------ joining, splitting

  /** `parts` joined with `sep` between consecutive parts. */
  function Join(parts: seq<string>, sep: string): string
  {
    if |parts| == 0 then ""
    else if |parts| == 1 then parts[0]
    else Join(parts[..|parts| - 1], sep) + sep + parts[|parts| - 1]
  }

  /** The pieces of `s` between occurrences of `sep`; always at least one piece. */
  function Split(s: string, sep: char): (parts: seq<string>)
    ensures |parts| >= 1
    decreases |s|
  {
    if s == [] then [[]]
    else
      var init := Split(s[..|s| - 1], sep);
      if s[|s| - 1] == sep then init + [[]]
      else init[..|init| - 1] + [init[|init| - 1] + [s[|s| - 1]]]
  }

  lemma {:induction false} SplitNoSeparator(s: string, sep: char)
    requires NoneIn(s, sep)
    ensures Split(s, sep) == [s]
    decreases |s|
  {
    if s != [] {
      SplitNoSeparator(s[..|s| - 1], sep);
      assert s[..|s| - 1] + [s[|s| - 1]] == s;
    }
  }

  lemma {:induction false} SplitAfterSeparator(a: string, sep: char, b: string)
    requires NoneIn(b, sep)
    ensures Split(a + [sep] + b, sep) == Split(a, sep) + [b]
    decreases |b|
  {
    if b == [] {
      assert (a + [sep] + b)[..|a|] == a;
    } else {
      var b' := b[..|b| - 1];
      SplitAfterSeparator(a, sep, b');
      assert (a + [sep] + b)[..|a + [sep] + b| - 1] == a + [sep] + b';
      assert b' + [b[|b| - 1]] == b;
    }
  }

  /** Splitting a join on a one-character separator that occurs in no part gives the parts back. */
  lemma {:induction false} SplitJoin(parts: seq<string>, sep: char)
    requires |parts| >= 1
    requires forall k :: 0 <= k < |parts| ==> NoneIn(parts[k], sep)
    ensures Split(Join(parts, [sep]), sep) == parts
    decreases |parts|
  {
    if |parts| == 1 {
      SplitNoSeparator(parts[0], sep);
    } else {
      var init, last := parts[..|parts| - 1], parts[|parts| - 1];
      assert forall k :: 0 <= k < |init| ==> init[k] == parts[k];
      SplitJoin(init, sep);
      var joined := Join(init, [sep]);
      assert Join(parts, [sep]) == joined + [sep] + last;
      SplitAfterSeparator(joined, sep, last);
      assert init + [last] == parts;
    }
  }

  // ------------------------------------------------------------ renderings

  /** The decimal renderings of a sequence of octets, one per octet. */
  function Decimals(bs: seq<Byte>): (parts: seq<string>)
    ensures |parts| == |bs|
    ensures forall k :: 0 <= k < |bs| ==> parts[k] == Decimal(bs[k])
  {
    seq(|bs|, k requires 0 <= k < |bs| => Decimal(bs[k]))
  }

  /** Octets as dotted decimal (an IPv4 address for four octets): splitting at the dots
      and reading each piece as a decimal number gives the octets back. */
  lemma DottedDecimalRoundTrip(bs: seq<Byte>)
    requires |bs| >= 1
    ensures Split(Join(Decimals(bs), "."), '.') == Decimals(bs)
    ensures forall k :: 0 <= k < |bs| ==> AllDigits(Decimals(bs)[k]) && DecimalValue(Decimals(bs)[k]) == bs[k]
  {
    var parts := Decimals(bs);
    forall k | 0 <= k < |bs| ensures AllDigits(parts[k]) && DecimalValue(parts[k]) == bs[k] {
      DecimalRoundTrip(bs[k]);
    }
    SplitJoin(parts, '.');
  }

  function HexDigit(d: nat): (c: char)
    requires d < 16
    ensures IsHexDigit(c)
  {
    if d < 10 then ('0' as int + d) as char else ('A' as int + d - 10) as char
  }

  function HexDigitValue(c: char): nat
    requires IsHexDigit(c)
  {
    if IsDigit(c) then c as int - '0' as int else c as int - 'A' as int + 10
  }

  /** One octet as two upper-case hexadecimal digits, as `{:02X}`. */
  function HexByte(b: Byte): (s: string)
    ensures |s| == 2 && IsHexDigit(s[0]) && IsHexDigit(s[1])
    ensures HexDigitValue(s[0]) * 16 + HexDigitValue(s[1]) == b
  {
    [HexDigit(b / 16), HexDigit(b % 16)]
  }

  /** Octets in hexadecimal, joined by `sep`. With `sep == ", "` this is the list `{:02X?}`
      prints, brackets removed; with `sep == ":"` it is that list after `, ` became `:`. */
  function HexJoin(bs: seq<Byte>, sep: string): string
  {
    Join(seq(|bs|, k requires 0 <= k < |bs| => HexByte(bs[k])), sep)
  }

  /** Colon-separated hexadecimal gives the octets back: one piece per octet, each piece
      the two hex digits of its octet. */
  lemma HexColonRoundTrip(bs: seq<Byte>)
    requires |bs| >= 1
    ensures |Split(HexJoin(bs, ":"), ':')| == |bs|
    ensures forall k :: 0 <= k < |bs| ==>
      var piece := Split(HexJoin(bs, ":"), ':')[k];
      |piece| == 2 && IsHexDigit(piece[0]) && IsHexDigit(piece[1])
      && HexDigitValue(piece[0]) * 16 + HexDigitValue(piece[1]) == bs[k]
  {
    var parts := seq(|bs|, k requires 0 <= k < |bs| => HexByte(bs[k]));
    forall k | 0 <= k < |parts| ensures NoneIn(parts[k], ':') {
      assert IsHexDigit(parts[k][0]) && IsHexDigit(parts[k][1]);
    }
    SplitJoin(parts, ':');
  }
}

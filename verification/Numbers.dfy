/** Printing of 64-bit integers and the two conversions that read the text back. */
module Numbers {
  import opened Util

  const WORD := 0x1_0000_0000_0000_0000

  function Pow(base: nat, n: nat): nat { if n == 0 then 1 else base * Pow(base, n - 1) }

  // -------------------------------------------------------------------------------------- digits

  function DigitChar(d: nat, upper: bool): char
    requires d < 16
  {
    if upper then "0123456789ABCDEF"[d] else "0123456789abcdef"[d]
  }

  predicate IsDecimal(c: char) { '0' <= c <= '9' }

  predicate IsHex(c: char) { IsDecimal(c) || 'a' <= c <= 'f' || 'A' <= c <= 'F' }

  predicate AllHex(s: string) { forall k :: 0 <= k < |s| ==> IsHex(s[k]) }

  predicate AllDecimal(s: string) { forall k :: 0 <= k < |s| ==> IsDecimal(s[k]) }

  function DigitValue(c: char): (d: nat)
    ensures d < 16
  {
    if IsDecimal(c) then c as int - '0' as int
    else if 'a' <= c <= 'f' then c as int - 'a' as int + 10
    else if 'A' <= c <= 'F' then c as int - 'A' as int + 10 else 0
  }

  /** The number that a string of digits denotes. */
  function Value(s: string, base: nat): nat {
    if s == "" then 0 else Value(s[..|s| - 1], base) * base + DigitValue(s[|s| - 1])
  }

  lemma DigitTrip(d: nat, upper: bool)
    requires d < 16
    ensures IsHex(DigitChar(d, upper)) && DigitValue(DigitChar(d, upper)) == d
    ensures d < 10 ==> IsDecimal(DigitChar(d, upper))
  {
  }

  // ------------------------------------------------------------------------------------ printing

  function Quot(i: nat, base: nat): (q: nat)
    requires 2 <= base
    ensures q != 0 ==> q < i
  {
    QuotSmaller(i, base, i / base, i % base);
    i / base
  }

  lemma QuotSmaller(i: nat, base: nat, q: nat, r: nat)
    requires 2 <= base && i == base * q + r
    ensures q != 0 ==> q < i
  {
    MulAtLeast(q, base - 1);
    assert base * q == q * (base - 1) + q;
  }

  function Rem(i: nat, base: nat): (r: nat)
    requires 2 <= base
    ensures r < base
  {
    i % base
  }

  function Fill(n: nat, c: char): string { if n == 0 then "" else [c] + Fill(n - 1, c) }

  lemma FillStep(n: nat, c: char)
    ensures Fill(0, c) == "" && Fill(n + 1, c) == [c] + Fill(n, c)
  {
  }

  lemma {:induction false} FillAll(n: nat, c: char)
    ensures |Fill(n, c)| == n && forall k :: 0 <= k < n ==> Fill(n, c)[k] == c
  {
    if n > 0 {
      FillAll(n - 1, c);
    }
  }

  /** The digits of `i`, at most `limit` of them if `limit` is not -1. */
  function Text(i: nat, base: nat, limit: int, upper: bool): string
    requires 2 <= base <= 16
    decreases i
  {
    var last := [DigitChar(Rem(i, base), upper)];
    if Quot(i, base) == 0 || limit == 1 then last
    else Text(Quot(i, base), base, Shorter(limit), upper) + last
  }

  function Padded(s: string, padding: nat, fill: char): string {
    if |s| < padding then Fill(padding - |s|, fill) + s else s
  }

  lemma {:induction false} TextLength(i: nat, base: nat, limit: int, upper: bool, n: nat)
    requires 2 <= base <= 16 && n >= 1 && i < Pow(base, n)
    ensures 1 <= |Text(i, base, limit, upper)| <= n && (limit > 0 ==> |Text(i, base, limit, upper)| <= limit)
    decreases n
  {
    hide Quot, Rem, DigitChar, Text, Pow;
    PowStep(base, n);
    DivBelow(i, base, Pow(base, n - 1));
    TextUnfold(i, base, limit, upper);
    if Quot(i, base) != 0 && limit != 1 {
      TextLength(Quot(i, base), base, Shorter(limit), upper, n - 1);
    }
  }

  lemma PowStep(base: nat, n: nat)
    requires n >= 1
    ensures Pow(base, n) == base * Pow(base, n - 1) && (n == 1 ==> Pow(base, n - 1) == 1)
  {
  }

  lemma DivBelow(i: nat, base: nat, m: nat)
    requires base >= 2 && i < base * m
    ensures Quot(i, base) < m
  {
    assert i == base * (i / base) + i % base;
  }

  function Shorter(limit: int): int { if limit > 0 then limit - 1 else limit }

  lemma {:induction false} TextDigits(i: nat, base: nat, limit: int, upper: bool)
    requires 2 <= base <= 16
    ensures AllHex(Text(i, base, limit, upper)) && (base <= 10 ==> AllDecimal(Text(i, base, limit, upper)))
    decreases i
  {
    hide Quot, Rem, DigitChar, IsHex, IsDecimal;
    DigitTrip(Rem(i, base), upper);
    if Quot(i, base) != 0 && limit != 1 {
      TextDigits(Quot(i, base), base, Shorter(limit), upper);
    }
  }

  lemma ValueSnoc(s: string, c: char, base: nat)
    ensures Value(s + [c], base) == Value(s, base) * base + DigitValue(c)
  {
    assert (s + [c])[..|s|] == s;
  }

  /** Unlimited text denotes the number. */
  lemma {:induction false} TextValue(i: nat, base: nat, upper: bool)
    requires 2 <= base <= 16
    ensures Value(Text(i, base, -1, upper), base) == i
    decreases i
  {
    hide Quot, Rem, DigitChar, DigitValue, Value;
    DigitTrip(Rem(i, base), upper);
    var last := DigitChar(Rem(i, base), upper);
    ValueEmpty(base);
    DivMod(i, base);
    if Quot(i, base) == 0 {
      ValueSnoc("", last, base);
      assert "" + [last] == [last];
    } else {
      TextValue(Quot(i, base), base, upper);
      ValueSnoc(Text(Quot(i, base), base, -1, upper), last, base);
    }
  }

  lemma ValueEmpty(base: nat)
    ensures Value("", base) == 0
  {
  }

  lemma DivMod(i: nat, base: nat)
    requires base >= 2
    ensures i == Quot(i, base) * base + Rem(i, base)
  {
  }

  /** Text limited to n digits denotes the number modulo base to the n. */
  lemma {:induction false} LimitedValue(i: nat, base: nat, n: nat, upper: bool)
    requires 2 <= base <= 16 && n > 0
    ensures Pow(base, n) > 0 && Value(Text(i, base, n, upper), base) == i % Pow(base, n)
    decreases n
  {
    hide Quot, Rem, DigitChar, DigitValue, Value;
    DigitTrip(Rem(i, base), upper);
    var last := DigitChar(Rem(i, base), upper);
    var m := Pow(base, n - 1);
    ValueEmpty(base);
    PowPositive(base, n);
    PowPositive(base, n - 1);
    ModSplit(i, base, m);
    assert n == 1 ==> m == 1;
    if Quot(i, base) == 0 || n == 1 {
      ValueSnoc("", last, base);
      assert "" + [last] == [last];
      ZeroMod(Quot(i, base), m);
    } else {
      LimitedValue(Quot(i, base), base, n - 1, upper);
      ValueSnoc(Text(Quot(i, base), base, n - 1, upper), last, base);
    }
  }

  lemma ZeroMod(q: nat, m: nat)
    requires m >= 1
    ensures q == 0 || m == 1 ==> q % m == 0
  {
    ModUnique(0, m, 0, 0);
  }

  lemma ModSplit(i: nat, base: nat, m: nat)
    requires base >= 2 && m >= 1
    ensures base * m >= 1 && i % (base * m) == Quot(i, base) % m * base + Rem(i, base)
  {
    hide Quot, Rem;
    var q, r, low := Quot(i, base) / m, Quot(i, base) % m, Rem(i, base);
    DivMod(i, base);
    assert Quot(i, base) == q * m + r;
    Regroup(base, m, q, r, low);
    ModUnique(i, base * m, q, r * base + low);
  }

  lemma Regroup(base: nat, m: nat, q: nat, r: nat, low: nat)
    requires low < base && r < m
    ensures (q * m + r) * base + low == base * m * q + (r * base + low)
    ensures 0 <= r * base + low < base * m
  {
    assert (q * m + r) * base == base * m * q + r * base;
    MulAtLeast(base, m - r);
    assert base * (m - r) == base * m - r * base;
  }

  lemma {:induction false} PowPositive(base: nat, n: nat)
    requires base >= 1
    ensures Pow(base, n) >= 1
  {
    if n > 0 {
      PowPositive(base, n - 1);
    }
  }

  function Zeros(n: nat): string { Fill(n, '0') }

  lemma {:induction false} PaddedValue(zeros: nat, s: string, base: nat)
    ensures Value(Zeros(zeros) + s, base) == Value(s, base)
    decreases |s|, zeros
  {
    if s != "" {
      PaddedValue(zeros, s[..|s| - 1], base);
      ValueSnoc(Zeros(zeros) + s[..|s| - 1], s[|s| - 1], base);
      assert Zeros(zeros) + s == Zeros(zeros) + s[..|s| - 1] + [s[|s| - 1]];
    } else if zeros > 0 {
      PaddedValue(zeros - 1, "", base);
      ValueSnoc(Zeros(zeros - 1), '0', base);
      FillAll(zeros, '0');
      FillAll(zeros - 1, '0');
      assert Zeros(zeros) + "" == Zeros(zeros - 1) + ['0'];
      assert Zeros(zeros - 1) + "" == Zeros(zeros - 1);
    }
  }

  // --------------------------------------------------------------------------------- conversions

  lemma Powers()
    ensures Pow(8, 22) > WORD && Pow(10, 20) > WORD && Pow(16, 16) == WORD
  {
    assert Pow(16, 4) == 65536 && Pow(8, 4) == 4096 && Pow(10, 4) == 10000;
    PowSum(16, 4, 4);
    PowSum(16, 8, 8);
    PowSum(10, 4, 4);
    PowSum(10, 8, 8);
    PowSum(10, 16, 4);
    PowSum(8, 4, 4);
    PowSum(8, 8, 8);
    PowSum(8, 16, 4);
    PowSum(8, 20, 2);
    assert Pow(8, 2) == 64;
  }

  lemma {:induction false} PowSum(base: nat, m: nat, n: nat)
    ensures Pow(base, m + n) == Pow(base, m) * Pow(base, n)
    decreases m
  {
    if m > 0 {
      PowSum(base, m - 1, n);
      assert Pow(base, m + n) == base * Pow(base, m - 1 + n);
      assert base * (Pow(base, m - 1) * Pow(base, n)) == base * Pow(base, m - 1) * Pow(base, n);
    }
  }

  /** A 64-bit number has at most 22 digits in the bases printed, 20 in decimal and 16 in hexadecimal. */
  lemma Widths(i: nat, base: nat, limit: int, upper: bool)
    requires i < WORD && (base == 8 || base == 10 || base == 16)
    ensures 1 <= |Text(i, base, limit, upper)| <= 22
    ensures base == 10 ==> |Text(i, base, limit, upper)| <= 20
    ensures base == 16 ==> |Text(i, base, limit, upper)| <= 16
  {
    hide Text;
    Powers();
    TextLength(i, base, limit, upper, if base == 8 then 22 else if base == 10 then 20 else 16);
  }

  lemma TextUnfold(i: nat, base: nat, limit: int, upper: bool)
    requires 2 <= base <= 16
    ensures Text(i, base, limit, upper) ==
            (if Quot(i, base) == 0 || limit == 1 then "" else Text(Quot(i, base), base, Shorter(limit), upper))
            + [DigitChar(Rem(i, base), upper)]
  {
  }

  const HALF := 0x8000_0000
  const FULL := 0x1_0000_0000

  /** The sign test of a signed conversion looks at bit 31, and a negative number is negated in 32 bits. */
  predicate Negative(i: nat, signed: bool) { signed && i % FULL >= HALF }

  function Magnitude(i: nat, signed: bool): nat { if Negative(i, signed) then FULL - i % FULL else i }

  /** num_fmt; the text is what stands before the terminator in the buffer. */
  method NumFmt(i: nat, base: nat, padding: nat, padWith: char, signed: bool, upper: bool, limit: int)
    returns (text: string)
    requires i < WORD && (base == 8 || base == 10 || base == 16) && padding < 49 && (limit == -1 || limit > 0)
    requires signed ==> i % FULL != HALF
    ensures text == (if Negative(i, signed) then "-" else "")
                    + Padded(Text(Magnitude(i, signed), base, limit, upper), padding, padWith)
  {
    hide Text, DigitChar, Pow, Fill;
    var neg := Negative(i, signed);
    var m := if neg then FULL - i % FULL else i;
    Widths(m, base, limit, upper);
    var buf := new char[50];
    buf[49] := '\0';
    var ptr, pad := WriteDigits(buf, m, base, padding, upper, limit);
    ptr := WritePadding(buf, ptr, pad, padWith);
    PaddedLength(Text(m, base, limit, upper), padding, padWith);
    ghost var tail := buf[ptr..49];
    if neg {
      ptr := ptr - 1;
      buf[ptr] := '-';
      assert buf[ptr..49] == "-" + tail;
    }
    text := buf[ptr..49];
  }

  lemma PaddedLength(s: string, padding: nat, fill: char)
    ensures |Padded(s, padding, fill)| == if |s| < padding then padding else |s|
  {
    if |s| < padding {
      FillAll(padding - |s|, fill);
    }
  }

  /** What NumFmt writes for `%ld`: no padding, no limit. */
  function SignedText(i: nat): string {
    (if Negative(i, true) then "-" else "") + Text(Magnitude(i, true), 10, -1, false)
  }

  /** The number that a decimal text with an optional sign denotes. */
  function Reads(text: string): int {
    if text != "" && text[0] == '-' then 0 - Value(text[1..], 10) else Value(text, 10)
  }

  lemma SignedReads(i: nat)
    ensures Reads(SignedText(i)) == if Negative(i, true) then 0 - Magnitude(i, true) else Magnitude(i, true)
  {
    hide Text, Value;
    var digits := Text(Magnitude(i, true), 10, -1, false);
    TextDigits(Magnitude(i, true), 10, -1, false);
    TextValue(Magnitude(i, true), 10, false);
    if Negative(i, true) {
      assert SignedText(i)[1..] == digits;
    } else {
      assert SignedText(i) == digits;
      assert digits != "" ==> IsDecimal(digits[0]);
    }
  }

  /** A signed 64-bit number is printed as it is if and only if it is negative and fits 32 bits, or is not
      negative and has bit 31 clear. */
  lemma SignedExact(x: int)
    requires -HALF * FULL <= x < HALF * FULL && x % FULL != HALF
    ensures Reads(SignedText(x % WORD)) == x <==> if x < 0 then -HALF < x else x % FULL < HALF
  {
    hide SignedText, Reads;
    LowHalf(x);
    SignedReads(x % WORD);
    ModUnique(x, WORD, if x < 0 then -1 else 0, if x < 0 then x + WORD else x);
    SignedArithmetic(x, x % WORD, x % FULL);
  }

  lemma SignedArithmetic(x: int, m: nat, low: nat)
    requires -HALF * FULL <= x < HALF * FULL && m == (if x < 0 then x + WORD else x)
    requires low == x % FULL && low < FULL && low != HALF
    ensures (if low >= HALF then low - FULL else m) == x <==> if x < 0 then -HALF < x else low < HALF
  {
    if -HALF < x < 0 {
      ModUnique(x, FULL, -1, x + FULL);
    }
  }

  lemma LowHalf(x: int)
    ensures x % WORD % FULL == x % FULL
  {
    var q, r := x / WORD, x % WORD;
    assert x == FULL * (FULL * q + r / FULL) + r % FULL;
    ModUnique(x, FULL, FULL * q + r / FULL, r % FULL);
  }

  method WritePadding(buf: array<char>, start: nat, padding: nat, padWith: char) returns (ptr: nat)
    requires buf.Length == 50 && padding <= start <= 49
    modifies buf
    ensures ptr == start - padding && buf[ptr..49] == Fill(padding, padWith) + old(buf[start..49])
  {
    hide Fill;
    ghost var digits := buf[start..49];
    FillStep(0, padWith);
    ptr := start;
    var pad := padding;
    while pad > 0
      invariant 0 <= pad <= padding && ptr == start - (padding - pad)
      invariant buf[ptr..49] == Fill(padding - pad, padWith) + digits
    {
      ghost var tail := buf[ptr..49];
      ptr := ptr - 1;
      buf[ptr] := padWith;
      assert buf[ptr..49] == [padWith] + tail;
      FillStep(padding - pad, padWith);
      pad := pad - 1;
    }
  }

  /** The digit loop of num_fmt, and what is left of the padding. */
  method WriteDigits(buf: array<char>, i: nat, base: nat, padding: nat, upper: bool, limit: int)
    returns (ptr: nat, pad: nat)
    requires buf.Length == 50 && 2 <= base <= 16 && (limit == -1 || limit > 0)
    requires 1 <= |Text(i, base, limit, upper)| <= 49
    modifies buf
    ensures ptr == 49 - |Text(i, base, limit, upper)| && buf[ptr..49] == Text(i, base, limit, upper)
    ensures pad == if padding > 49 - ptr then padding - (49 - ptr) else 0
  {
    hide Text, DigitChar, Quot, Rem;
    ghost var digits := Text(i, base, limit, upper);
    var rest: nat := i;
    var left, more := limit, true;
    ptr, pad := 49, padding;
    while more
      invariant 0 <= ptr <= 49
      invariant digits == (if more then Text(rest, base, left, upper) else "") + buf[ptr..49]
      invariant more ==> left == -1 || left > 0
      invariant pad == if padding > 49 - ptr then padding - (49 - ptr) else 0
      decreases ptr, more
    {
      ghost var tail := buf[ptr..49];
      TextUnfold(rest, base, left, upper);
      var digit := DigitChar(Rem(rest, base), upper);
      ptr := ptr - 1;
      buf[ptr] := digit;
      assert buf[ptr..49] == [digit] + tail;
      pad := if pad > 0 then pad - 1 else pad;
      left := if left > 0 then left - 1 else left;
      rest := Quot(rest, base);
      more := rest != 0 && left != 0;
    }
  }

  /** The number part of the `%ld` conversion. */
  method PrintSigned(x: int) returns (text: string)
    requires -HALF * FULL <= x < HALF * FULL && x % FULL != HALF
    ensures text == SignedText(x % WORD)
    ensures Reads(text) == x <==> if x < 0 then -HALF < x else x % FULL < HALF
  {
    LowHalf(x);
    SignedExact(x);
    text := NumFmt(x % WORD, 10, 0, ' ', true, false, -1);
  }

  /** The output loop of a conversion, and the end of lai_vsnprintf: the text survives if it is
      shorter than the room given; a text that exactly fills the room gets three dots as well. */
  method PutText(text: string, room: nat) returns (out: string)
    requires room > 0
    ensures out == if |text| < room then text else text[..room] + "..."
  {
    var len, c := room, 0;
    out := "";
    while c < |text| && len > 0
      invariant 0 <= c <= |text| && c <= room && len == room - c && out == text[..c]
    {
      out := out + [text[c]];
      c := c + 1;
      len := len - 1;
    }
    if len == 0 {
      out := out + "...";
    }
  }

  /** Sixteen upper-case digits. */
  function HexText(i: nat): string { Padded(Text(i, 16, 16, true), 16, '0') }

  function DecimalText(i: nat): string { Text(i, 10, -1, false) }

  predicate IsUpperHex(c: char) { IsDecimal(c) || 'A' <= c <= 'F' }

  lemma {:induction false} TextUpper(i: nat, base: nat, limit: int)
    requires 2 <= base <= 16
    ensures forall k :: 0 <= k < |Text(i, base, limit, true)| ==> IsUpperHex(Text(i, base, limit, true)[k])
    decreases i
  {
    hide Text, Rem, Quot;
    TextUnfold(i, base, limit, true);
    DigitUpper(Rem(i, base));
    if Quot(i, base) != 0 && limit != 1 {
      TextUpper(Quot(i, base), base, Shorter(limit));
    }
  }

  lemma DigitUpper(d: nat)
    requires d < 16
    ensures IsUpperHex(DigitChar(d, true)) && (d >= 10 ==> 'a' <= DigitChar(d, false) <= 'f')
  {
  }

  /** No letter of a printed integer is lower case. */
  lemma HexUpper(i: nat)
    requires i < WORD
    ensures forall k :: 0 <= k < |HexText(i)| ==> IsUpperHex(HexText(i)[k])
  {
    hide Text;
    var digits := Text(i, 16, 16, true);
    Widths(i, 16, 16, true);
    TextUpper(i, 16, 16);
    FillAll(16 - |digits|, '0');
  }

  /** The integer case of lai_mutate_string: "%016lX" into 17 bytes. */
  method MutateString(i: nat) returns (s: string)
    requires i < WORD
    ensures s == HexText(i) && |s| == 16 && forall k :: 0 <= k < 16 ==> IsUpperHex(s[k])
  {
    HexUpper(i);
    Widths(i, 16, 16, true);
    FillAll(16 - |Text(i, 16, 16, true)|, '0');
    s := NumFmt(i, 16, 16, '0', false, true, 16);
    s := PutText(s, 17);
  }

  /** The integer case of lai_obj_to_decimal_string: "%llu" into 21 bytes. */
  method ToDecimalString(i: nat) returns (s: string)
    requires i < WORD
    ensures s == DecimalText(i) && 1 <= |s| <= 20
  {
    Widths(i, 10, -1, false);
    s := NumFmt(i, 10, 0, ' ', false, false, -1);
    s := PutText(s, 21);
  }

  // -------------------------------------------------------------------------------------- reading

  /** Number of leading hexadecimal digits, at most `limit`. */
  function HexRun(s: string, limit: nat): (k: nat)
    ensures k <= limit && k <= |s|
  {
    if limit == 0 || s == "" || !IsHex(s[0]) then 0 else 1 + HexRun(s[1..], limit - 1)
  }

  lemma {:induction false} ValueBound(s: string, base: nat)
    requires base >= 16
    ensures Value(s, base) < Pow(base, |s|)
  {
    if s != "" {
      ValueBound(s[..|s| - 1], base);
      var v, p := Value(s[..|s| - 1], base), Pow(base, |s| - 1);
      assert v * base + base <= base * p by {
        MulAtLeast(base, p - v);
        assert base * (p - v) == base * p - v * base;
      }
    }
  }

  /** The string case of lai_mutate_integer; at the end of the string stands the terminator. */
  method MutateInteger(s: string) returns (x: nat)
    ensures x == Value(s[..HexRun(s, 16)], 16) && x < WORD
  {
    hide IsHex, DigitValue;
    x := 0;
    var i := 0;
    while i < 16
      invariant 0 <= i <= 16 && i <= |s| && x == Value(s[..i], 16)
      invariant HexRun(s, 16) == i + HexRun(s[i..], 16 - i)
    {
      if i == |s| || !IsHex(s[i]) {
        break;
      }
      ShiftFits(s[..i]);
      assert s[..i + 1][..i] == s[..i] && s[i..][1..] == s[i + 1..];
      x := x * 16 % WORD + DigitValue(s[i]);
      i := i + 1;
    }
    ValueBound(s[..i], 16);
    SixteenDigits(i);
  }

  lemma {:induction false} SixteenDigits(n: nat)
    requires n <= 16
    ensures Pow(16, n) <= WORD
    decreases 16 - n
  {
    if n == 16 {
      Powers();
    } else {
      SixteenDigits(n + 1);
    }
  }

  lemma ShiftFits(s: string)
    requires |s| < 16
    ensures Value(s, 16) * 16 < WORD
  {
    ValueBound(s, 16);
    SixteenDigits(|s| + 1);
  }

  /** What lai_obj_to_integer reads: hexadecimal after 0x, otherwise decimal, modulo 2 to the 64. */
  function Number(s: string): Option<nat> {
    if |s| >= 2 && s[0] == '0' && (s[1] == 'x' || s[1] == 'X') then
      if AllHex(s[2..]) then Some(Value(s[2..], 16) % WORD) else None
    else if AllDecimal(s) then Some(Value(s, 10) % WORD) else None
  }

  /** The string case of lai_obj_to_integer. */
  method ToInteger(s: string) returns (r: Option<nat>)
    ensures r == Number(s)
  {
    if |s| >= 2 && s[0] == '0' && (s[1] == 'x' || s[1] == 'X') {
      r := ReadDigits(s[2..], 16);
    } else {
      r := ReadDigits(s, 10);
    }
  }

  method ReadDigits(s: string, base: nat) returns (r: Option<nat>)
    requires base == 10 || base == 16
    ensures r == if (base == 16 && AllHex(s)) || (base == 10 && AllDecimal(s))
                 then Some(Value(s, base) % WORD) else None
  {
    var integer := 0;
    for i := 0 to |s|
      invariant integer == Value(s[..i], base) % WORD
      invariant forall k :: 0 <= k < i ==> if base == 16 then IsHex(s[k]) else IsDecimal(s[k])
    {
      if (base == 16 && !IsHex(s[i])) || (base == 10 && !IsDecimal(s[i])) {
        return None;
      }
      assert s[..i + 1][..i] == s[..i];
      WrapStep(Value(s[..i], base), base, DigitValue(s[i]));
      integer := (integer * base + DigitValue(s[i])) % WORD;
    }
    assert s[..|s|] == s;
    r := Some(integer);
  }

  lemma WrapStep(v: nat, base: nat, d: nat)
    requires base == 10 || base == 16
    ensures (v % WORD * base + d) % WORD == (v * base + d) % WORD
  {
    var w := v % WORD * base + d;
    ModUnique(v * base + d, WORD, v / WORD * base + w / WORD, w % WORD);
  }

  // --------------------------------------------------------------------------------- round trips

  lemma {:induction false} HexRunAll(s: string)
    requires AllHex(s)
    ensures HexRun(s, |s|) == |s|
  {
    if s != "" {
      HexRunAll(s[1..]);
    }
  }

  /** Every 64-bit integer survives hexadecimal printing and reading. */
  lemma HexRoundTrip(i: nat)
    requires i < WORD
    ensures Value(HexText(i)[..HexRun(HexText(i), 16)], 16) == i
  {
    hide Text, Value, HexRun, Pow;
    var digits := Text(i, 16, 16, true);
    Widths(i, 16, 16, true);
    TextDigits(i, 16, 16, true);
    LimitedValue(i, 16, 16, true);
    Powers();
    var text := HexText(i);
    assert text == Zeros(16 - |digits|) + digits;
    FillAll(16 - |digits|, '0');
    assert AllHex(text);
    PaddedValue(16 - |digits|, digits, 16);
    HexRunAll(text);
    assert text[..16] == text;
  }

  /** Every 64-bit integer survives decimal printing and reading. */
  lemma DecimalRoundTrip(i: nat)
    requires i < WORD
    ensures Number(DecimalText(i)) == Some(i)
  {
    hide Text, Value;
    TextDigits(i, 10, -1, false);
    TextValue(i, 10, false);
  }
}

// `sprint_uint` and `sprint_int` (lib/src/cstr.c, lines 5-45): digits into a 33-byte scratch
// buffer, last digit first, then reversed into the caller's buffer.
module Printing {
  import opened Division

  function DigitChar(d: nat): char
    requires d < 36
  {
    if d < 10 then ('0' as int + d) as char else ('a' as int + d - 10) as char
  }

  function DigitValue(c: char): int {
    if '0' <= c <= '9' then c as int - '0' as int else c as int - 'a' as int + 10
  }

  lemma DigitBack(d: nat)
    requires d < 36
    ensures DigitValue(DigitChar(d)) == d && (DigitChar(d) == '0' <==> d == 0)
  {
  }

  /** The number a string of digits stands for. */
  function Parse(s: string, base: nat): int {
    if s == "" then 0 else Parse(s[..|s| - 1], base) * base + DigitValue(s[|s| - 1])
  }

  /** The digits of a positive number, most significant first. */
  function Digits(num: nat, base: nat): string
    requires 2 <= base <= 36
    decreases num
  {
    if num == 0 then "" else Digits(num / base, base) + [DigitChar(num % base)]
  }

  /** What `sprint_uint` prints. */
  function Printed(num: nat, base: nat): string
    requires 2 <= base <= 36
  {
    if num == 0 then "0" else Digits(num, base)
  }

  lemma ParseMore(t: string, c: char, base: nat)
    ensures Parse(t + [c], base) == Parse(t, base) * base + DigitValue(c)
  {
    hide DigitValue;
    assert (t + [c])[..|t|] == t;
  }

  lemma DigitsMore(num: nat, base: nat)
    requires 2 <= base <= 36 && num > 0
    ensures Digits(num, base) == Digits(num / base, base) + [DigitChar(num % base)]
  {
    hide DigitChar;
  }

  lemma {:induction false} DigitsParse(num: nat, base: nat)
    requires 2 <= base <= 36
    ensures Parse(Digits(num, base), base) == num
    decreases num
  {
    hide Parse, DigitChar, DigitValue;
    if num > 0 {
      QuotientSmaller(num, base);
      DigitsParse(num / base, base);
      DigitBack(num % base);
      DigitsMore(num, base);
      ParseMore(Digits(num / base, base), DigitChar(num % base), base);
    } else {
      ParseNone(base);
    }
  }

  lemma ParseNone(base: nat)
    ensures Parse("", base) == 0
  {
  }

  lemma {:induction false} DigitsLead(num: nat, base: nat)
    requires 2 <= base <= 36 && num > 0
    ensures Digits(num, base) != "" && Digits(num, base)[0] !in {'0', '-'}
    decreases num
  {
    hide Digits, DigitChar, DigitValue;
    DigitBack(num % base);
    NotMinus(num % base);
    DigitsMore(num, base);
    QuotientSmaller(num, base);
    if num / base > 0 {
      DigitsLead(num / base, base);
    } else {
      SmallQuotient(num, base);
      NoDigits(base);
    }
  }

  lemma NotMinus(d: nat)
    requires d < 36
    ensures DigitChar(d) != '-'
  {
  }

  lemma SmallQuotient(num: nat, base: nat)
    requires base > 0 && num / base == 0
    ensures num % base == num
  {
  }

  /** The printed text reads back as the number, has no leading zero, and two numbers never print alike. */
  lemma PrintedParses(num: nat, base: nat)
    requires 2 <= base <= 36
    ensures Parse(Printed(num, base), base) == num
    ensures Printed(num, base) != "" && Printed(num, base)[0] != '-' && (Printed(num, base)[0] == '0' ==> num == 0)
  {
    hide Digits, DigitChar;
    if num > 0 { DigitsParse(num, base); DigitsLead(num, base); } else { assert "0"[..0] == ""; }
  }

  lemma QuotientSmaller(num: nat, base: nat)
    requires base >= 2
    ensures 2 * (num / base) <= num
  {
    assert num == num / base * base + num % base;
    Grows(num / base, 2, base);
  }

  function Backwards(s: string): (r: string)
    ensures |r| == |s| && forall i :: 0 <= i < |s| ==> r[i] == s[|s| - 1 - i]
  {
    seq(|s|, i requires 0 <= i < |s| => s[|s| - 1 - i])
  }

  lemma DigitsNext(num: nat, base: nat, s: string)
    requires 2 <= base <= 36 && num > 0
    ensures Digits(num, base) + Backwards(s) == Digits(num / base, base) + Backwards(s + [DigitChar(num % base)])
  {
    hide DigitChar;
    var c := DigitChar(num % base);
    assert Backwards(s + [c]) == [c] + Backwards(s);
    assert Digits(num / base, base) + [c] + Backwards(s) == Digits(num / base, base) + ([c] + Backwards(s));
  }

  /** Lines 16-25: the digits into `temp`, which is never overrun. */
  method PutDigits(num: nat, base: nat, temp: array<char>) returns (i: nat)
    requires 2 <= base <= 36 && 0 < num < 0x1_0000_0000 && temp.Length == 33
    modifies temp
    ensures i <= 32 && Backwards(temp[..i]) == Digits(num, base)
  {
    PowerValues();
    hide *;
    i := 0;
    var left: nat := num;
    assert "" + Backwards(temp[..0]) == Backwards(temp[..0]);
    NoneBack(temp[..0]);
    assert Digits(num, base) + "" == Digits(num, base);
    while left > 0
      invariant i <= 32 && left < Pow2(32 - i)
      invariant Digits(num, base) == Digits(left, base) + Backwards(temp[..i])
      invariant left < 0x1_0000_0000
      decreases left
    {
      Room(left, i);
      var quot, rem := UdivMod(left, base);
      DivisionIs(left, base, quot, rem);
      DigitsNext(left, base, temp[..i]);
      NextFits(left, base, i);
      ghost var was := temp[..i];
      temp[i] := DigitChar(rem);
      assert temp[..i + 1] == was + [DigitChar(rem)];
      i := i + 1;
      left := quot;
    }
    NoDigits(base);
    assert "" + Backwards(temp[..i]) == Backwards(temp[..i]);
  }

  lemma NoneBack(s: string)
    requires s == ""
    ensures Backwards(s) == ""
  {
  }

  lemma NoDigits(base: nat)
    requires 2 <= base <= 36
    ensures Digits(0, base) == ""
  {
  }

  lemma Room(left: nat, i: nat)
    requires left > 0 && i <= 32 && left < Pow2(32 - i)
    ensures i < 32
  {
  }

  lemma NextFits(left: nat, base: nat, i: nat)
    requires base >= 2 && i < 32 && left < Pow2(32 - i)
    ensures left / base < Pow2(32 - (i + 1)) && left / base <= left && (left > 0 ==> left / base < left)
  {
    QuotientSmaller(left, base);
    assert Pow2(32 - i) == 2 * Pow2(32 - (i + 1));
  }

  lemma DivisionIs(n: nat, d: nat, q: nat, r: nat)
    requires d > 0 && n == q * d + r && r < d
    ensures q == n / d && r == n % d
  {
    Quotient(n, d, q, r);
  }

  /** `sprint_uint`: the text at the cursor, which moves past it. */
  method SprintUint(buf: array<char>, at: nat, num: nat, base: nat) returns (end: nat)
    requires 2 <= base <= 36 && num < 0x1_0000_0000 && at + |Printed(num, base)| <= buf.Length
    modifies buf
    ensures at <= end <= buf.Length && end <= at + 32 && buf[at..end] == Printed(num, base)
    ensures forall k :: 0 <= k < buf.Length && !(at <= k < end) ==> buf[k] == old(buf[k])
  {
    hide Digits, DigitChar;
    var temp := new char[33];
    var i: nat := 0;
    if num == 0 {
      temp[0] := '0';
      i := 1;
      assert Backwards(temp[..1]) == "0";
    } else {
      i := PutDigits(num, base, temp);
    }
    assert |Backwards(temp[..i])| == i;
    end := CopyBack(buf, at, temp, i);
  }

  lemma BackNext(s: string, k: nat)
    requires k < |s|
    ensures Backwards(s)[..k + 1] == Backwards(s)[..k] + [s[|s| - 1 - k]]
  {
  }

  /** Lines 28-33. */
  method CopyBack(buf: array<char>, at: nat, temp: array<char>, i: nat) returns (end: nat)
    requires i <= temp.Length && at + i <= buf.Length && buf != temp
    modifies buf
    ensures end == at + i && buf[at..end] == Backwards(temp[..i])
    ensures forall k :: 0 <= k < buf.Length && !(at <= k < end) ==> buf[k] == old(buf[k])
  {
    hide Backwards;
    ghost var s := temp[..i];
    end := at;
    var j := i;
    while j > 0
      invariant 0 <= j <= i && end == at + (i - j) && temp[..i] == s && buf[at..end] == Backwards(s)[..i - j]
      invariant forall k :: 0 <= k < buf.Length && !(at <= k < end) ==> buf[k] == old(buf[k])
    {
      j := j - 1;
      BackNext(s, i - 1 - j);
      assert s[j] == temp[j];
      buf[end] := temp[j];
      end := end + 1;
      assert buf[at..end] == buf[at..end - 1] + [s[j]];
    }
    assert Backwards(s)[..i] == Backwards(s);
  }

  /** What `sprint_int` prints; other bases than ten show the two's complement. */
  function PrintedInt(num: int, base: nat): string
    requires 2 <= base <= 36 && -0x8000_0000 <= num < 0x8000_0000
  {
    if num < 0 && base == 10 then "-" + Printed(-num, 10) else Printed(num % 0x1_0000_0000, base)
  }

  lemma PrintedIntIs(num: int, base: nat)
    requires 2 <= base <= 36 && -0x8000_0000 <= num < 0x8000_0000
    ensures num < 0 && base == 10 ==> PrintedInt(num, base) == "-" + Printed(-num, 10) && |PrintedInt(num, base)| == 1 + |Printed(-num, 10)|
    ensures !(num < 0 && base == 10) ==> PrintedInt(num, base) == Printed(num % 0x1_0000_0000, base)
  {
    hide Printed;
  }

  /** A decimal text with or without a sign. */
  function ParseInt(s: string): int {
    if s != "" && s[0] == '-' then -Parse(s[1..], 10) else Parse(s, 10)
  }

  /** Decimal text reads back as the number, the most negative one included. */
  lemma PrintedIntParses(num: int)
    requires -0x8000_0000 <= num < 0x8000_0000
    ensures ParseInt(PrintedInt(num, 10)) == num
  {
    hide Printed, Parse;
    if num < 0 {
      PrintedParses(-num, 10);
      assert ("-" + Printed(-num, 10))[1..] == Printed(-num, 10);
    } else {
      PrintedParses(num, 10);
    }
  }

  /** `sprint_int`: 32-bit negation of the most negative number is itself, read as unsigned 2^31. */
  method SprintInt(buf: array<char>, at: nat, num: int, base: nat) returns (end: nat)
    requires 2 <= base <= 36 && -0x8000_0000 <= num < 0x8000_0000 && at + |PrintedInt(num, base)| <= buf.Length
    modifies buf
    ensures at <= end <= buf.Length && end <= at + 33 && buf[at..end] == PrintedInt(num, base)
    ensures forall k :: 0 <= k < buf.Length && !(at <= k < end) ==> buf[k] == old(buf[k])
  {
    hide Printed, PrintedInt;
    PrintedIntIs(num, base);
    if num < 0 && base == 10 {
      buf[at] := '-';
      end := SprintUint(buf, at + 1, -num, base);
      assert buf[at..end] == "-" + buf[at + 1..end];
    } else {
      end := SprintUint(buf, at, num % 0x1_0000_0000, base);
    }
  }
}

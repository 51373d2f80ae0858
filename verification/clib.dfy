/**
 * The parts of the C runtime the core relies on, stated as functions over strings and integers:
 * strrchr, strchr, the strncpy-then-terminate idiom, _wcsicmp, _wtoi, and the conversions
 * between unsigned and signed 32-bit integers that MSVC performs.
 *
 * A C string is modelled by its characters before the terminating NUL, so writing '\0' at
 * position k of a buffer is modelled as keeping the prefix of length k.
 */
module CLib {
  import opened Wrappers

  function Min(a: int, b: int): int { if a <= b then a else b }

  /** unsigned char: the unit of every buffer and file. */
  type byte = bv8

  // ---------------------------------------------------------------- searching

  /** t is what s ends with. */
  predicate IsSuffixOf(t: string, s: string)
  {
    |t| <= |s| && forall i :: 0 <= i < |t| ==> t[i] == s[|s| - |t| + i]
  }

  /** c does not occur in s after position k. */
  predicate AbsentAfter(s: string, k: nat, c: char)
  {
    forall j :: k < j < |s| ==> s[j] != c
  }

  /** strrchr(s, c): the position of the last occurrence of c, if any. */
  function LastIndex(s: string, c: char): (r: Option<nat>)
    ensures r.Some? ==> r.value < |s| && s[r.value] == c && AbsentAfter(s, r.value, c)
    ensures r.None? ==> c !in s
  {
    if |s| == 0 then None
    else if s[|s| - 1] == c then Some(|s| - 1)
    else
      var r := LastIndex(s[..|s| - 1], c);
      assert r.None? ==> s == s[..|s| - 1] + [s[|s| - 1]];
      r
  }

  /** strchr(s, c): the position of the first occurrence of c, if any. */
  function FirstIndex(s: string, c: char): (r: Option<nat>)
    ensures r.Some? ==> r.value < |s| && s[r.value] == c && forall j :: 0 <= j < r.value ==> s[j] != c
    ensures r.None? ==> c !in s
  {
    if |s| == 0 then None
    else if s[0] == c then Some(0)
    else
      match FirstIndex(s[1..], c)
      case None => assert s == [s[0]] + s[1..]; None
      case Some(k) => Some(k + 1)
  }

  /**
   * `*strrchr(s, c) = '\0'` when the character occurs: everything before the last c,
   * or s unchanged when c does not occur.
   */
  function TruncateAtLast(s: string, c: char): (r: string)
    ensures r <= s
    ensures c in s ==> |r| < |s| && s[|r|] == c && AbsentAfter(s, |r|, c)
    ensures c !in s ==> r == s
  {
    match LastIndex(s, c)
    case None => s
    case Some(k) => s[..k]
  }

  /** What follows the last occurrence of c in s, or s itself when c does not occur. */
  function AfterLast(s: string, c: char): (r: string)
    ensures IsSuffixOf(r, s) && c !in r
    ensures |r| < |s| ==> s[|s| - |r| - 1] == c
  {
    match LastIndex(s, c)
    case None => s
    case Some(k) =>
      var r := s[k + 1..];
      assert forall i :: 0 <= i < |r| ==> r[i] == s[k + 1 + i];
      r
  }

  /** strncpy(dst, src, maxLen - 1) followed by dst[maxLen - 1] = '\0': at most maxLen - 1 characters survive. */
  function BoundedCopy(src: string, maxLen: nat): (r: string)
    requires maxLen >= 1
    ensures r <= src && |r| == Min(|src|, maxLen - 1)
  {
    if |src| < maxLen then src else src[..maxLen - 1]
  }

  // ---------------------------------------------------------------- path separators

  /** Both separators the core recognises: backslash (0x5C) and forward slash (0x2F). */
  predicate IsSeparator(c: char) { c == '\\' || c == '/' }

  predicate NoSeparator(s: string) { forall i :: 0 <= i < |s| ==> !IsSeparator(s[i]) }

  /** The position of the last separator of either kind, if any. */
  function LastSeparator(s: string): (r: Option<nat>)
    ensures r.Some? ==> r.value < |s| && IsSeparator(s[r.value])
    ensures r.Some? ==> forall j :: r.value < j < |s| ==> !IsSeparator(s[j])
    ensures r.None? ==> NoSeparator(s)
  {
    if |s| == 0 then None
    else if IsSeparator(s[|s| - 1]) then Some(|s| - 1)
    else LastSeparator(s[..|s| - 1])
  }

  /** The final component of a path: what follows its last separator of either kind, or the whole path. */
  function FinalComponent(path: string): (r: string)
    ensures IsSuffixOf(r, path) && NoSeparator(r)
    ensures |r| < |path| ==> IsSeparator(path[|path| - |r| - 1])
  {
    match LastSeparator(path)
    case None => path
    case Some(k) =>
      var r := path[k + 1..];
      assert forall i :: 0 <= i < |r| ==> r[i] == path[k + 1 + i];
      r
  }

  /**
   * The final component is the only suffix of the path that holds no separator and either is the
   * whole path or follows a separator.
   */
  lemma FinalComponentUnique(path: string, t: string)
    requires IsSuffixOf(t, path) && NoSeparator(t)
    requires |t| < |path| ==> IsSeparator(path[|path| - |t| - 1])
    ensures t == FinalComponent(path)
  {
    var f := FinalComponent(path);
    SeparatedSuffixesHaveOneLength(path, t, f);
    EqualLengthSuffixesAgree(path, t, f);
  }

  /** A separator-free suffix that is the whole path or follows a separator has only one possible length. */
  lemma SeparatedSuffixesHaveOneLength(path: string, t: string, f: string)
    requires IsSuffixOf(t, path) && NoSeparator(t)
    requires |t| < |path| ==> IsSeparator(path[|path| - |t| - 1])
    requires IsSuffixOf(f, path) && NoSeparator(f)
    requires |f| < |path| ==> IsSeparator(path[|path| - |f| - 1])
    ensures |t| == |f|
  {
    if |t| < |f| {
      SuffixAgreesFromEnd(path, f, |t| + 1);
    } else if |f| < |t| {
      SuffixAgreesFromEnd(path, t, |f| + 1);
    }
  }

  /** A suffix and the whole string agree at the j-th position from the end. */
  lemma SuffixAgreesFromEnd(s: string, t: string, j: nat)
    requires IsSuffixOf(t, s) && 0 < j <= |t|
    ensures t[|t| - j] == s[|s| - j]
  {
  }

  lemma EqualLengthSuffixesAgree(path: string, t: string, f: string)
    requires IsSuffixOf(t, path) && IsSuffixOf(f, path) && |t| == |f|
    ensures t == f
  {
  }

  // ---------------------------------------------------------------- case-insensitive comparison

  /** towlower in the "C" locale: only the ASCII letters A-Z change. */
  function LowerAscii(c: char): char
  {
    if 'A' <= c <= 'Z' then (c as int + 32) as char else c
  }

  /** _wcsicmp(a, b) == 0 */
  predicate EqualIgnoringCase(a: string, b: string)
  {
    |a| == |b| && forall i :: 0 <= i < |a| ==> LowerAscii(a[i]) == LowerAscii(b[i])
  }

  // ---------------------------------------------------------------- integers

  const TwoTo31: int := 0x8000_0000
  const TwoTo32: int := 0x1_0000_0000
  const IntMin: int := -TwoTo31
  const IntMax: int := TwoTo31 - 1
  /** The largest value of a Windows `long` (32 bits), the type of ftell and of fseek's offset. */
  const LongMax: int := IntMax

  /** ftell at the end of a file of `length` bytes: a 32-bit long cannot hold a larger offset, and ftell then reports -1. */
  function Ftell(length: nat): (r: int)
    ensures r == -1 || r == length
    ensures r >= 0 <==> length <= LongMax
  {
    if length <= LongMax then length else -1
  }

  /** The values a 32-bit unsigned integer (DWORD, uint32_t) can hold. */
  type U32 = x: int | 0 <= x < TwoTo32

  /** The (int) cast of a DWORD: a two's-complement reinterpretation of its 32 bits. */
  function SignedFromDword(v: U32): (r: int)
    ensures IntMin <= r <= IntMax
    ensures (r - v) % TwoTo32 == 0
    ensures r >= 0 <==> v < TwoTo31
  {
    if v < TwoTo31 then v else v - TwoTo32
  }

  /** Two's-complement wrap-around of a 32-bit signed int or long (what MSVC's arithmetic and narrowing casts produce). */
  function WrapInt32(x: int): (r: int)
    ensures IntMin <= r <= IntMax
    ensures (r - x) % TwoTo32 == 0
    ensures IntMin <= x <= IntMax ==> r == x
  {
    var low := x % TwoTo32;
    if low < TwoTo31 then low else low - TwoTo32
  }

  // ---------------------------------------------------------------- _wtoi

  predicate IsDigit(c: char) { '0' <= c <= '9' }

  /** The white space isspace accepts. */
  predicate IsSpace(c: char) { c == ' ' || c == '\t' || c == '\n' || c == '\r' || c == '\U{0B}' || c == '\U{0C}' }

  /** The number of leading characters of s satisfying the digit test. */
  function DigitRun(s: string): (n: nat)
    ensures n <= |s|
    ensures forall i :: 0 <= i < n ==> IsDigit(s[i])
    ensures n < |s| ==> !IsDigit(s[n])
  {
    if |s| == 0 || !IsDigit(s[0]) then 0 else 1 + DigitRun(s[1..])
  }

  /** s without its leading white space. */
  function SkipSpaces(s: string): (r: string)
    ensures IsSuffixOf(r, s)
    ensures forall i :: 0 <= i < |s| - |r| ==> IsSpace(s[i])
    ensures r != [] ==> !IsSpace(r[0])
  {
    if |s| > 0 && IsSpace(s[0]) then
      var r := SkipSpaces(s[1..]);
      SuffixOfTail(r, s);
      SpacesBeforeTail(r, s);
      r
    else s
  }

  /** When s starts with white space, the white space before a suffix of s[1..] stays white space in s. */
  lemma SpacesBeforeTail(r: string, s: string)
    requires |s| > 0 && IsSpace(s[0]) && |r| <= |s| - 1
    requires forall i :: 0 <= i < |s| - 1 - |r| ==> IsSpace(s[1..][i])
    ensures forall i :: 0 <= i < |s| - |r| ==> IsSpace(s[i])
  {
    forall i | 0 < i < |s| - |r|
      ensures IsSpace(s[i])
    {
      assert s[i] == s[1..][i - 1];
    }
  }

  /** A suffix of everything after the first character is a suffix of the whole. */
  lemma SuffixOfTail(t: string, s: string)
    requires |s| > 0 && IsSuffixOf(t, s[1..])
    ensures IsSuffixOf(t, s)
  {
    forall i | 0 <= i < |t|
      ensures t[i] == s[|s| - |t| + i]
    {
      assert t[i] == s[1..][|s| - 1 - |t| + i];
    }
  }

  /** The value of a string of decimal digits. */
  function DecimalValue(digits: string): nat
    requires forall i :: 0 <= i < |digits| ==> IsDigit(digits[i])
  {
    if digits == [] then 0
    else
      var last := digits[|digits| - 1];
      assert IsDigit(last);
      DecimalValue(digits[..|digits| - 1]) * 10 + (last as int - '0' as int)
  }

  /**
   * _wtoi(s): skips leading white space, reads an optional sign and the run of decimal digits
   * that follows it, and saturates at INT_MIN / INT_MAX on overflow, as the Universal C Runtime
   * does; white space and digits are the ASCII ones. A string without digits reads as 0.
   */
  function Wtoi(s: string): (r: int)
    ensures IntMin <= r <= IntMax
  {
    var t := SkipSpaces(s);
    var signed := |t| > 0 && (t[0] == '-' || t[0] == '+');
    var rest := if signed then t[1..] else t;
    var magnitude: int := DecimalValue(rest[..DigitRun(rest)]);
    var v := if signed && t[0] == '-' then -magnitude else magnitude;
    if v < IntMin then IntMin else if v > IntMax then IntMax else v
  }

  /** A character with which _wtoi can begin reading a number: white space, a sign or a digit. */
  predicate MayStartNumber(c: char) { IsSpace(c) || c == '-' || c == '+' || IsDigit(c) }

  /** Text that starts with anything else reads as 0. */
  lemma WtoiOfNonNumeric(s: string)
    requires |s| > 0 && !MayStartNumber(s[0])
    ensures Wtoi(s) == 0
  {
    assert SkipSpaces(s) == s;
    assert DigitRun(s) == 0;
  }

  /** Leading white space does not change what _wtoi reads. */
  lemma WtoiSkipsLeadingSpace(s: string)
    requires |s| > 0 && IsSpace(s[0])
    ensures Wtoi(s) == Wtoi(s[1..])
  {
  }

  /** A minus sign followed by digits reads as the negated decimal value, capped at INT_MIN. */
  lemma {:induction false} WtoiOfNegativeDigits(digits: string)
    requires |digits| > 0 && forall i :: 0 <= i < |digits| ==> IsDigit(digits[i])
    ensures var v := -(DecimalValue(digits) as int); Wtoi("-" + digits) == if v < IntMin then IntMin else v
  {
    var s := "-" + digits;
    assert !IsSpace(s[0]) && SkipSpaces(s) == s;
    assert s[1..] == digits;
    DigitRunOfDigits(digits);
    assert digits[..|digits|] == digits;
  }

  /** A string made only of digits reads as its decimal value, capped at INT_MAX. */
  lemma {:induction false} WtoiOfDigits(s: string)
    requires |s| > 0 && forall i :: 0 <= i < |s| ==> IsDigit(s[i])
    ensures Wtoi(s) == Min(DecimalValue(s), IntMax)
  {
    assert !IsSpace(s[0]) && SkipSpaces(s) == s;
    DigitRunOfDigits(s);
    assert s[..|s|] == s;
  }

  lemma {:induction false} DigitRunOfDigits(s: string)
    requires forall i :: 0 <= i < |s| ==> IsDigit(s[i])
    ensures DigitRun(s) == |s|
  {
    if |s| > 0 { DigitRunOfDigits(s[1..]); }
  }
}

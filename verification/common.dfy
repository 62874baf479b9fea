/**
 * Shared vocabulary of the model: optional values, results carrying the C
 * error code, the fixed-width integer ranges of the C structures, and the
 * decimal rendering that `snprintf("%u")` produces.
 */
module Common {

  /** A value that may be absent: a pointer that may be NULL, a key that may be missing. */
  datatype Option<+T> = None | Some(value: T)

  /** The outcome of a C call that returns 0 and fills an out-parameter, or returns a negative code. */
  datatype Result<+T> = Ok(value: T) | Err(code: int)

  type u8 = x: int | 0 <= x < 0x100
  type u16 = x: int | 0 <= x < 0x1_0000
  type u32 = x: int | 0 <= x < 0x1_0000_0000
  type u64 = x: int | 0 <= x < 0x1_0000_0000_0000_0000

  /** 2^32: unsigned 32-bit arithmetic is arithmetic modulo this number. */
  const U32_MODULUS: nat := 0x1_0000_0000

  /** The ASCII digit for 0 <= d < 10. */
  function DigitChar(d: nat): (c: char)
    requires d < 10
    ensures '0' <= c <= '9' && (c - '0') as nat == d
  {
    ('0' as int + d) as char
  }

  /** The value of a string of decimal digits, most significant first. */
  function DecimalValue(s: string): nat
    requires forall i :: 0 <= i < |s| ==> '0' <= s[i] <= '9'
  {
    if s == [] then 0 else DecimalValue(s[..|s| - 1]) * 10 + (s[|s| - 1] - '0') as nat
  }

  /** `%u`: the shortest decimal rendering of n (no leading zeros, "0" for zero). */
  function DecimalString(n: nat): (s: string)
    ensures 1 <= |s|
    ensures forall i :: 0 <= i < |s| ==> '0' <= s[i] <= '9'
    ensures DecimalValue(s) == n
    ensures |s| > 1 ==> s[0] != '0'
  {
    if n < 10 then [DigitChar(n)] else DecimalString(n / 10) + [DigitChar(n % 10)]
  }

  /** A lower-case hexadecimal digit, as `%x` writes them. */
  predicate IsHexDigit(c: char)
  {
    '0' <= c <= '9' || 'a' <= c <= 'f'
  }

  function HexDigitValue(c: char): (d: nat)
    requires IsHexDigit(c)
    ensures d < 16
  {
    if c <= '9' then (c - '0') as nat else (c - 'a') as nat + 10
  }

  function HexDigitChar(d: nat): (c: char)
    requires d < 16
    ensures IsHexDigit(c) && HexDigitValue(c) == d
  {
    if d < 10 then ('0' as int + d) as char else ('a' as int + d - 10) as char
  }

  /** The value of a string of hexadecimal digits, most significant first. */
  function HexValue(s: string): nat
    requires forall i :: 0 <= i < |s| ==> IsHexDigit(s[i])
  {
    if s == [] then 0 else HexValue(s[..|s| - 1]) * 16 + HexDigitValue(s[|s| - 1])
  }

  /**
   * `%0<width>x`: n in lower-case hexadecimal, padded with zeros on the
   * left to at least `width` digits, and with no further leading zeros.
   */
  function HexString(n: nat, width: nat): (s: string)
    ensures |s| >= 1 && |s| >= width
    ensures forall i :: 0 <= i < |s| ==> IsHexDigit(s[i])
    ensures HexValue(s) == n
    ensures |s| > width && |s| > 1 ==> s[0] != '0'
    decreases n + width
  {
    if n < 16 && width <= 1 then [HexDigitChar(n)]
    else HexString(n / 16, if width > 0 then width - 1 else 0) + [HexDigitChar(n % 16)]
  }

  /** Index of the first occurrence of c in s, |s| when there is none. */
  function IndexOf(s: string, c: char): (i: nat)
    ensures i <= |s|
    ensures i < |s| ==> s[i] == c
    ensures forall k :: 0 <= k < i ==> s[k] != c
  {
    if s == [] then 0 else if s[0] == c then 0 else 1 + IndexOf(s[1..], c)
  }

  /** IndexOf is determined by its contract: the first position holding c. */
  lemma {:induction false} IndexOfAt(s: string, c: char, i: nat)
    requires i < |s| && s[i] == c
    requires forall k :: 0 <= k < i ==> s[k] != c
    ensures IndexOf(s, c) == i
  {
    if i > 0 {
      IndexOfAt(s[1..], c, i - 1);
    }
  }

  /** Without c in s, IndexOf runs to the end. */
  lemma {:induction false} IndexOfAbsent(s: string, c: char)
    requires c !in s
    ensures IndexOf(s, c) == |s|
  {
    if s != [] {
      IndexOfAbsent(s[1..], c);
    }
  }

  /** A sequence shifted down over entry idx of its first n, as slices. */
  lemma ShiftedSlices<T>(before: seq<T>, after: seq<T>, idx: nat, n: nat)
    requires idx < n <= |before| == |after|
    requires forall k :: 0 <= k < idx ==> after[k] == before[k]
    requires forall k :: idx <= k < n - 1 ==> after[k] == before[k + 1]
    requires forall k :: n - 1 <= k < |after| ==> after[k] == before[k]
    ensures after[..n - 1] == before[..n][..idx] + before[..n][idx + 1..]
    ensures after[n - 1..] == before[n - 1..]
  {
    var shifted := before[..n][..idx] + before[..n][idx + 1..];
    forall k | 0 <= k < n - 1 ensures after[k] == shifted[k] {
      if k >= idx {
        assert shifted[k] == before[k + 1];
      }
    }
  }
}

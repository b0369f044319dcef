/** String helpers: joining with a separator, counting a character, decimal digits, suffixes. */
module Text {

  /** The parts glued together with `sep` between neighbours, as Python's `str.join`
      and Rust's `[String]::join` do; no parts give the empty string. */
  function Join(parts: seq<string>, sep: string): string
    decreases |parts|
  {
    if |parts| == 0 then ""
    else if |parts| == 1 then parts[0]
    else parts[0] + sep + Join(parts[1..], sep)
  }

  /** Number of occurrences of `c` in `s`. */
  function Count(s: string, c: char): (n: nat)
    ensures n <= |s|
    ensures n == 0 <==> c !in s
  {
    if s == [] then 0
    else (if s[0] == c then 1 else 0) + Count(s[1..], c)
  }

  lemma {:induction false} CountConcat(a: string, b: string, c: char)
    ensures Count(a + b, c) == Count(a, c) + Count(b, c)
  {
    if a != [] {
      assert (a + b)[1..] == a[1..] + b;
      CountConcat(a[1..], b, c);
    } else {
      assert a + b == b;
    }
  }

  /** A character that occurs in no part and not in the separator does not occur in the join. */
  lemma {:induction false} JoinAvoids(parts: seq<string>, sep: string, c: char)
    requires c !in sep
    requires forall i :: 0 <= i < |parts| ==> c !in parts[i]
    ensures c !in Join(parts, sep)
    decreases |parts|
  {
    if |parts| > 1 {
      JoinAvoids(parts[1..], sep, c);
      assert c !in Join(parts[1..], sep);
      var r := Join(parts[1..], sep);
      assert Join(parts, sep) == parts[0] + sep + r;
      forall i | 0 <= i < |parts[0] + sep + r| ensures (parts[0] + sep + r)[i] != c {
        if i < |parts[0]| {
        } else if i < |parts[0]| + |sep| {
          assert (parts[0] + sep + r)[i] == sep[i - |parts[0]|];
        } else {
          assert (parts[0] + sep + r)[i] == r[i - |parts[0]| - |sep|];
        }
      }
    }
  }

  /** Joining n parts free of `c` with the one-character separator `c` yields exactly n - 1
      occurrences of `c`, so splitting at `c` gives the n parts back. */
  lemma {:induction false} JoinSeparatorCount(parts: seq<string>, c: char)
    requires |parts| > 0
    requires forall i :: 0 <= i < |parts| ==> c !in parts[i]
    ensures Count(Join(parts, [c]), c) == |parts| - 1
    decreases |parts|
  {
    if |parts| > 1 {
      JoinSeparatorCount(parts[1..], c);
      CountConcat(parts[0] + [c], Join(parts[1..], [c]), c);
      CountConcat(parts[0], [c], c);
    }
  }

  function DigitChar(d: nat): (c: char)
    requires d < 10
    ensures '0' <= c <= '9'
  {
    ('0' as int + d) as char
  }

  /** The decimal numeral of `n`, without leading zeros. */
  function Digits(n: nat): (s: string)
    ensures |s| >= 1
    ensures forall i :: 0 <= i < |s| ==> '0' <= s[i] <= '9'
  {
    if n < 10 then [DigitChar(n)] else Digits(n / 10) + [DigitChar(n % 10)]
  }

  /** The decimal numeral of `i`, with a leading '-' when negative (Python's `str` of an int). */
  function IntText(i: int): (s: string)
    ensures forall k :: 0 <= k < |s| ==> s[k] == '-' || '0' <= s[k] <= '9'
  {
    if i < 0 then "-" + Digits(-i) else Digits(i)
  }

  predicate EndsWith(s: string, suffix: string) {
    |suffix| <= |s| && s[|s| - |suffix|..] == suffix
  }
}

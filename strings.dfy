/** The string and number helpers of the broker's utility file. A C string
    is modelled by its characters before the terminating NUL; where a
    helper works on a buffer in place, the buffer is an array that holds
    the NUL explicitly. */
module Strings {

  const NUL: char := '\0'

  /** The C `int` range; `parse_int` and `update_integer_string` compute
      in it, and leaving it is undefined behaviour. */
  const INT_MIN: int := -0x8000_0000
  const INT_MAX: int := 0x7fff_ffff
  /** One more than the largest `size_t`. */
  const SIZE_T_RANGE: int := 0x1_0000_0000_0000_0000

  predicate IsDigit(ch: char)
  {
    '0' <= ch <= '9'
  }

  predicate AllDigits(s: seq<char>)
  {
    forall i :: 0 <= i < |s| ==> IsDigit(s[i])
  }

  function DigitValue(ch: char): nat
    requires IsDigit(ch)
  {
    ch as int - '0' as int
  }

  function DigitChar(d: nat): (ch: char)
    requires d < 10
    ensures IsDigit(ch) && DigitValue(ch) == d
  {
    ('0' as int + d) as char
  }

  /** The number a run of decimal digits denotes. */
  function Value(ds: seq<char>): nat
    requires AllDigits(ds)
  {
    if ds == [] then 0
    else
      var init := ds[..|ds| - 1];
      assert AllDigits(init) by {
        forall i | 0 <= i < |init| ensures IsDigit(init[i]) { assert init[i] == ds[i]; }
      }
      Value(init) * 10 + DigitValue(ds[|ds| - 1])
  }

  /** The longest prefix of `s` made of digits. */
  function LeadingDigits(s: seq<char>): (r: seq<char>)
    ensures r <= s && AllDigits(r)
    ensures |r| < |s| ==> !IsDigit(s[|r|])
  {
    if s == [] || !IsDigit(s[0]) then []
    else [s[0]] + LeadingDigits(s[1..])
  }

  /** What `parse_int` computes: the value of the leading digits. */
  function ParseValue(s: seq<char>): nat
  {
    Value(LeadingDigits(s))
  }

  /** A prefix of digits followed by the end or a non-digit is the
      leading run. */
  lemma {:induction false} LeadingDigitsAt(s: seq<char>, i: nat)
    requires i <= |s| && AllDigits(s[..i])
    requires i < |s| ==> !IsDigit(s[i])
    ensures LeadingDigits(s) == s[..i]
  {
    if i > 0 {
      assert IsDigit(s[..i][0]);
      var u := s[1..][..i - 1];
      assert AllDigits(u) by {
        forall j | 0 <= j < |u| ensures IsDigit(u[j]) { assert u[j] == s[..i][j + 1]; }
      }
      LeadingDigitsAt(s[1..], i - 1);
      assert s[..i] == [s[0]] + s[1..][..i - 1];
    }
  }

  /** Whatever follows a non-digit is never read. */
  lemma ParseValueIgnoresSuffix(ds: seq<char>, ch: char, rest: seq<char>)
    requires AllDigits(ds) && !IsDigit(ch)
    ensures ParseValue(ds + [ch] + rest) == Value(ds)
  {
    var s := ds + [ch] + rest;
    assert s[..|ds|] == ds;
    LeadingDigitsAt(s, |ds|);
  }

  /** A string that does not start with a digit parses as 0. */
  lemma ParseValueNoDigit(s: seq<char>)
    requires s == [] || !IsDigit(s[0])
    ensures ParseValue(s) == 0
  {
  }

  /** is_integer: true exactly when every character is a digit (so also
      for the empty string). */
  method IsInteger(s: seq<char>) returns (b: bool)
    ensures b <==> AllDigits(s)
  {
    var i := 0;
    while i < |s|
      invariant 0 <= i <= |s|
      invariant AllDigits(s[..i])
    {
      if !IsDigit(s[i]) {
        return false;
      }
      assert s[..i + 1] == s[..i] + [s[i]];
      i := i + 1;
    }
    assert s[..i] == s;
    return true;
  }

  /** parse_int: the value of the longest leading run of digits. */
  method ParseInt(s: seq<char>) returns (n: int)
    ensures n == ParseValue(s)
  {
    n := 0;
    var i := 0;
    while i < |s| && IsDigit(s[i])
      invariant 0 <= i <= |s|
      invariant AllDigits(s[..i])
      invariant n == Value(s[..i])
    {
      assert s[..i + 1][..i] == s[..i];
      n := n * 10 + DigitValue(s[i]);
      i := i + 1;
    }
    LeadingDigitsAt(s, i);
  }

  /** How many decimal digits a positive number has; none for 0. */
  function DigitCount(n: nat): nat
  {
    if n == 0 then 0 else 1 + DigitCount(n / 10)
  }

  /** number_len: one more than the digit count, hence 1 for 0. */
  method NumberLen(number: nat) returns (len: int)
    requires number < SIZE_T_RANGE
    ensures len == 1 + DigitCount(number)
    ensures len >= 1 && (number == 0 <==> len == 1)
  {
    len := 1;
    var m := number;
    while m > 0
      invariant len + DigitCount(m) == 1 + DigitCount(number)
    {
      len := len + 1;
      m := m / 10;
    }
  }

  /** The decimal digits of `n`, without leading zeros ("0" for 0). */
  function RenderNat(n: nat): (r: seq<char>)
    ensures |r| >= 1 && AllDigits(r)
  {
    if n < 10 then [DigitChar(n)]
    else RenderNat(n / 10) + [DigitChar(n % 10)]
  }

  /** sprintf with "%d": a minus sign before the digits of a negative. */
  function Render(n: int): (r: seq<char>)
    ensures |r| >= 1
  {
    if n < 0 then ['-'] + RenderNat(-n) else RenderNat(n)
  }

  /** The digits rendered read back as the number. */
  lemma {:induction false} RenderNatValue(n: nat)
    ensures Value(RenderNat(n)) == n
  {
    if n >= 10 {
      RenderNatValue(n / 10);
      var r := RenderNat(n);
      assert r[..|r| - 1] == RenderNat(n / 10);
    }
  }

  /** parse_int undoes sprintf("%d") on every number that is not
      negative, and yields 0 on a negative one (it stops at the '-'). */
  lemma ParseRender(n: int)
    ensures n >= 0 ==> ParseValue(Render(n)) == n
    ensures n < 0 ==> ParseValue(Render(n)) == 0
  {
    if n >= 0 {
      var r := Render(n);
      assert r[..|r|] == r;
      LeadingDigitsAt(r, |r|);
      RenderNatValue(n);
    }
  }

  /** A positive number has as many digits as its rendering. */
  lemma {:induction false} RenderNatLength(n: nat)
    requires n > 0
    ensures |RenderNat(n)| == DigitCount(n)
  {
    if n >= 10 {
      RenderNatLength(n / 10);
    }
  }

  lemma {:induction false} DigitCountBelow(n: nat, k: nat, p: nat)
    requires p == Pow10(k) && n < p
    ensures DigitCount(n) <= k
  {
    if n > 0 {
      assert k > 0;
      DigitCountBelow(n / 10, k - 1, Pow10(k - 1));
    }
  }

  lemma {:induction false} DigitCountAtLeast(n: nat, k: nat, p: nat)
    requires p == Pow10(k) && n >= p
    ensures DigitCount(n) >= k + 1
  {
    if k > 0 {
      DigitCountAtLeast(n / 10, k - 1, Pow10(k - 1));
    }
  }

  function Pow10(k: nat): (p: nat)
    ensures p >= 1
  {
    if k == 0 then 1 else 10 * Pow10(k - 1)
  }

  /** What number_len is given in update_integer_string: the `int` sum
      converted to `size_t`, which wraps a negative value around. */
  function SizeT(n: int): nat
  {
    n % SIZE_T_RANGE
  }

  /** The buffer `tmp` of update_integer_string, number_len(n) + 1 bytes,
      always holds sprintf("%d", n) and its NUL for an `int` n: a negative
      n is seen by number_len as a 20-digit `size_t`. */
  lemma RenderFits(n: int)
    requires INT_MIN <= n <= INT_MAX
    ensures |Render(n)| + 1 <= 1 + DigitCount(SizeT(n)) + 1
  {
    var ten := Pow10(10);
    assert ten == 10_000_000_000;
    if n > 0 {
      RenderNatLength(n);
    } else if n < 0 {
      RenderNatLength(-n);
      DigitCountBelow(-n, 10, ten);
      var nineteen := Pow10(19);
      assert nineteen == 10_000_000_000_000_000_000;
      DigitCountAtLeast(SizeT(n), 19, nineteen);
    }
  }

  /** Removal of every `c`, the other characters kept in order. */
  function Removed(s: seq<char>, c: char): seq<char>
  {
    if s == [] then []
    else
      var rest := Removed(s[..|s| - 1], c);
      if s[|s| - 1] == c then rest else rest + [s[|s| - 1]]
  }

  function Count(s: seq<char>, c: char): nat
  {
    multiset(s)[c]
  }

  /** The result has no `c` left, every other character keeps its number
      of occurrences, and the length drops by the occurrences of `c`. */
  lemma {:induction false} RemovedSpec(s: seq<char>, c: char)
    ensures Count(Removed(s, c), c) == 0
    ensures forall x :: x != c ==> multiset(Removed(s, c))[x] == multiset(s)[x]
    ensures |Removed(s, c)| == |s| - Count(s, c)
  {
    if s != [] {
      var init := s[..|s| - 1];
      var last := s[|s| - 1];
      RemovedSpec(init, c);
      var r := Removed(init, c);
      assert s == init + [last];
      assert multiset(s) == multiset(init) + multiset{last};
      if last != c {
        assert Removed(s, c) == r + [last];
        assert multiset(r + [last]) == multiset(r) + multiset{last};
      } else {
        assert Removed(s, c) == r;
      }
    }
  }

  /** Removing twice changes nothing more. */
  lemma {:induction false} RemovedIdempotent(s: seq<char>, c: char)
    ensures Removed(Removed(s, c), c) == Removed(s, c)
  {
    if s != [] {
      var init := s[..|s| - 1];
      RemovedIdempotent(init, c);
      var r := Removed(init, c);
      if s[|s| - 1] != c {
        assert (r + [s[|s| - 1]])[..|r|] == r;
      }
    }
  }

  /** A C string of length `len` sits in `a`: no NUL before index `len`,
      a NUL at it. */
  ghost predicate CString(a: array<char>, len: nat)
    reads a
  {
    len < a.Length && a[len] == NUL && forall i :: 0 <= i < len ==> a[i] != NUL
  }

  /** remove_occur: the string is compacted in place with a read and a
      write index; the result is the same buffer, holding the string
      without `c`, NUL-terminated, bytes past the new end untouched. */
  method RemoveOccur(a: array<char>, c: char, ghost len: nat) returns (r: array<char>)
    requires CString(a, len)
    modifies a
    ensures r == a
    ensures var s := Removed(old(a[..len]), c);
      && |s| <= len && CString(a, |s|) && a[..|s|] == s
      && forall k :: |s| < k < a.Length ==> a[k] == old(a[k])
  {
    ghost var s0 := a[..len];
    var pp := Compact(a, c, len);
    ghost var s := Removed(s0, c);
    RemovedSpec(s0, c);
    RemovedHasNoNul(s0, c);
    a[pp] := NUL;
    assert a[..pp] == s;
    r := a;
  }

  /** The loop of remove_occur: every character up to the terminator is
      read once and written back at the write index unless it is `c`;
      the write index ends at the length of the result. */
  method Compact(a: array<char>, c: char, ghost len: nat) returns (pp: nat)
    requires CString(a, len)
    modifies a
    ensures pp <= len && a[..pp] == Removed(old(a[..len]), c)
    ensures forall k :: pp < k < a.Length ==> a[k] == old(a[k])
  {
    ghost var s0 := a[..len];
    var p := 0;
    pp := 0;
    while a[p] != NUL
      invariant 0 <= pp <= p <= len
      invariant a[..pp] == Removed(s0[..p], c)
      invariant a[p] == old(a[p])
      invariant forall k :: pp < k < a.Length ==> a[k] == old(a[k])
      decreases len - p
    {
      RemovedNext(s0, p, c);
      ghost var kept := a[..pp];
      a[pp] := a[p];
      assert a[..pp] == kept;
      p := p + 1;
      if a[pp] != c {
        assert a[..pp + 1] == kept + [a[pp]];
        pp := pp + 1;
      }
    }
    assert p == len;
    assert s0[..p] == s0;
  }

  /** One more character of the input extends the result by it, unless
      it is `c`. */
  lemma RemovedNext(s: seq<char>, i: nat, c: char)
    requires i < |s|
    ensures Removed(s[..i + 1], c) == if s[i] == c then Removed(s[..i], c) else Removed(s[..i], c) + [s[i]]
  {
    assert s[..i + 1][..i] == s[..i];
  }

  /** Removal adds no character, in particular no NUL. */
  lemma {:induction false} RemovedHasNoNul(s: seq<char>, c: char)
    requires forall i :: 0 <= i < |s| ==> s[i] != NUL
    ensures forall i :: 0 <= i < |Removed(s, c)| ==> Removed(s, c)[i] != NUL
  {
    if s != [] {
      RemovedHasNoNul(s[..|s| - 1], c);
    }
  }

  /** strlen: the characters before the first NUL. */
  function CStrLen(s: seq<char>): (n: nat)
    ensures n <= |s| && (n < |s| ==> s[n] == NUL)
    ensures forall i :: 0 <= i < n ==> s[i] != NUL
  {
    if s == [] || s[0] == NUL then 0 else 1 + CStrLen(s[1..])
  }

  /** append_string: a fresh buffer with `src`, then the first `chunklen`
      characters of `dst`, then a NUL. */
  function AppendString(src: seq<char>, dst: seq<char>, chunklen: nat): (r: seq<char>)
    requires chunklen <= |dst|
    ensures |r| == |src| + chunklen + 1 && r[|r| - 1] == NUL
  {
    src + dst[..chunklen] + [NUL]
  }

  /** When neither part holds a NUL, the result reads back as `src`
      followed by the chunk, and strlen gives the sum of the lengths. */
  lemma AppendStringReads(src: seq<char>, dst: seq<char>, chunklen: nat)
    requires chunklen <= |dst|
    requires forall i :: 0 <= i < |src| ==> src[i] != NUL
    requires forall i :: 0 <= i < chunklen ==> dst[i] != NUL
    ensures var r := AppendString(src, dst, chunklen);
      && CStrLen(r) == |src| + chunklen
      && r[..|src|] == src && r[|src|..|src| + chunklen] == dst[..chunklen]
  {
    var r := AppendString(src, dst, chunklen);
    forall i | 0 <= i < |src| + chunklen ensures r[i] != NUL {
      if i < |src| { assert r[i] == src[i]; } else { assert r[i] == dst[i - |src|]; }
    }
    CStrLenAt(r, |src| + chunklen);
  }

  lemma {:induction false} CStrLenAt(s: seq<char>, n: nat)
    requires n < |s| && s[n] == NUL
    requires forall i :: 0 <= i < n ==> s[i] != NUL
    ensures CStrLen(s) == n
  {
    if n > 0 {
      CStrLenAt(s[1..], n - 1);
    }
  }
}

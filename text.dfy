/** String primitives from Go's standard library that the request handler
    relies on: `strings.TrimSpace`, `strings.ReplaceAll` with a one-character
    pattern and an empty replacement, and the `%d` verb of `fmt`.
    Strings are sequences of Unicode code points. */
module Text {

  /** Go's `unicode.IsSpace` set: the Latin-1 white space characters plus the
      rest of Unicode's White_Space property. */
  const WhiteSpace: set<char> :=
    {'\t', '\n', '\U{000B}', '\U{000C}', '\r', ' ', '\U{0085}', '\U{00A0}', '\U{1680}', '\U{2000}', '\U{2001}', '\U{2002}', '\U{2003}', '\U{2004}', '\U{2005}', '\U{2006}', '\U{2007}', '\U{2008}', '\U{2009}', '\U{200A}', '\U{2028}', '\U{2029}', '\U{202F}', '\U{205F}', '\U{3000}'}

  /** `unicode.IsSpace`. Among ASCII characters it holds exactly for space and
      tab through carriage return, the set `TrimSpace` checks first. */
  function IsSpace(c: char): (b: bool)
    ensures c <= '\U{007F}' ==> (b <==> c == ' ' || '\t' <= c <= '\r')
    ensures b ==> c != '-' && !('0' <= c <= '9')
  {
    c in WhiteSpace
  }

  predicate AllSpace(s: string) {
    forall k :: 0 <= k < |s| ==> IsSpace(s[k])
  }

  /** How many white space characters `s` starts with. */
  function LeadingSpace(s: string): (i: nat)
    ensures i <= |s|
    ensures forall k :: 0 <= k < i ==> IsSpace(s[k])
    ensures i < |s| ==> !IsSpace(s[i])
  {
    if s != [] && IsSpace(s[0]) then 1 + LeadingSpace(s[1..]) else 0
  }

  /** Where the white space that `s` ends with begins. */
  function TrailingSpace(s: string): (j: nat)
    ensures j <= |s|
    ensures forall k :: j <= k < |s| ==> IsSpace(s[k])
    ensures 0 < j ==> !IsSpace(s[j - 1])
  {
    if s != [] && IsSpace(s[|s| - 1]) then TrailingSpace(s[..|s| - 1]) else |s|
  }

  /** Drops the leading white space: what is left is a suffix of `s`, what was
      dropped is all white space, and what is left does not start with any. */
  function TrimLeft(s: string): (r: string)
    ensures |r| <= |s| && r == s[|s| - |r|..]
    ensures AllSpace(s[..|s| - |r|])
    ensures r == [] || !IsSpace(r[0])
  {
    s[LeadingSpace(s)..]
  }

  /** Drops the trailing white space: what is left is a prefix of `s`, what was
      dropped is all white space, and what is left does not end with any. */
  function TrimRight(s: string): (r: string)
    ensures |r| <= |s| && r == s[..|r|]
    ensures AllSpace(s[|r|..])
    ensures r == [] || !IsSpace(r[|r| - 1])
  {
    s[..TrailingSpace(s)]
  }

  /** `strings.TrimSpace`: a contiguous slice of `s` with all white space
      before and after it removed, and none left at either end. */
  function TrimSpace(s: string): (r: string)
    ensures |r| <= |s|
    ensures r == [] || (!IsSpace(r[0]) && !IsSpace(r[|r| - 1]))
  {
    TrimRight(TrimLeft(s))
  }

  /** A prefix `r` of a suffix `l` of `s` is a slice of `s`; white space
      around it in `l` and before `l` in `s` is white space around it in `s`. */
  lemma SliceOfSuffix(s: string, l: string, r: string, i: nat, m: nat)
    requires i <= |s| && l == s[i..] && m <= |l| && r == l[..m]
    requires AllSpace(s[..i]) && AllSpace(l[m..])
    ensures r == s[i..i + m] && AllSpace(s[i + m..])
  {
    assert l[m..] == s[i + m..];
  }

  /** Trimming keeps exactly the characters between the first and the last
      character that is not white space. */
  lemma {:induction false} TrimSpaceSlice(s: string) returns (i: nat, j: nat)
    ensures i <= j <= |s| && TrimSpace(s) == s[i..j]
    ensures AllSpace(s[..i]) && AllSpace(s[j..])
  {
    var l := TrimLeft(s);
    var r := TrimRight(l);
    i := |s| - |l|;
    j := i + |r|;
    assert l == s[i..] && AllSpace(s[..i]);
    assert r == l[..|r|] && AllSpace(l[|r|..]) && |r| <= |l|;
    SliceOfSuffix(s, l, r, i, |r|);
    assert TrimSpace(s) == r;
  }

  /** The trimmed string is empty exactly when the input is all white space. */
  lemma TrimSpaceEmptyIff(s: string)
    ensures TrimSpace(s) == [] <==> AllSpace(s)
  {
  }

  /** Trimming an already trimmed string changes nothing. */
  lemma TrimSpaceIdempotent(s: string)
    ensures TrimSpace(TrimSpace(s)) == TrimSpace(s)
  {
  }

  /** `strings.ReplaceAll(s, [c], "")`: every occurrence of `c` deleted, every
      other character kept in order (see RemoveAllMembers). */
  function RemoveAll(s: string, c: char): (r: string)
    ensures |r| <= |s|
  {
    if s == [] then []
    else if s[0] == c then RemoveAll(s[1..], c)
    else [s[0]] + RemoveAll(s[1..], c)
  }

  /** No `c` is left, every other character survives, and a string without
      `c` is unchanged. */
  lemma {:induction false} RemoveAllMembers(s: string, c: char)
    ensures forall x :: x in RemoveAll(s, c) <==> x in s && x != c
    ensures c !in s ==> RemoveAll(s, c) == s
  {
    if s != [] {
      RemoveAllMembers(s[1..], c);
      assert forall x :: x in s <==> x == s[0] || x in s[1..];
    }
  }

  /** Deleting distributes over concatenation. */
  lemma {:induction false} RemoveAllAppend(a: string, b: string, c: char)
    ensures RemoveAll(a + b, c) == RemoveAll(a, c) + RemoveAll(b, c)
  {
    if a == [] {
      assert a + b == b;
    } else {
      assert (a + b)[0] == a[0];
      assert (a + b)[1..] == a[1..] + b;
      RemoveAllAppend(a[1..], b, c);
    }
  }

  /** RE2's `\d`: an ASCII decimal digit, nothing else. */
  function IsDigit(c: char): (b: bool)
    ensures b <==> c in "0123456789"
  {
    assert '0' <= c <= '9' ==> "0123456789"[c as int - '0' as int] == c;
    '0' <= c <= '9'
  }

  /** Every character is an ASCII digit. */
  predicate AllDigits(s: string) {
    forall k :: 0 <= k < |s| ==> IsDigit(s[k])
  }

  function DigitChar(d: nat): (c: char)
    requires d < 10
    ensures IsDigit(c)
  {
    "0123456789"[d]
  }

  function DigitValue(c: char): (d: nat)
    requires IsDigit(c)
    ensures d < 10 && DigitChar(d) == c
  {
    (c as int - '0' as int) as nat
  }

  /** The number a string of decimal digits denotes. */
  function Value(s: string): nat
    requires AllDigits(s)
  {
    if s == [] then 0 else 10 * Value(s[..|s| - 1]) + DigitValue(s[|s| - 1])
  }

  /** Decimal numeral of `n` without leading zeros, as `%d` writes it. */
  function Decimal(n: nat): (r: string)
    ensures r != []
    ensures AllDigits(r)
    ensures r[0] == '0' ==> n == 0 && r == "0"
  {
    if n < 10 then [DigitChar(n)] else Decimal(n / 10) + [DigitChar(n % 10)]
  }

  /** Reading back the numeral gives the number. */
  lemma {:induction false} DecimalValue(n: nat)
    ensures Value(Decimal(n)) == n
  {
    var r := Decimal(n);
    if n < 10 {
      assert r[..0] == [];
    } else {
      assert r[..|r| - 1] == Decimal(n / 10);
      DecimalValue(n / 10);
    }
  }

  /** `%d` of a Go `int`: the decimal numeral of its magnitude, after a minus
      sign when it is negative. */
  function FormatInt(n: int): (r: string)
    ensures r != []
    ensures n >= 0 ==> AllDigits(r) && Value(r) == n
    ensures n < 0 ==> r[0] == '-' && AllDigits(r[1..]) && Value(r[1..]) == -n
    ensures n >= 0 ==> (r[0] == '0' ==> n == 0 && r == "0")
    ensures n < 0 ==> |r| >= 2 && r[1] != '0'
  {
    if n < 0 then
      DecimalValue(-n);
      assert ("-" + Decimal(-n))[1..] == Decimal(-n);
      assert ("-" + Decimal(-n))[1] == Decimal(-n)[0];
      "-" + Decimal(-n)
    else
      DecimalValue(n);
      Decimal(n)
  }
}

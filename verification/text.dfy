/** The string operations of Go's `strings` and `strconv` packages that the
    gateway relies on, defined on `seq<char>`. Paths and markers are ASCII,
    so a char stands for a byte. */
module Text {
  import opened Common

  predicate HasPrefix(s: string, p: string) {
    |p| <= |s| && s[..|p|] == p
  }

  predicate HasSuffix(s: string, p: string) {
    |p| <= |s| && s[|s| - |p|..] == p
  }

  /** `sub` occurs in `s` starting at index `i`. */
  predicate OccursAt(s: string, sub: string, i: int) {
    0 <= i && i + |sub| <= |s| && s[i..i + |sub|] == sub
  }

  /** strings.Contains: `sub` is a substring of `s` (every string contains ""). */
  predicate Contains(s: string, sub: string)
    decreases |s|
  {
    HasPrefix(s, sub) || (|s| > 0 && Contains(s[1..], sub))
  }

  /** Contains agrees with the index-based definition of a substring, both ways. */
  lemma {:induction false} ContainsIffOccurs(s: string, sub: string)
    ensures Contains(s, sub) <==> exists i :: OccursAt(s, sub, i)
    decreases |s|
  {
    if HasPrefix(s, sub) {
      assert OccursAt(s, sub, 0);
    } else if |s| > 0 {
      ContainsIffOccurs(s[1..], sub);
      if Contains(s[1..], sub) {
        var i :| OccursAt(s[1..], sub, i);
        assert s[i + 1..i + 1 + |sub|] == s[1..][i..i + |sub|];
        assert OccursAt(s, sub, i + 1);
      }
      if exists i :: OccursAt(s, sub, i) {
        var i :| OccursAt(s, sub, i);
        if i > 0 {
          assert s[1..][i - 1..i - 1 + |sub|] == s[i..i + |sub|];
          assert OccursAt(s[1..], sub, i - 1);
        }
      }
    }
  }

  /** Text around a match never removes it: a substring of `s` is a substring
      of `a + s + b`. */
  lemma ContainsExtended(a: string, s: string, b: string, sub: string)
    requires Contains(s, sub)
    ensures Contains(a + s + b, sub)
  {
    ContainsIffOccurs(s, sub);
    var i :| OccursAt(s, sub, i);
    assert (a + s + b)[|a| + i..|a| + i + |sub|] == s[i..i + |sub|];
    assert OccursAt(a + s + b, sub, |a| + i);
    ContainsIffOccurs(a + s + b, sub);
  }

  /** A match survives text appended after it. */
  lemma ContainsAppended(p: string, q: string, sub: string)
    requires Contains(p, sub)
    ensures Contains(p + q, sub)
  {
    ContainsExtended([], p, q, sub);
    assert [] + p + q == p + q;
  }

  /** A string begins with, so contains, each of its prefixes. */
  lemma ContainsPrefix(p: string, q: string)
    ensures Contains(p + q, p)
  {
    assert (p + q)[..|p|] == p;
  }

  /** Three pieces at the end of a string occur in it. */
  lemma ContainsAtEnd(a: string, x: string, y: string, z: string)
    ensures Contains(a + x + y + z, x + y + z)
  {
    var s := a + x + y + z;
    assert s[|a|..|a| + |x + y + z|] == x + y + z;
    assert OccursAt(s, x + y + z, |a|);
    ContainsIffOccurs(s, x + y + z);
  }

  /** A string lacking a character of `sub` cannot contain `sub`. */
  lemma ContainsNeedsChar(s: string, sub: string, c: char)
    requires c in sub && c !in s
    ensures !Contains(s, sub)
  {
    ContainsIffOccurs(s, sub);
  }

  /** strings.TrimRight(s, "/"): drop every trailing '/'. */
  function TrimRightSlash(s: string): (r: string)
    ensures HasPrefix(s, r)
    ensures r == [] || r[|r| - 1] != '/'
    ensures forall k :: |r| <= k < |s| ==> s[k] == '/'
    decreases |s|
  {
    if |s| > 0 && s[|s| - 1] == '/' then TrimRightSlash(s[..|s| - 1]) else s
  }

  /** strings.TrimLeft(s, "/"): drop every leading '/'. */
  function TrimLeftSlash(s: string): (r: string)
    ensures HasSuffix(s, r)
    ensures r == [] || r[0] != '/'
    ensures forall k :: 0 <= k < |s| - |r| ==> s[k] == '/'
    decreases |s|
  {
    if |s| > 0 && s[0] == '/' then TrimLeftSlash(s[1..]) else s
  }

  /** strings.ReplaceAll(s, "#", "%23"): every '#' becomes "%23". */
  function EscapeHash(s: string): (r: string)
    ensures '#' !in r
    ensures |r| >= |s|
    decreases |s|
  {
    if s == [] then [] else (if s[0] == '#' then "%23" else [s[0]]) + EscapeHash(s[1..])
  }

  /** Percent-decoding of "%23" only: the reading a server gives an escaped path. */
  function UnescapeHash(s: string): string
    decreases |s|
  {
    if |s| >= 3 && s[..3] == "%23" then "#" + UnescapeHash(s[3..])
    else if s == [] then []
    else [s[0]] + UnescapeHash(s[1..])
  }

  /** Escaping distributes over concatenation. */
  lemma {:induction false} EscapeHashAppend(a: string, b: string)
    ensures EscapeHash(a + b) == EscapeHash(a) + EscapeHash(b)
    decreases |a|
  {
    if a != [] {
      assert (a + b)[1..] == a[1..] + b;
      EscapeHashAppend(a[1..], b);
    } else {
      assert a + b == b;
    }
  }

  /** A string without '#' is left exactly as it is, so escaping is idempotent. */
  lemma {:induction false} EscapeHashIdentity(s: string)
    requires '#' !in s
    ensures EscapeHash(s) == s
    decreases |s|
  {
    if s != [] {
      EscapeHashIdentity(s[1..]);
    }
  }

  lemma EscapeHashIdempotent(s: string)
    ensures EscapeHash(EscapeHash(s)) == EscapeHash(s)
  {
    EscapeHashIdentity(EscapeHash(s));
  }

  lemma EscapeHashHead(t: string)
    requires t != []
    ensures EscapeHash(t) != []
    ensures EscapeHash(t)[0] == (if t[0] == '#' then '%' else t[0])
  {
  }

  /** Escaping loses nothing: decoding "%23" gives the original back whenever
      the original did not already spell "%23" itself. */
  lemma {:induction false} UnescapeEscapeHash(s: string)
    requires !Contains(s, "%23")
    ensures UnescapeHash(EscapeHash(s)) == s
    decreases |s|
  {
    if s != [] {
      var rest := EscapeHash(s[1..]);
      assert !Contains(s[1..], "%23");
      UnescapeEscapeHash(s[1..]);
      if s[0] == '#' {
        var e := "%23" + rest;
        assert EscapeHash(s) == e;
        assert e[..3] == "%23" && e[3..] == rest;
      } else {
        var e := [s[0]] + rest;
        assert EscapeHash(s) == e;
        assert e[1..] == rest;
      }
    }
  }

  // ---- decimal numbers (strconv.FormatUint / fmt "%d" / strconv.ParseUint) ----

  const MaxUint64: nat := 0xFFFF_FFFF_FFFF_FFFF

  predicate IsDigit(c: char) {
    '0' <= c <= '9'
  }

  predicate AllDigits(s: string) {
    forall k :: 0 <= k < |s| ==> IsDigit(s[k])
  }

  function DigitChar(d: nat): (c: char)
    requires d < 10
    ensures IsDigit(c)
  {
    (48 + d) as char
  }

  function DigitValue(c: char): (d: nat)
    requires IsDigit(c)
    ensures d < 10
  {
    (c as int) - 48
  }

  /** The decimal spelling of `n`, without sign or leading zeros. */
  function FormatNat(n: nat): (r: string)
    ensures r != [] && AllDigits(r)
    decreases n
  {
    if n < 10 then [DigitChar(n)] else FormatNat(n / 10) + [DigitChar(n % 10)]
  }

  /** fmt's "%d" for a signed integer. */
  function FormatInt(i: int): (r: string)
    ensures r != []
  {
    if i < 0 then "-" + FormatNat(-i) else FormatNat(i)
  }

  /** The number a string of digits denotes. */
  function Value(s: string): nat
    requires AllDigits(s)
    decreases |s|
  {
    if s == [] then 0 else Value(s[..|s| - 1]) * 10 + DigitValue(s[|s| - 1])
  }

  /** The digit loop of strconv.ParseUint(s, 10, 64): a non-digit is a syntax
      error, the first step past 2^64-1 is a range error. */
  function ParseDigits(s: string, i: nat, acc: nat): Result<nat>
    requires i <= |s|
    decreases |s| - i
  {
    if i == |s| then Ok(acc)
    else if !IsDigit(s[i]) then Err(ParseSyntax(s))
    else
      var next := acc * 10 + DigitValue(s[i]);
      if next > MaxUint64 then Err(ParseRange(s)) else ParseDigits(s, i + 1, next)
  }

  /** strconv.ParseUint(s, 10, 64). */
  function ParseUint64(s: string): (r: Result<nat>)
    ensures r.Ok? ==> r.value <= MaxUint64
    ensures r.Ok? ==> s != [] && AllDigits(s)
  {
    if s == [] then Err(ParseSyntax(s)) else ParseDigitsOk(s, 0, 0); ParseDigits(s, 0, 0)
  }

  lemma {:induction false} ParseDigitsOk(s: string, i: nat, acc: nat)
    requires i <= |s| && acc <= MaxUint64
    requires AllDigits(s[..i])
    ensures ParseDigits(s, i, acc).Ok? ==> ParseDigits(s, i, acc).value <= MaxUint64 && AllDigits(s)
    decreases |s| - i
  {
    if i < |s| && IsDigit(s[i]) {
      var next := acc * 10 + DigitValue(s[i]);
      if next <= MaxUint64 {
        assert s[..i + 1] == s[..i] + [s[i]];
        ParseDigitsOk(s, i + 1, next);
      }
    } else if i == |s| {
      assert s[..i] == s;
    }
  }

  lemma {:induction false} ValuePrefixBound(s: string, k: nat)
    requires AllDigits(s) && k <= |s|
    ensures AllDigits(s[..k]) && Value(s[..k]) <= Value(s)
    decreases |s| - k
  {
    if k < |s| {
      ValuePrefixBound(s, k + 1);
      assert s[..k + 1][..k] == s[..k];
    } else {
      assert s[..k] == s;
    }
  }

  lemma {:induction false} ParseDigitsValue(s: string, i: nat)
    requires AllDigits(s) && i <= |s| && Value(s) <= MaxUint64
    ensures AllDigits(s[..i])
    ensures ParseDigits(s, i, Value(s[..i])) == Ok(Value(s))
    decreases |s| - i
  {
    ValuePrefixBound(s, i);
    if i == |s| {
      assert s[..i] == s;
    } else {
      ValuePrefixBound(s, i + 1);
      assert s[..i + 1][..i] == s[..i];
      assert Value(s[..i + 1]) == Value(s[..i]) * 10 + DigitValue(s[i]);
      ParseDigitsValue(s, i + 1);
    }
  }

  lemma {:induction false} FormatNatValue(n: nat)
    ensures Value(FormatNat(n)) == n
    decreases n
  {
    if n >= 10 {
      FormatNatValue(n / 10);
      var r := FormatNat(n);
      assert r[..|r| - 1] == FormatNat(n / 10);
    }
  }

  /** Formatting then parsing a 64-bit unsigned value gives it back. */
  lemma ParseFormatRoundTrip(n: nat)
    requires n <= MaxUint64
    ensures ParseUint64(FormatNat(n)) == Ok(n)
  {
    var s := FormatNat(n);
    FormatNatValue(n);
    ParseDigitsValue(s, 0);
    assert s[..0] == [];
  }
}

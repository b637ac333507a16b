/** Text primitives the handlers rely on: Python's str(int) and int(str),
    "sep".join(lines) and str.split(sep), whitespace stripping, and the
    upper-casing the database applies for case-insensitive matching. */
module Text {

  datatype Option<+T> = None | Some(value: T)

  predicate IsDigit(c: char) {
    '0' <= c <= '9'
  }

  predicate AllDigits(s: string) {
    forall i :: 0 <= i < |s| ==> IsDigit(s[i])
  }

  /** Python's str.isspace(), the set str.strip() and int() remove: the
      ASCII controls \t \n \v \f \r and the separators 0x1C-0x1F, the space,
      and the Unicode spaces and line/paragraph separators. */
  predicate IsSpace(c: char) {
    var n := c as int;
    || 9 <= n <= 13 || 0x1C <= n <= 0x20
    || n == 0x85 || n == 0xA0 || n == 0x1680
    || 0x2000 <= n <= 0x200A || n == 0x2028 || n == 0x2029
    || n == 0x202F || n == 0x205F || n == 0x3000
  }

  function DigitValue(c: char): (d: nat)
    requires IsDigit(c)
    ensures d < 10
  {
    c as int - '0' as int
  }

  function DigitChar(d: nat): (c: char)
    requires d < 10
    ensures IsDigit(c) && DigitValue(c) == d
  {
    ('0' as int + d) as char
  }

  /** str(n) for a natural number: its decimal digits, most significant first,
      with no leading zero except in "0" itself. */
  function NatToString(n: nat): (s: string)
    ensures |s| > 0 && AllDigits(s)
    ensures s[0] == '0' <==> n == 0
    ensures |s| == 1 <==> n < 10
    decreases n
  {
    if n < 10 then [DigitChar(n)] else NatToString(n / 10) + [DigitChar(n % 10)]
  }

  /** str(i) for any integer: a minus sign before the digits of a negative number. */
  function IntToString(i: int): (s: string)
    ensures |s| > 0 && !IsSpace(s[0]) && IsDigit(s[|s| - 1])
    ensures s[0] == '-' <==> i < 0
    ensures i >= 0 ==> AllDigits(s)
    ensures i < 0 ==> AllDigits(s[1..]) && |s| > 1
    ensures i >= 0 && |s| > 1 ==> s[0] != '0'
    ensures i < 0 ==> s[1] != '0'
    ensures i == 0 <==> s == "0"
  {
    if i < 0 then "-" + NatToString(-i) else NatToString(i)
  }

  /** The number a non-empty run of decimal digits denotes. */
  function DigitsValue(s: string): nat
    requires AllDigits(s)
    decreases |s|
  {
    if s == [] then 0 else DigitsValue(s[..|s| - 1]) * 10 + DigitValue(s[|s| - 1])
  }

  lemma {:induction false} DigitsValueOfNatToString(n: nat)
    ensures DigitsValue(NatToString(n)) == n
  {
    if n >= 10 {
      var s := NatToString(n);
      assert s[..|s| - 1] == NatToString(n / 10);
      DigitsValueOfNatToString(n / 10);
    }
  }

  /** The number of whitespace characters s starts with. */
  function LeadingSpaces(s: string): (n: nat)
    ensures n <= |s|
    ensures forall k :: 0 <= k < n ==> IsSpace(s[k])
    ensures n == |s| || !IsSpace(s[n])
    decreases |s|
  {
    if s != [] && IsSpace(s[0]) then
      var m := LeadingSpaces(s[1..]);
      assert forall k :: 1 <= k < m + 1 ==> s[k] == s[1..][k - 1];
      m + 1
    else 0
  }

  /** The number of whitespace characters s ends with. */
  function TrailingSpaces(s: string): (n: nat)
    ensures n <= |s|
    ensures forall k :: |s| - n <= k < |s| ==> IsSpace(s[k])
    ensures n == |s| || !IsSpace(s[|s| - n - 1])
    decreases |s|
  {
    if s != [] && IsSpace(s[|s| - 1]) then
      var m := TrailingSpaces(s[..|s| - 1]);
      assert forall k :: |s| - m - 1 <= k < |s| - 1 ==> s[k] == s[..|s| - 1][k];
      m + 1
    else 0
  }

  /** str.strip(): s without its leading and its trailing whitespace. The
      result is the slice of s that starts at the first and ends at the last
      character that is not whitespace, or empty when there is none. */
  function Strip(s: string): (r: string)
    ensures |r| <= |s|
    ensures r == [] <==> forall k :: 0 <= k < |s| ==> IsSpace(s[k])
    ensures LeadingSpaces(s) + |r| <= |s| && r == s[LeadingSpaces(s)..LeadingSpaces(s) + |r|]
    ensures forall k :: LeadingSpaces(s) + |r| <= k < |s| ==> IsSpace(s[k])
    ensures r != [] ==> !IsSpace(r[0]) && !IsSpace(r[|r| - 1])
  {
    StripSlice(s)
  }

  /** The slice of s between its leading and its trailing whitespace. */
  function StripSlice(s: string): string {
    var i := LeadingSpaces(s);
    if i == |s| then []
    else
      var t := TrailingSpaces(s);
      assert i < |s| - t;
      s[i..|s| - t]
  }

  /** strip() keeps the slice between whitespace runs that end and start
      at non-whitespace characters. */
  lemma StripAt(s: string, i: nat, e: nat)
    requires i < e <= |s|
    requires forall k :: 0 <= k < i ==> IsSpace(s[k])
    requires forall k :: e <= k < |s| ==> IsSpace(s[k])
    requires !IsSpace(s[i]) && !IsSpace(s[e - 1])
    ensures Strip(s) == s[i..e]
  {
    LeadingAt(s, i);
    TrailingAt(s, e);
    StripSliceAt(s, i, e);
  }

  lemma LeadingAt(s: string, i: nat)
    requires i < |s|
    requires forall k :: 0 <= k < i ==> IsSpace(s[k])
    requires !IsSpace(s[i])
    ensures LeadingSpaces(s) == i
  {
  }

  lemma StripSliceAt(s: string, i: nat, e: nat)
    requires i < e <= |s| && LeadingSpaces(s) == i && TrailingSpaces(s) == |s| - e
    ensures StripSlice(s) == s[i..e]
  {
  }

  lemma TrailingAt(s: string, e: nat)
    requires 0 < e <= |s|
    requires forall k :: e <= k < |s| ==> IsSpace(s[k])
    requires !IsSpace(s[e - 1])
    ensures TrailingSpaces(s) == |s| - e
  {
  }

  /** Where the characters of pre + core + post come from. */
  lemma PaddedIndex(pre: string, core: string, post: string)
    ensures var s := pre + core + post;
      && (forall k :: 0 <= k < |pre| ==> s[k] == pre[k])
      && (forall k :: |pre| <= k < |pre| + |core| ==> s[k] == core[k - |pre|])
      && (forall k :: |pre| + |core| <= k < |s| ==> s[k] == post[k - |pre| - |core|])
  {
  }

  /** Whitespace before position lo of core, and from position hi on,
      stays whitespace once pre and post are put around core. */
  lemma PaddedSpaces(pre: string, core: string, post: string, lo: nat, hi: nat)
    requires lo <= hi <= |core|
    requires forall k :: 0 <= k < |pre| ==> IsSpace(pre[k])
    requires forall k :: 0 <= k < |post| ==> IsSpace(post[k])
    requires forall k :: 0 <= k < lo ==> IsSpace(core[k])
    requires forall k :: hi <= k < |core| ==> IsSpace(core[k])
    ensures var s := pre + core + post;
      && (forall k :: 0 <= k < |pre| + lo ==> IsSpace(s[k]))
      && (forall k :: |pre| + hi <= k < |s| ==> IsSpace(s[k]))
  {
    var s := pre + core + post;
    PaddedIndex(pre, core, post);
    forall k | 0 <= k < |pre| + lo ensures IsSpace(s[k]) {
      if k >= |pre| {
        assert s[k] == core[k - |pre|];
      }
    }
    forall k | |pre| + hi <= k < |s| ensures IsSpace(s[k]) {
      if k < |pre| + |core| {
        assert s[k] == core[k - |pre|];
      } else {
        assert s[k] == post[k - |pre| - |core|];
      }
    }
  }

  /** strip() of pre + core + post is the slice lo..hi of core when pre,
      post and the rest of core are whitespace and the slice neither starts
      nor ends with whitespace. */
  lemma StripPaddedSlice(pre: string, core: string, post: string, lo: nat, hi: nat)
    requires lo < hi <= |core|
    requires forall k :: 0 <= k < |pre| ==> IsSpace(pre[k])
    requires forall k :: 0 <= k < |post| ==> IsSpace(post[k])
    requires forall k :: 0 <= k < lo ==> IsSpace(core[k])
    requires forall k :: hi <= k < |core| ==> IsSpace(core[k])
    requires !IsSpace(core[lo]) && !IsSpace(core[hi - 1])
    ensures Strip(pre + core + post) == core[lo..hi]
  {
    var s := pre + core + post;
    PaddedSpaces(pre, core, post, lo, hi);
    PaddedIndex(pre, core, post);
    assert s[|pre| + lo] == core[lo];
    assert s[|pre| + hi - 1] == core[hi - 1];
    StripAt(s, |pre| + lo, |pre| + hi);
    assert s[|pre| + lo..|pre| + hi] == core[lo..hi];
  }

  /** Surrounding whitespace does not change what strip() keeps. */
  lemma StripPadded(pre: string, core: string, post: string)
    requires forall k :: 0 <= k < |pre| ==> IsSpace(pre[k])
    requires forall k :: 0 <= k < |post| ==> IsSpace(post[k])
    requires core != [] && !IsSpace(core[0]) && !IsSpace(core[|core| - 1])
    ensures Strip(pre + core + post) == core
  {
    StripPaddedSlice(pre, core, post, 0, |core|);
    assert core[0..|core|] == core;
  }

  /** A text that neither starts nor ends with whitespace is its own strip. */
  lemma StripUnpadded(core: string)
    requires core != [] && !IsSpace(core[0]) && !IsSpace(core[|core| - 1])
    ensures Strip(core) == core
  {
    StripAt(core, 0, |core|);
  }

  /** What int() accepts once the whitespace is stripped: decimal digits,
      optionally after one sign. */
  predicate IntLiteral(t: string) {
    (|t| > 0 && AllDigits(t)) || (|t| > 1 && (t[0] == '-' || t[0] == '+') && AllDigits(t[1..]))
  }

  /** int() on text already stripped: an optional sign, then at least one
      decimal digit; anything else raises ValueError, which is None here. */
  function ParseLiteral(t: string): (r: Option<int>)
    ensures r.Some? <==> IntLiteral(t)
  {
    if |t| > 1 && (t[0] == '-' || t[0] == '+') && AllDigits(t[1..]) then
      Some(if t[0] == '-' then 0 - DigitsValue(t[1..]) else DigitsValue(t[1..]))
    else if |t| > 0 && AllDigits(t) then
      Some(DigitsValue(t))
    else
      None
  }

  /** Python's int(s) on a str: surrounding whitespace is ignored, and the
      rest must be a literal. */
  function ParseInt(s: string): (r: Option<int>)
    ensures r.Some? <==> IntLiteral(Strip(s))
  {
    ParseLiteral(Strip(s))
  }

  /** int(str(i)) == i. */
  lemma ParseIntOfIntToString(i: int)
    ensures ParseInt(IntToString(i)) == Some(i)
  {
    if i < 0 {
      DigitsValueOfNatToString(-i);
      ParseIntSigned("-", NatToString(-i), -i);
    } else {
      DigitsValueOfNatToString(i);
      ParseIntSigned("", NatToString(i), i);
      assert "" + NatToString(i) == NatToString(i);
    }
  }

  /** Distinct integers print differently. */
  lemma IntToStringInjective(a: int, b: int)
    ensures IntToString(a) == IntToString(b) ==> a == b
  {
    ParseIntOfIntToString(a);
    ParseIntOfIntToString(b);
  }

  lemma {:induction false} ZerosValue(z: string)
    requires forall k :: 0 <= k < |z| ==> z[k] == '0'
    ensures AllDigits(z) && DigitsValue(z) == 0
    decreases |z|
  {
    if z != [] {
      ZerosValue(z[..|z| - 1]);
    }
  }

  /** Zeros in front of digits do not change their value. */
  lemma {:induction false} DigitsValueLeadingZeros(z: string, d: string)
    requires forall k :: 0 <= k < |z| ==> z[k] == '0'
    requires AllDigits(d)
    ensures AllDigits(z + d) && DigitsValue(z + d) == DigitsValue(d)
    decreases |d|
  {
    if d == [] {
      assert z + d == z;
      ZerosValue(z);
    } else {
      var s := z + d;
      assert s[..|s| - 1] == z + d[..|d| - 1];
      DigitsValueLeadingZeros(z, d[..|d| - 1]);
    }
  }

  /** A sign and digits, with nothing around them, read as their value. */
  lemma ParseIntSigned(sign: string, digits: string, v: nat)
    requires sign == "" || sign == "+" || sign == "-"
    requires digits != [] && AllDigits(digits) && DigitsValue(digits) == v
    ensures ParseInt(sign + digits) == Some(if sign == "-" then 0 - v else v)
  {
    StripSigned(sign, digits);
    LiteralSigned(sign, digits);
  }

  lemma LiteralSigned(sign: string, digits: string)
    requires sign == "" || sign == "+" || sign == "-"
    requires digits != [] && AllDigits(digits)
    ensures ParseLiteral(sign + digits) == Some(if sign == "-" then 0 - DigitsValue(digits) else DigitsValue(digits))
  {
    if sign != "" {
      assert (sign + digits)[1..] == digits;
    } else {
      assert sign + digits == digits;
    }
  }

  /** A sign and digits hold no whitespace to strip. */
  lemma StripSigned(sign: string, digits: string)
    requires sign == "" || sign == "+" || sign == "-"
    requires digits != [] && AllDigits(digits)
    ensures Strip(sign + digits) == sign + digits
  {
    var core := sign + digits;
    assert !IsSpace(core[|core| - 1]) by {
      assert core[|core| - 1] == digits[|digits| - 1];
    }
    assert !IsSpace(core[0]);
    StripUnpadded(core);
  }

  /** int() ignores surrounding whitespace, a plus sign and leading zeros,
      and reads a minus sign as negation. */
  lemma ParseIntWritten(pre: string, sign: string, zeros: string, n: nat, post: string)
    requires forall k :: 0 <= k < |pre| ==> IsSpace(pre[k])
    requires forall k :: 0 <= k < |post| ==> IsSpace(post[k])
    requires sign == "" || sign == "+" || sign == "-"
    requires forall k :: 0 <= k < |zeros| ==> zeros[k] == '0'
    ensures ParseInt(pre + (sign + (zeros + IntToString(n))) + post) == Some(if sign == "-" then 0 - n else n)
  {
    ParseIntZeros(sign, zeros, n);
    ParseIntPadded(pre, sign + (zeros + IntToString(n)), post);
  }

  /** A sign, zeros and the digits of n read as n or its negation. */
  lemma ParseIntZeros(sign: string, zeros: string, n: nat)
    requires sign == "" || sign == "+" || sign == "-"
    requires forall k :: 0 <= k < |zeros| ==> zeros[k] == '0'
    ensures ParseInt(sign + (zeros + IntToString(n))) == Some(if sign == "-" then 0 - n else n)
  {
    ZerosValueOf(zeros, n);
    ParseIntSigned(sign, zeros + IntToString(n), n);
  }

  lemma ZerosValueOf(zeros: string, n: nat)
    requires forall k :: 0 <= k < |zeros| ==> zeros[k] == '0'
    ensures zeros + IntToString(n) != [] && AllDigits(zeros + IntToString(n))
    ensures DigitsValue(zeros + IntToString(n)) == n
  {
    DigitsValueLeadingZeros(zeros, NatToString(n));
    DigitsValueOfNatToString(n);
  }

  /** Whitespace around a literal does not change what int() reads. */
  lemma ParseIntPadded(pre: string, core: string, post: string)
    requires forall k :: 0 <= k < |pre| ==> IsSpace(pre[k])
    requires forall k :: 0 <= k < |post| ==> IsSpace(post[k])
    requires ParseInt(core).Some?
    ensures ParseInt(pre + core + post) == ParseInt(core)
  {
    StripAround(pre, core, post);
  }

  /** Extra whitespace around a string that is not all whitespace is
      stripped away with the rest. */
  lemma StripAround(pre: string, core: string, post: string)
    requires forall k :: 0 <= k < |pre| ==> IsSpace(pre[k])
    requires forall k :: 0 <= k < |post| ==> IsSpace(post[k])
    requires Strip(core) != []
    ensures Strip(pre + core + post) == Strip(core)
  {
    var t := Strip(core);
    var i := LeadingSpaces(core);
    assert core[i] == t[0] && core[i + |t| - 1] == t[|t| - 1];
    StripPaddedSlice(pre, core, post, i, i + |t|);
  }

  /** sep.join(lines). */
  function Join(lines: seq<string>, sep: string): string
    decreases |lines|
  {
    if lines == [] then ""
    else if |lines| == 1 then lines[0]
    else lines[0] + sep + Join(lines[1..], sep)
  }

  /** The index of the first occurrence of c in s. */
  function IndexOf(s: string, c: char): (k: nat)
    requires c in s
    ensures k < |s| && s[k] == c && c !in s[..k]
  {
    if s[0] == c then 0 else 1 + IndexOf(s[1..], c)
  }

  /** str.split(c) for a one-character separator. */
  function Split(s: string, c: char): (parts: seq<string>)
    ensures |parts| > 0
    decreases |s|
  {
    if c !in s then [s]
    else
      var k := IndexOf(s, c);
      [s[..k]] + Split(s[k + 1..], c)
  }

  lemma SplitAfterFirst(a: string, c: char, b: string)
    requires c !in a
    ensures Split(a + [c] + b, c) == [a] + Split(b, c)
  {
    var s := a + [c] + b;
    assert s[|a|] == c;
    var k := IndexOf(s, c);
    assert k == |a|;
    assert s[..k] == a;
    assert s[k + 1..] == b;
  }

  /** Splitting a newline-joined document gives back its lines, provided no
      line holds the separator itself. */
  lemma {:induction false} SplitJoin(lines: seq<string>, c: char)
    requires |lines| > 0
    requires forall i :: 0 <= i < |lines| ==> c !in lines[i]
    ensures Split(Join(lines, [c]), c) == lines
  {
    if |lines| > 1 {
      SplitJoin(lines[1..], c);
      SplitAfterFirst(lines[0], c, Join(lines[1..], [c]));
      assert [lines[0]] + lines[1..] == lines;
    }
  }

  /** The upper-case form the database compares under: ASCII and the basic
      Cyrillic alphabet, including ё. */
  function UpperChar(c: char): char {
    if 'a' <= c <= 'z' then (c as int - 32) as char
    else if 0x430 <= c as int <= 0x44F then (c as int - 32) as char
    else if c as int == 0x451 then 0x401 as char
    else c
  }

  function Upper(s: string): (r: string)
    ensures |r| == |s| && forall i :: 0 <= i < |s| ==> r[i] == UpperChar(s[i])
  {
    seq(|s|, i requires 0 <= i < |s| => UpperChar(s[i]))
  }

  predicate StartsWith(s: string, prefix: string) {
    |prefix| <= |s| && s[..|prefix|] == prefix
  }

  /** name__istartswith=query: a prefix match after upper-casing both sides. */
  predicate IStartsWith(s: string, prefix: string) {
    StartsWith(Upper(s), Upper(prefix))
  }

  /** The case-insensitive match ignores case in the query: a query and its
      upper-case form select the same names. */
  lemma IStartsWithUpperQuery(s: string, q: string)
    ensures IStartsWith(s, q) <==> IStartsWith(s, Upper(q))
  {
    assert Upper(Upper(q)) == Upper(q) by {
      forall i | 0 <= i < |q| ensures UpperChar(UpperChar(q[i])) == UpperChar(q[i]) { }
    }
  }
}

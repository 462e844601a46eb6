/** String helpers shared by the escaper, the slugger and the renderer:
    JavaScript's whitespace class, `trim`, ASCII lower-casing and the
    decimal printing JavaScript uses when a number is concatenated to a
    string. */
module Strings {

  /** The characters of JavaScript's `\s` class (WhiteSpace and
      LineTerminator); `String.prototype.trim` removes exactly these. */
  predicate IsSpace(c: char) {
    || c == '\t' || c == '\n' || c == '\U{000B}' || c == '\U{000C}' || c == '\r'
    || c == ' ' || c == '\U{00A0}' || c == '\U{1680}'
    || ('\U{2000}' <= c <= '\U{200A}')
    || c == '\U{2028}' || c == '\U{2029}' || c == '\U{202F}' || c == '\U{205F}'
    || c == '\U{3000}' || c == '\U{FEFF}'
  }

  predicate NoSpace(s: string) {
    forall i :: 0 <= i < |s| ==> !IsSpace(s[i])
  }

  /** How many whitespace characters `s` starts with. */
  function LeadingSpaces(s: string): (k: nat)
    ensures k <= |s|
    ensures forall i :: 0 <= i < k ==> IsSpace(s[i])
    ensures k < |s| ==> !IsSpace(s[k])
  {
    if |s| > 0 && IsSpace(s[0]) then
      var k := LeadingSpaces(s[1..]);
      assert forall i :: 1 <= i < k + 1 ==> s[i] == s[1..][i - 1];
      k + 1
    else 0
  }

  /** How many whitespace characters `s` ends with. */
  function TrailingSpaces(s: string): (k: nat)
    ensures k <= |s|
    ensures forall i :: |s| - k <= i < |s| ==> IsSpace(s[i])
    ensures k < |s| ==> !IsSpace(s[|s| - k - 1])
  {
    if |s| > 0 && IsSpace(s[|s| - 1]) then
      var k := TrailingSpaces(s[..|s| - 1]);
      assert forall i :: |s| - 1 - k <= i < |s| - 1 ==> s[i] == s[..|s| - 1][i];
      k + 1
    else 0
  }

  /** Drops the leading whitespace. */
  function TrimStart(s: string): (r: string)
    ensures |r| <= |s| && r == s[|s| - |r|..]
    ensures forall i :: 0 <= i < |s| - |r| ==> IsSpace(s[i])
    ensures |r| > 0 ==> !IsSpace(r[0])
  {
    s[LeadingSpaces(s)..]
  }

  /** Drops the trailing whitespace. */
  function TrimEnd(s: string): (r: string)
    ensures |r| <= |s| && r == s[..|r|]
    ensures forall i :: |r| <= i < |s| ==> IsSpace(s[i])
    ensures |r| > 0 ==> !IsSpace(r[|r| - 1])
  {
    s[..|s| - TrailingSpaces(s)]
  }

  /** `String.prototype.trim`: the infix of `s` left after removing
      whitespace at both ends. */
  function Trim(s: string): (r: string)
    ensures |r| <= |s|
    ensures |r| > 0 ==> !IsSpace(r[0]) && !IsSpace(r[|r| - 1])
    ensures NoSpace(s) ==> r == s
  {
    TrimEnd(TrimStart(s))
  }

  /** `s[i..j]` is flanked by whitespace only. */
  predicate SpaceOutside(s: string, i: int, j: int) {
    && 0 <= i <= j <= |s|
    && (forall k :: 0 <= k < i ==> IsSpace(s[k]))
    && (forall k :: j <= k < |s| ==> IsSpace(s[k]))
  }

  /** The trimmed text is the infix of `s` between a whitespace prefix and
      a whitespace suffix. */
  lemma TrimInfix(s: string)
    ensures exists i, j :: SpaceOutside(s, i, j) && Trim(s) == s[i..j]
  {
    var t := TrimStart(s);
    var r := TrimEnd(t);
    TwoEnds(s, t, r);
    var i := |s| - |t|;
    assert SpaceOutside(s, i, i + |r|) && r == s[i..i + |r|];
  }

  /** Whitespace dropped from the front of `s` and then from the back of
      what is left flanks what remains. */
  lemma TwoEnds(s: string, t: string, r: string)
    requires |t| <= |s| && t == s[|s| - |t|..]
    requires forall k :: 0 <= k < |s| - |t| ==> IsSpace(s[k])
    requires |r| <= |t| && r == t[..|r|]
    requires forall k :: |r| <= k < |t| ==> IsSpace(t[k])
    ensures SpaceOutside(s, |s| - |t|, |s| - |t| + |r|)
    ensures r == s[|s| - |t|..|s| - |t| + |r|]
  {
    var i := |s| - |t|;
    var j := i + |r|;
    forall k | j <= k < |s|
      ensures IsSpace(s[k])
    {
      assert s[k] == t[k - i];
    }
  }

  function LowerChar(c: char): char {
    if 'A' <= c <= 'Z' then (c as int + 32) as char else c
  }

  /** `toLowerCase` restricted to ASCII: letters A-Z become a-z and every
      other character is kept. */
  function ToLower(s: string): (r: string)
    ensures |r| == |s|
    ensures forall i :: 0 <= i < |s| ==> r[i] == LowerChar(s[i])
    ensures forall i :: 0 <= i < |r| ==> !('A' <= r[i] <= 'Z')
  {
    if |s| == 0 then "" else [LowerChar(s[0])] + ToLower(s[1..])
  }

  predicate IsDigit(c: char) {
    '0' as int <= c as int <= '9' as int
  }

  function DigitChar(d: nat): (c: char)
    requires d < 10
    ensures IsDigit(c)
  {
    (48 + d) as char
  }

  /** The decimal numeral of `n`, as JavaScript prints a non-negative
      integer. */
  function NatToString(n: nat): (r: string)
    ensures |r| > 0
    ensures forall i :: 0 <= i < |r| ==> IsDigit(r[i])
  {
    if n < 10 then [DigitChar(n)] else NatToString(n / 10) + [DigitChar(n % 10)]
  }

  /** Reads a string of digits back as a number. */
  function DecimalValue(s: string): nat
    requires forall i :: 0 <= i < |s| ==> IsDigit(s[i])
  {
    if |s| == 0 then 0
    else
      var d := s[|s| - 1] as int - '0' as int;
      assert IsDigit(s[|s| - 1]);
      DecimalValue(s[..|s| - 1]) * 10 + d
  }

  lemma {:induction false} DecimalRoundTrip(n: nat)
    ensures DecimalValue(NatToString(n)) == n
  {
    var s := NatToString(n);
    if n >= 10 {
      assert s[..|s| - 1] == NatToString(n / 10);
      DecimalRoundTrip(n / 10);
    }
  }

  /** Distinct numbers print differently. */
  lemma NatToStringInjective(a: nat, b: nat)
    requires NatToString(a) == NatToString(b)
    ensures a == b
  {
    DecimalRoundTrip(a);
    DecimalRoundTrip(b);
  }

  /** A JavaScript integer concatenated to a string. */
  function IntToString(i: int): (r: string)
    ensures |r| > 0
    ensures i >= 0 <==> IsDigit(r[0])
    ensures i < 0 <==> r[0] == '-'
    ensures var digits := if i < 0 then r[1..] else r;
            && (forall k :: 0 <= k < |digits| ==> IsDigit(digits[k]))
            && DecimalValue(digits) == if i < 0 then -i else i
  {
    var n: nat := if i < 0 then -i else i;
    DecimalRoundTrip(n);
    if i < 0 then
      assert ("-" + NatToString(n))[1..] == NatToString(n);
      "-" + NatToString(n)
    else NatToString(n)
  }

  function Concat(ss: seq<string>): string {
    if |ss| == 0 then "" else ss[0] + Concat(ss[1..])
  }

  lemma ConcatAppend(ss: seq<string>, s: string)
    ensures Concat(ss + [s]) == Concat(ss) + s
  {
    if |ss| > 0 {
      assert (ss + [s])[1..] == ss[1..] + [s];
      ConcatAppend(ss[1..], s);
    }
  }

  predicate StartsWith(s: string, p: string) {
    |p| <= |s| && s[..|p|] == p
  }

  predicate EndsWith(s: string, p: string) {
    |p| <= |s| && s[|s| - |p|..] == p
  }

  lemma Starts(a: string, b: string)
    ensures StartsWith(a + b, a)
  {
    assert (a + b)[..|a|] == a;
  }

  lemma Ends(a: string, b: string)
    ensures EndsWith(a + b, b)
  {
    assert (a + b)[|a + b| - |b|..] == b;
  }

  /** One differing character rules a prefix out. */
  lemma Mismatch(s: string, p: string, k: nat)
    requires k < |p| && k < |s| && s[k] != p[k]
    ensures !StartsWith(s, p)
  {
  }

  lemma StartsMore(s: string, p: string, t: string)
    requires StartsWith(s, p)
    ensures StartsWith(s + t, p)
  {
    assert (s + t)[..|p|] == s[..|p|];
  }

  lemma StartsAfter(s: string, a: string, b: string)
    requires StartsWith(s, a + b)
    ensures StartsWith(s[|a|..], b)
  {
    assert s[|a|..][..|b|] == (a + b)[|a|..];
  }

  lemma EndsMore(s: string, p: string, t: string)
    requires EndsWith(s, p)
    ensures EndsWith(t + s, p)
  {
    assert (t + s)[|t + s| - |p|..] == s[|s| - |p|..];
  }

  lemma StartsPrefix(s: string, p: string, q: string)
    requires StartsWith(s, p) && StartsWith(p, q)
    ensures StartsWith(s, q)
  {
    assert s[..|q|] == p[..|q|];
  }

  lemma EndsJoin(x: string, y: string, z: string)
    ensures EndsWith(x + y + z, y + z)
  {
    assert x + y + z == x + (y + z);
    Ends(x, y + z);
  }

  /** The strings `ps` occur in `s` one after another, without overlapping. */
  ghost predicate InOrder(s: string, ps: seq<string>)
    decreases |ps|
  {
    |ps| == 0 || exists u, v :: s == u + ps[0] + v && InOrder(v, ps[1..])
  }

  lemma InOrderOne(u: string, p: string, v: string)
    ensures InOrder(u + p + v, [p])
  {
    assert [p][0] == p && InOrder(v, [p][1..]);
  }

  /** Text in front keeps the occurrences. */
  lemma InOrderFront(x: string, s: string, ps: seq<string>)
    requires InOrder(s, ps)
    ensures InOrder(x + s, ps)
  {
    if |ps| > 0 {
      var u, v :| s == u + ps[0] + v && InOrder(v, ps[1..]);
      assert x + s == (x + u) + ps[0] + v;
    }
  }

  /** Text behind keeps the occurrences. */
  lemma {:induction false} InOrderBack(s: string, y: string, ps: seq<string>)
    requires InOrder(s, ps)
    ensures InOrder(s + y, ps)
    decreases |ps|
  {
    if |ps| > 0 {
      var u, v :| s == u + ps[0] + v && InOrder(v, ps[1..]);
      InOrderBack(v, y, ps[1..]);
      assert s + y == u + ps[0] + (v + y);
    }
  }

  lemma InOrderAround(x: string, s: string, y: string, ps: seq<string>)
    requires InOrder(s, ps)
    ensures InOrder(x + s + y, ps)
  {
    InOrderFront(x, s, ps);
    InOrderBack(x + s, y, ps);
  }

  /** The occurrences in two strings, in the order of the strings, occur in
      their concatenation. */
  lemma {:induction false} InOrderJoin(a: string, b: string, ps: seq<string>, qs: seq<string>)
    requires InOrder(a, ps) && InOrder(b, qs)
    ensures InOrder(a + b, ps + qs)
    decreases |ps|
  {
    if |ps| == 0 {
      assert ps + qs == qs;
      InOrderFront(a, b, qs);
    } else {
      var u, v :| a == u + ps[0] + v && InOrder(v, ps[1..]);
      InOrderJoin(v, b, ps[1..], qs);
      assert a + b == u + ps[0] + (v + b);
      assert (ps + qs)[0] == ps[0] && (ps + qs)[1..] == ps[1..] + qs;
    }
  }
}

/** The string operations of the C++ and Boost libraries that the program relies on:
    C strings, searching, trimming, case folding, the order of std::string, and decimal
    numbers. A `char` stands for one byte. */
module Text {

  datatype Option<+T> = None | Some(value: T)

  // ---- C strings ----

  predicate NulFree(s: string) {
    forall i :: 0 <= i < |s| ==> s[i] != '\0'
  }

  /** The part of a buffer that a C string pointer denotes. */
  function CStr(s: string): (r: string)
    ensures NulFree(r) && r <= s
    ensures NulFree(s) ==> r == s
    ensures |r| < |s| ==> s[|r|] == '\0'
  {
    if s == "" || s[0] == '\0' then "" else [s[0]] + CStr(s[1..])
  }

  // ---- searching; -1 stands for npos ----

  predicate At(s: string, pat: string, j: int) {
    0 <= j <= |s| && pat <= s[j..]
  }

  function Find(s: string, pat: string): (r: int)
    ensures -1 <= r && (r >= 0 ==> At(s, pat, r))
  {
    if pat <= s then 0
    else if s == "" then -1
    else
      var k := Find(s[1..], pat);
      if k < 0 then -1 else assert s[1..][k..] == s[k + 1..]; k + 1
  }

  /** It is the first occurrence. */
  lemma {:induction false} FindFirst(s: string, pat: string, j: int)
    requires At(s, pat, j)
    ensures 0 <= Find(s, pat) <= j
  {
    if !(pat <= s) {
      assert s[0..] == s;
      assert s[1..][j - 1..] == s[j..];
      FindFirst(s[1..], pat, j - 1);
    }
  }

  function FindChar(s: string, c: char): (r: int)
    ensures -1 <= r < |s|
    ensures r >= 0 ==> s[r] == c
    ensures forall j :: 0 <= j < |s| && (r < 0 || j < r) ==> s[j] != c
  {
    if s == "" then -1
    else if s[0] == c then 0
    else var k := FindChar(s[1..], c); if k < 0 then -1 else k + 1
  }

  /** The length of the longest prefix whose characters all satisfy p. */
  function Span(s: string, p: char -> bool): (r: nat)
    ensures r <= |s| && (forall j :: 0 <= j < r ==> p(s[j])) && (r < |s| ==> !p(s[r]))
  {
    if s == "" || !p(s[0]) then 0 else 1 + Span(s[1..], p)
  }

  lemma SpanIs(s: string, p: char -> bool, n: nat)
    requires n <= |s| && (forall j :: 0 <= j < n ==> p(s[j])) && (n < |s| ==> !p(s[n]))
    ensures Span(s, p) == n
  {
  }

  lemma FindCharIs(s: string, c: char, n: nat)
    requires n < |s| && s[n] == c && forall j :: 0 <= j < n ==> s[j] != c
    ensures FindChar(s, c) == n
  {
  }

  // ---- trimming ----

  predicate IsSpace(c: char) {
    c == ' ' || c == '\t' || c == '\n' || c == '\U{0B}' || c == '\U{0C}' || c == '\r'
  }

  predicate Trimmed(s: string) {
    s == "" || (!IsSpace(s[0]) && !IsSpace(s[|s| - 1]))
  }

  function TrimRight(s: string): string {
    if s == "" || !IsSpace(s[|s| - 1]) then s else TrimRight(s[..|s| - 1])
  }

  /** boost::algorithm::trim_copy in the default locale. */
  function Trim(s: string): string {
    TrimRight(s[Span(s, IsSpace)..])
  }

  predicate AllSpace(s: string) {
    forall i :: 0 <= i < |s| ==> IsSpace(s[i])
  }

  lemma {:induction false} TrimRightOff(s: string, pad: string)
    requires AllSpace(pad) && (s == "" || !IsSpace(s[|s| - 1]))
    ensures TrimRight(s + pad) == s
  {
    if pad == "" {
      assert s + pad == s;
    } else {
      var n := |pad| - 1;
      assert (s + pad)[..|s + pad| - 1] == s + pad[..n];
      assert (s + pad)[|s + pad| - 1] == pad[n];
      TrimRightOff(s, pad[..n]);
    }
  }

  /** Trimming takes off exactly the padding. */
  lemma TrimOff(left: string, s: string, right: string)
    requires AllSpace(left) && AllSpace(right) && Trimmed(s)
    ensures Trim(left + s + right) == s
  {
    var t := left + s + right;
    if s == "" {
      SpanIs(t, IsSpace, |t|);
    } else {
      assert t[|left|] == s[0];
      SpanIs(t, IsSpace, |left|);
      assert t[|left|..] == s + right;
      TrimRightOff(s, right);
    }
  }

  // ---- letters and case ----

  predicate IsAlpha(c: char) { 'a' <= c <= 'z' || 'A' <= c <= 'Z' }

  function Upper(c: char): char {
    if 'a' <= c <= 'z' then (c as int - 32) as char else c
  }

  function ToUpper(s: string): (r: string)
    ensures |r| == |s| && forall i :: 0 <= i < |s| ==> r[i] == Upper(s[i])
  {
    seq(|s|, i requires 0 <= i < |s| => Upper(s[i]))
  }

  /** boost::iequals. */
  predicate IEquals(a: string, b: string) {
    |a| == |b| && forall i :: 0 <= i < |a| ==> Upper(a[i]) == Upper(b[i])
  }

  // ---- the order of std::string, hence of the keys of std::map ----

  predicate Less(a: string, b: string) {
    if b == "" then false
    else if a == "" then true
    else a[0] < b[0] || (a[0] == b[0] && Less(a[1..], b[1..]))
  }

  lemma {:induction false} LessTotal(a: string, b: string)
    ensures Less(a, b) || a == b || Less(b, a)
    ensures !(Less(a, b) && Less(b, a)) && !Less(a, a)
  {
    if a != "" && b != "" {
      LessTotal(a[1..], b[1..]);
      assert a == [a[0]] + a[1..] && b == [b[0]] + b[1..];
    }
    if a != "" { LessTotal(a[1..], a[1..]); }
  }

  lemma {:induction false} LessTrans(a: string, b: string, c: string)
    requires Less(a, b) && Less(b, c)
    ensures Less(a, c)
  {
    if a != "" && a[0] == b[0] && b[0] == c[0] { LessTrans(a[1..], b[1..], c[1..]); }
  }

  predicate IsLeast(ks: set<string>, k: string) {
    k in ks && forall j :: j in ks ==> !Less(j, k)
  }

  lemma {:induction false} LeastExists(ks: set<string>) returns (k: string)
    requires ks != {}
    ensures IsLeast(ks, k)
    decreases |ks|
  {
    var a :| a in ks;
    if ks == {a} {
      k := a;
      LessTotal(a, a);
    } else {
      var rest := ks - {a};
      k := LeastExists(rest);
      LessTotal(a, k);
      if Less(a, k) {
        forall j | j in ks ensures !Less(j, a) {
          LessTotal(a, a);
          if j != a && Less(j, a) { LessTrans(j, a, k); }
        }
        k := a;
      }
    }
  }

  lemma SomeLeast(ks: set<string>)
    requires ks != {}
    ensures exists k :: IsLeast(ks, k)
  {
    var _ := LeastExists(ks);
  }

  lemma LeastUnique(ks: set<string>, j: string, k: string)
    requires IsLeast(ks, j) && IsLeast(ks, k)
    ensures j == k
  {
    LessTotal(j, k);
  }

  // ---- decimal numbers ----

  predicate IsDigit(c: char) { '0' <= c <= '9' }

  predicate AllDigits(s: string) { forall i :: 0 <= i < |s| ==> IsDigit(s[i]) }

  function DigitOf(n: nat): char
    requires n < 10
  {
    ('0' as int + n) as char
  }

  /** std::to_string of an unsigned value. */
  function Decimal(n: nat): (r: string)
    ensures r != "" && AllDigits(r)
  {
    if n < 10 then [DigitOf(n)] else Decimal(n / 10) + [DigitOf(n % 10)]
  }

  function Number(s: string, acc: nat): nat {
    if s == "" || !IsDigit(s[0]) then acc else Number(s[1..], acc * 10 + (s[0] as int - '0' as int))
  }

  /** atoi, for numbers that an int can hold: blanks, a sign, digits, then anything. */
  function Atoi(s: string): int {
    var t := s[Span(s, IsSpace)..];
    if t != "" && t[0] == '-' then 0 - (Number(t[1..], 0) as int)
    else if t != "" && t[0] == '+' then Number(t[1..], 0)
    else Number(t, 0)
  }

  lemma {:induction false} NumberAppend(a: string, b: string, acc: nat)
    requires AllDigits(a)
    ensures Number(a + b, acc) == Number(b, Number(a, acc))
  {
    if a == "" {
      assert a + b == b;
    } else {
      assert (a + b)[1..] == a[1..] + b;
      NumberAppend(a[1..], b, acc * 10 + (a[0] as int - '0' as int));
    }
  }

  lemma {:induction false} NumberOfDecimal(n: nat)
    ensures Number(Decimal(n), 0) == n
  {
    if n >= 10 {
      NumberAppend(Decimal(n / 10), [DigitOf(n % 10)], 0);
      NumberOfDecimal(n / 10);
      assert [DigitOf(n % 10)][1..] == "";
    }
  }

  /** atoi reads back what to_string printed, whatever non-digit follows it. */
  lemma AtoiOfDecimal(n: nat, rest: string)
    requires rest == "" || !IsDigit(rest[0])
    ensures Atoi(Decimal(n) + rest) == n
  {
    var t := Decimal(n) + rest;
    assert t[0] == Decimal(n)[0] && IsDigit(t[0]);
    SpanIs(t, IsSpace, 0);
    NumberAppend(Decimal(n), rest, 0);
    NumberOfDecimal(n);
  }

  lemma {:induction false} SpanBlanks(pad: string, rest: string)
    requires AllSpace(pad) && (rest == "" || !IsSpace(rest[0]))
    ensures Span(pad + rest, IsSpace) == |pad| && (pad + rest)[|pad|..] == rest
  {
    SpanIs(pad + rest, IsSpace, |pad|);
  }

  /** atoi reads a number behind blanks and a sign, up to the first character that is no
      digit; without a digit there it returns 0. */
  lemma AtoiMeans(pad: string, sign: string, n: nat, rest: string)
    requires AllSpace(pad) && (sign == "" || sign == "+" || sign == "-") && (rest == "" || !IsDigit(rest[0]))
    ensures Atoi(pad + (sign + (Decimal(n) + rest))) == if sign == "-" then 0 - n else n
    ensures (rest == "" || (!IsSpace(rest[0]) && rest[0] != '-' && rest[0] != '+')) ==> Atoi(pad + (sign + rest)) == 0
  {
    var d := Decimal(n) + rest;
    assert d[0] == Decimal(n)[0] && IsDigit(d[0]) && d[0] != '-' && d[0] != '+' && !IsSpace(d[0]);
    NumberAppend(Decimal(n), rest, 0);
    NumberOfDecimal(n);
    SpanBlanks(pad, sign + d);
    assert sign != "" ==> (sign + d)[1..] == d;
    assert sign == "" ==> sign + d == d;
    if rest == "" || (!IsSpace(rest[0]) && rest[0] != '-' && rest[0] != '+') {
      SpanBlanks(pad, sign + rest);
      assert sign != "" ==> (sign + rest)[1..] == rest;
      assert sign == "" ==> sign + rest == rest;
    }
  }
}

/** The byte-string operations the Go program takes from its standard library.
    A `string` is a Go string: a sequence of bytes, one `char` for each byte. */
module Text {

  predicate HasPrefix(s: string, p: string) {
    p <= s
  }

  predicate HasSuffix(s: string, t: string) {
    |t| <= |s| && s[|s| - |t|..] == t
  }

  /** Position of the first `c`, or |s| when there is none. */
  function IndexOf(s: string, c: char): (i: nat)
    ensures i <= |s|
    ensures forall k | 0 <= k < i :: s[k] != c
    ensures i < |s| ==> s[i] == c
  {
    if s == "" || s[0] == c then 0 else 1 + IndexOf(s[1..], c)
  }

  lemma IndexOfIs(s: string, c: char, i: nat)
    requires i <= |s| && forall k | 0 <= k < i :: s[k] != c
    requires i < |s| ==> s[i] == c
    ensures IndexOf(s, c) == i
  {
  }

  /** The first `c` after a head without one. */
  lemma IndexAfter(h: string, c: char, rest: string)
    requires c !in h
    ensures IndexOf(h + [c] + rest, c) == |h|
    ensures IndexOf(h, c) == |h|
  {
    var s := h + [c] + rest;
    assert forall k | 0 <= k < |h| :: s[k] == h[k] && h[k] in h;
    IndexOfIs(s, c, |h|);
    IndexOfIs(h, c, |h|);
  }

  /** Two texts cut at their first separator have equal pieces when they are equal. */
  lemma CutAtFirst(a: string, x: string, b: string, y: string, c: char)
    requires c !in a && c !in b
    requires a + [c] + x == b + [c] + y
    ensures a == b && x == y
  {
    var s := a + [c] + x;
    IndexAfter(a, c, x);
    IndexAfter(b, c, y);
    assert s[..|a|] == a && s[..|b|] == b;
    assert s[|a| + 1..] == x && s[|b| + 1..] == y;
  }

  /** Two texts cut at their last separator have equal pieces when they are equal. */
  lemma CutAtLast(x: string, a: string, y: string, b: string, c: char)
    requires c !in a && c !in b
    requires x + [c] + a == y + [c] + b
    ensures a == b && x == y
  {
    var s := x + [c] + a;
    assert s[|x|] == c && s[|y|] == c;
    assert s[|x| + 1..] == a && s[|y| + 1..] == b;
    assert forall k | |x| < k < |s| :: s[k] == a[k - |x| - 1];
    assert forall k | |y| < k < |s| :: s[k] == b[k - |y| - 1];
    assert s[..|x|] == x && s[..|y|] == y;
  }

  /** strings.Split with a one-byte separator. */
  function Split(s: string, c: char): (parts: seq<string>)
    ensures |parts| >= 1
    decreases |s|
  {
    var i := IndexOf(s, c);
    if i == |s| then [s] else [s[..i]] + Split(s[i + 1..], c)
  }

  function Join(parts: seq<string>, c: char): string {
    if |parts| == 0 then ""
    else if |parts| == 1 then parts[0]
    else parts[0] + [c] + Join(parts[1..], c)
  }

  lemma {:induction false} JoinSplit(s: string, c: char)
    ensures Join(Split(s, c), c) == s
    ensures forall p | p in Split(s, c) :: c !in p
    decreases |s|
  {
    var i := IndexOf(s, c);
    if i < |s| {
      JoinSplit(s[i + 1..], c);
      var parts := Split(s, c);
      assert parts[1..] == Split(s[i + 1..], c);
      assert s == s[..i] + [c] + s[i + 1..];
    }
  }

  lemma SplitCons(h: string, rest: string, c: char)
    requires c !in h
    ensures Split(h + [c] + rest, c) == [h] + Split(rest, c)
  {
    var s := h + [c] + rest;
    IndexAfter(h, c, rest);
    assert s[..|h|] == h && s[|h| + 1..] == rest;
  }

  lemma SplitNone(s: string, c: char)
    requires c !in s
    ensures Split(s, c) == [s]
  {
    IndexAfter(s, c, "");
  }

  /** Where a text holds one separator, splitting yields the two sides of it. */
  lemma SplitAtOnly(p: string, q: string, c: char)
    requires c !in p && c !in q
    ensures Split(p + [c] + q, c) == [p, q]
  {
    SplitCons(p, q, c);
    SplitNone(q, c);
  }

  /** The ASCII white space of unicode.IsSpace. */
  predicate IsSpace(c: char) {
    c == ' ' || c == '\t' || c == '\n' || c == '\r' || c == 11 as char || c == 12 as char
  }

  ghost predicate AllSpace(s: string) {
    forall c | c in s :: IsSpace(c)
  }

  function TrimLeft(s: string): string {
    if s != "" && IsSpace(s[0]) then TrimLeft(s[1..]) else s
  }

  function TrimRight(s: string): string {
    if s != "" && IsSpace(s[|s| - 1]) then TrimRight(s[..|s| - 1]) else s
  }

  function TrimSpace(s: string): string {
    TrimRight(TrimLeft(s))
  }

  lemma {:induction false} TrimLeftPast(l: string, s: string)
    requires AllSpace(l)
    requires s != "" ==> !IsSpace(s[0])
    ensures TrimLeft(l + s) == s
  {
    if l == "" {
      assert l + s == s;
    } else {
      assert (l + s)[1..] == l[1..] + s;
      TrimLeftPast(l[1..], s);
    }
  }

  lemma {:induction false} TrimRightPast(s: string, r: string)
    requires s != "" && !IsSpace(s[|s| - 1])
    ensures TrimRight(s + r) == s + TrimRight(r)
  {
    if r == "" {
      assert s + r == s;
    } else if IsSpace(r[|r| - 1]) {
      assert (s + r)[..|s + r| - 1] == s + r[..|r| - 1];
      TrimRightPast(s, r[..|r| - 1]);
    }
  }

  lemma {:induction false} TrimRightAll(r: string)
    requires AllSpace(r)
    ensures TrimRight(r) == ""
  {
    if r != "" {
      TrimRightAll(r[..|r| - 1]);
    }
  }

  lemma TrimBoth(lead: string, inner: string, rest: string)
    requires AllSpace(lead)
    requires inner != "" && !IsSpace(inner[0]) && !IsSpace(inner[|inner| - 1])
    ensures TrimSpace(lead + (inner + rest)) == inner + TrimRight(rest)
  {
    TrimLeftPast(lead, inner + rest);
    TrimRightPast(inner, rest);
  }

  lemma TrimNothing(s: string)
    requires s != "" && !IsSpace(s[0]) && !IsSpace(s[|s| - 1])
    ensures TrimSpace(s) == s
  {
  }

  lemma {:induction false} TrimLeftStops(s: string)
    ensures AllSpace(s) ==> TrimLeft(s) == ""
    ensures !AllSpace(s) ==> TrimLeft(s) != "" && !IsSpace(TrimLeft(s)[0])
  {
    if s != "" && IsSpace(s[0]) {
      TrimLeftStops(s[1..]);
      assert s == [s[0]] + s[1..];
    }
  }

  lemma {:induction false} TrimRightKeepsHead(s: string)
    requires s != "" && !IsSpace(s[0])
    ensures TrimRight(s) != ""
  {
    if IsSpace(s[|s| - 1]) {
      TrimRightKeepsHead(s[..|s| - 1]);
    }
  }

  /** Only white space trims to nothing. */
  lemma TrimIsEmptyExactly(s: string)
    ensures TrimSpace(s) == "" <==> AllSpace(s)
  {
    TrimLeftStops(s);
    if !AllSpace(s) {
      TrimRightKeepsHead(TrimLeft(s));
    }
  }

  // Decimal numerals.

  predicate IsDigit(c: char) {
    '0' <= c <= '9'
  }

  function DigitOf(d: nat): (c: char)
    requires d < 10
    ensures IsDigit(c) && c as int - '0' as int == d
  {
    ('0' as int + d) as char
  }

  /** fmt's %d for a non-negative integer. */
  function Decimal(n: nat): (s: string)
    ensures |s| > 0
    ensures forall c | c in s :: IsDigit(c)
  {
    if n < 10 then [DigitOf(n)] else Decimal(n / 10) + [DigitOf(n % 10)]
  }

  /** The number a run of digits denotes. */
  function Value(s: string): nat
    requires forall c | c in s :: IsDigit(c)
  {
    if s == "" then 0 else assert IsDigit(s[|s| - 1]); 10 * Value(s[..|s| - 1]) + (s[|s| - 1] as int - '0' as int)
  }

  lemma {:induction false} ValueOfDecimal(n: nat)
    ensures Value(Decimal(n)) == n
  {
    if n >= 10 {
      ValueOfDecimal(n / 10);
      var s := Decimal(n);
      assert s[..|s| - 1] == Decimal(n / 10);
    } else {
      assert Decimal(n)[..0] == "";
    }
  }

  lemma DecimalInjective(m: nat, n: nat)
    requires Decimal(m) == Decimal(n)
    ensures m == n
  {
    ValueOfDecimal(m);
    ValueOfDecimal(n);
  }
}

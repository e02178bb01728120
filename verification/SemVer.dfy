/** Version texts and their order. */
module SemVer {
  import opened Wrappers
  import opened Text

  datatype Version = Version(major: int, minor: int, patch: int)

  /** The first integer a 64-bit Go `int` cannot hold. */
  const INT_LIMIT: int := 0x8000_0000_0000_0000

  /** strconv.Atoi: an optional sign, then decimal digits, within 64 bits. */
  function Atoi(s: string): Option<int> {
    var signed := s != "" && (s[0] == '+' || s[0] == '-');
    var digits := if signed then s[1..] else s;
    if digits == "" || exists c | c in digits :: !IsDigit(c) then None
    else
      var n: int := if s[0] == '-' then 0 - Value(digits) else Value(digits);
      if -INT_LIMIT <= n < INT_LIMIT then Some(n) else None
  }

  /** What is left of a version text once the outer space, one leading 'v'
      and everything from the first '-' are gone. */
  function Core(s: string): string {
    BeforeDash(WithoutV(TrimSpace(s)))
  }

  function WithoutV(t: string): string {
    if HasPrefix(t, "v") then t[1..] else t
  }

  function BeforeDash(t: string): string {
    t[..IndexOf(t, '-')]
  }

  predicate Component(p: string) {
    var n := Atoi(p);
    n.Some? && n.value >= 0
  }

  /** The version a text denotes, if it denotes one. */
  function Parsed(s: string): Option<Version> {
    var parts := Split(Core(s), '.');
    if |parts| == 3 && Component(parts[0]) && Component(parts[1]) && Component(parts[2])
    then Some(Version(Atoi(parts[0]).value, Atoi(parts[1]).value, Atoi(parts[2]).value))
    else None
  }

  /** The loop that reads the three components. */
  method ReadComponents(parts: seq<string>) returns (vals: Option<seq<int>>)
    requires |parts| == 3
    ensures vals.Some? <==> forall k | 0 <= k < 3 :: Component(parts[k])
    ensures vals.Some? ==> |vals.value| == 3 && forall k | 0 <= k < 3 :: Atoi(parts[k]) == Some(vals.value[k])
  {
    var read := [0, 0, 0];
    for i := 0 to 3
      invariant |read| == 3
      invariant forall k | 0 <= k < i :: Component(parts[k]) && Atoi(parts[k]) == Some(read[k])
    {
      var n := Atoi(parts[i]);
      if n.None? || n.value < 0 {
        assert !Component(parts[i]);
        return None;
      }
      read := read[i := n.value];
    }
    return Some(read);
  }

  method Parse(text: string) returns (v: Option<Version>)
    ensures v == Parsed(text)
  {
    var s := TrimSpace(text);
    if HasPrefix(s, "v") {
      s := s[1..];
    }
    var core := s[..IndexOf(s, '-')];
    assert core == Core(text);
    var parts := Split(core, '.');
    if |parts| != 3 {
      return None;
    }
    var vals := ReadComponents(parts);
    if vals.None? {
      return None;
    }
    return Some(Version(vals.value[0], vals.value[1], vals.value[2]));
  }

  /** Precedence of Semantic Versioning 2.0.0 item 11.2: the first difference decides. */
  predicate Before(a: Version, b: Version) {
    || a.major < b.major
    || (a.major == b.major && a.minor < b.minor)
    || (a.major == b.major && a.minor == b.minor && a.patch < b.patch)
  }

  method Compare(a: Version, b: Version) returns (c: int)
    ensures c == -1 <==> Before(a, b)
    ensures c == 1 <==> Before(b, a)
    ensures c == 0 <==> a == b
    ensures -1 <= c <= 1
    ensures a.major < b.major ==> c == -1
    ensures a.major > b.major ==> c == 1
    ensures a.major == b.major && a.minor < b.minor ==> c == -1
    ensures a.major == b.major && a.minor > b.minor ==> c == 1
    ensures a.major == b.major && a.minor == b.minor && a.patch < b.patch ==> c == -1
    ensures a.major == b.major && a.minor == b.minor && a.patch > b.patch ==> c == 1
  {
    var av := [a.major, a.minor, a.patch];
    var bv := [b.major, b.minor, b.patch];
    for i := 0 to 3
      invariant 0 < i ==> a.major == b.major
      invariant 1 < i ==> a.minor == b.minor
      invariant 2 < i ==> a.patch == b.patch
    {
      if av[i] < bv[i] {
        return -1;
      }
      if av[i] > bv[i] {
        return 1;
      }
    }
    return 0;
  }

  /** Before, on the numbers: versions are equal up to some component and smaller there. */
  lemma BeforeByFirstDifference(a: Version, b: Version)
    ensures var x, y := [a.major, a.minor, a.patch], [b.major, b.minor, b.patch];
            Before(a, b) <==> exists k | 0 <= k < 3 :: x[k] < y[k] && forall j | 0 <= j < k :: x[j] == y[j]
  {
    var x, y := [a.major, a.minor, a.patch], [b.major, b.minor, b.patch];
    if k :| 0 <= k < 3 && x[k] < y[k] && forall j | 0 <= j < k :: x[j] == y[j] {
      assert k >= 1 ==> x[0] == y[0];
      assert k >= 2 ==> x[1] == y[1];
    }
    if Before(a, b) {
      var k := if x[0] < y[0] then 0 else if x[1] < y[1] then 1 else 2;
      assert x[k] < y[k] && forall j | 0 <= j < k :: x[j] == y[j];
    }
  }

  /** Three components joined by dots. */
  function Dotted(p: string, q: string, r: string): string {
    p + ['.'] + (q + ['.'] + r)
  }

  /** The canonical text of a version. */
  function Canonical(a: nat, b: nat, c: nat): string {
    Dotted(Decimal(a), Decimal(b), Decimal(c))
  }

  lemma AtoiOfDecimal(n: nat)
    requires n < INT_LIMIT
    ensures Atoi(Decimal(n)) == Some(n)
  {
    ValueOfDecimal(n);
    assert IsDigit(Decimal(n)[0]);
  }

  /** A plus sign changes nothing. */
  lemma AtoiOfPlus(n: nat)
    ensures Atoi("+" + Decimal(n)) == Atoi(Decimal(n))
  {
    ValueOfDecimal(n);
    assert IsDigit(Decimal(n)[0]);
    assert ("+" + Decimal(n))[1..] == Decimal(n);
  }

  /** A minus sign negates, and the 64 bits reach one further below zero than above. */
  lemma AtoiOfMinus(n: nat)
    ensures n <= 0x8000_0000_0000_0000 ==> Atoi("-" + Decimal(n)) == Some(0 - n)
    ensures n > 0x8000_0000_0000_0000 ==> Atoi("-" + Decimal(n)) == None
  {
    ValueOfDecimal(n);
    assert ("-" + Decimal(n))[1..] == Decimal(n);
  }

  lemma AtoiBeyondRange(n: nat)
    requires n >= 0x8000_0000_0000_0000
    ensures Atoi(Decimal(n)) == None
  {
    ValueOfDecimal(n);
    assert IsDigit(Decimal(n)[0]);
  }

  lemma SplitDotted(p: string, q: string, r: string)
    requires '.' !in p && '.' !in q && '.' !in r
    ensures Split(Dotted(p, q, r), '.') == [p, q, r]
  {
    SplitCons(p, q + ['.'] + r, '.');
    SplitAtOnly(q, r, '.');
  }

  lemma JoinDotted(p: string, q: string, r: string)
    ensures Join([p, q, r], '.') == Dotted(p, q, r)
  {
    assert [p, q, r][1..] == [q, r] && [q, r][1..] == [r];
    assert Join([q, r], '.') == q + ['.'] + Join([r], '.');
  }

  lemma DigitsOnly(s: string, c: char)
    requires forall d | d in s :: IsDigit(d)
    requires !IsDigit(c)
    ensures c !in s
  {
  }

  lemma CanonicalParts(a: nat, b: nat, c: nat)
    ensures Split(Canonical(a, b, c), '.') == [Decimal(a), Decimal(b), Decimal(c)]
    ensures '-' !in Canonical(a, b, c)
  {
    DigitsOnly(Decimal(a), '.');
    DigitsOnly(Decimal(b), '.');
    DigitsOnly(Decimal(c), '.');
    SplitDotted(Decimal(a), Decimal(b), Decimal(c));
    DigitsOnly(Decimal(a), '-');
    DigitsOnly(Decimal(b), '-');
    DigitsOnly(Decimal(c), '-');
  }

  lemma CanonicalEnds(a: nat, b: nat, c: nat)
    ensures var s := Canonical(a, b, c);
            s != "" && IsDigit(s[0]) && IsDigit(s[|s| - 1])
  {
    var s := Canonical(a, b, c);
    assert s[0] == Decimal(a)[0] && Decimal(a)[0] in Decimal(a);
    var d := Decimal(c);
    assert s[|s| - 1] == d[|d| - 1] && d[|d| - 1] in d;
  }

  /** Cutting at the first '-' leaves the body, whatever the rest of the suffix is. */
  lemma CutSuffix(body: string, rest: string)
    requires '-' !in body
    requires rest == "" || rest[0] == '-'
    ensures BeforeDash(body + rest) == body
  {
    assert (body + rest)[..|body|] == body;
    IndexOfIs(body + rest, '-', |body|);
  }

  /** Trimming keeps the '-' a suffix begins with. */
  lemma SuffixKeepsDash(suffix: string, trail: string)
    requires AllSpace(trail)
    requires suffix == "" || suffix[0] == '-'
    ensures var t := TrimRight(suffix + trail); t == "" || t[0] == '-'
  {
    if suffix == "" {
      assert suffix + trail == trail;
      TrimRightAll(trail);
    } else {
      var rest := suffix[1..] + trail;
      assert suffix + trail == ['-'] + rest;
      TrimRightPast(['-'], rest);
    }
  }

  lemma DropV(v: bool, body: string, rest: string)
    requires body != "" && body[0] != 'v'
    ensures WithoutV((if v then "v" + body else body) + rest) == body + rest
  {
    var t := (if v then "v" + body else body) + rest;
    if v {
      assert t == "v" + (body + rest);
    } else {
      assert t[0] == body[0];
    }
  }

  lemma CoreOfTrimmed(s: string, v: bool, body: string, rest: string)
    requires TrimSpace(s) == (if v then "v" + body else body) + rest
    requires body != "" && body[0] != 'v' && '-' !in body
    requires rest == "" || rest[0] == '-'
    ensures Core(s) == body
  {
    DropV(v, body, rest);
    CutSuffix(body, rest);
  }

  /** A version text as its writer lays it out. */
  function Decorated(lead: string, v: bool, body: string, suffix: string, trail: string): string {
    lead + ((if v then "v" + body else body) + (suffix + trail))
  }

  /** Core strips every decoration from a body that begins and ends with a digit. */
  lemma CoreOfDecorated(lead: string, v: bool, body: string, suffix: string, trail: string)
    requires AllSpace(lead) && AllSpace(trail)
    requires body != "" && IsDigit(body[0]) && IsDigit(body[|body| - 1]) && '-' !in body
    requires suffix == "" || suffix[0] == '-'
    ensures Core(Decorated(lead, v, body, suffix, trail)) == body
  {
    TrimBoth(lead, if v then "v" + body else body, suffix + trail);
    SuffixKeepsDash(suffix, trail);
    CoreOfTrimmed(Decorated(lead, v, body, suffix, trail), v, body, TrimRight(suffix + trail));
  }

  /** Parsing undoes canonical printing, through any outer white space, an optional
      leading 'v' and an optional pre-release or build suffix. */
  lemma ParseUndoesPrint(lead: string, v: bool, a: nat, b: nat, c: nat, suffix: string, trail: string)
    requires AllSpace(lead) && AllSpace(trail)
    requires a < INT_LIMIT && b < INT_LIMIT && c < INT_LIMIT
    requires suffix == "" || suffix[0] == '-'
    ensures Parsed(Decorated(lead, v, Canonical(a, b, c), suffix, trail)) == Some(Version(a, b, c))
  {
    CanonicalEnds(a, b, c);
    CanonicalParts(a, b, c);
    CoreOfDecorated(lead, v, Canonical(a, b, c), suffix, trail);
    AtoiOfDecimal(a);
    AtoiOfDecimal(b);
    AtoiOfDecimal(c);
  }

  lemma ParsedIsNatural(s: string)
    requires Parsed(s).Some?
    ensures var v := Parsed(s).value; v.major >= 0 && v.minor >= 0 && v.patch >= 0
  {
  }

  /** Three dot-free numerals that denote the components of `v`. */
  ghost predicate Spells(p: string, q: string, r: string, v: Version) {
    && '.' !in p && '.' !in q && '.' !in r
    && Atoi(p) == Some(v.major) && Atoi(q) == Some(v.minor) && Atoi(r) == Some(v.patch)
    && v.major >= 0 && v.minor >= 0 && v.patch >= 0
  }

  /** The accepted texts exactly: three dot-free numerals joined by two dots. */
  lemma ParsedExactly(s: string, v: Version)
    ensures Parsed(s) == Some(v) <==> exists p, q, r :: Spells(p, q, r, v) && Core(s) == Dotted(p, q, r)
  {
    if Parsed(s) == Some(v) {
      var parts := Split(Core(s), '.');
      JoinSplit(Core(s), '.');
      assert parts == [parts[0], parts[1], parts[2]];
      JoinDotted(parts[0], parts[1], parts[2]);
      assert Spells(parts[0], parts[1], parts[2], v);
    }
    forall p, q, r | Spells(p, q, r, v) && Core(s) == Dotted(p, q, r)
      ensures Parsed(s) == Some(v)
    {
      SplitDotted(p, q, r);
    }
  }
}

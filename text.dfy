/**
  The string building blocks of the serialiser: the line break, indentation by
  tabs, decimal rendering of integers (ASCII digits and a leading `-`, as
  `AppendFormat` writes them in a culture with those conventions), and
  `String.Split` / `String.Join` over one separator.
 */
module Text {
  import opened Wrappers

  /** `Environment.NewLine`, taken as the Windows line break. */
  const NewLine: string := "\r\n"

  /** `Tabs(count)`: exactly `count` tab characters, the empty string for 0. */
  function Tabs(count: nat): (r: string)
    ensures |r| == count
    ensures forall i :: 0 <= i < |r| ==> r[i] == '\t'
  {
    if count == 0 then "" else Tabs(count - 1) + "\t"
  }

  predicate IsDigit(c: char) {
    '0' <= c <= '9'
  }

  predicate IsDigits(s: string) {
    forall i :: 0 <= i < |s| ==> IsDigit(s[i])
  }

  function DigitChar(d: nat): (c: char)
    requires d < 10
    ensures IsDigit(c)
  {
    ('0' as int + d) as char
  }

  function DigitValue(c: char): (d: nat)
    requires IsDigit(c)
    ensures d < 10
  {
    c as int - '0' as int
  }

  /** Decimal digits of a natural number, most significant first, no leading zero. */
  function NatText(n: nat): (r: string)
    ensures |r| >= 1 && IsDigits(r)
    ensures |r| > 1 ==> r[0] != '0'
  {
    if n < 10 then [DigitChar(n)] else NatText(n / 10) + [DigitChar(n % 10)]
  }

  /** The value of a string of decimal digits. */
  function ParseNat(s: string): nat
    requires IsDigits(s)
  {
    if s == [] then 0 else ParseNat(s[..|s| - 1]) * 10 + DigitValue(s[|s| - 1])
  }

  /** An integer as `Int32.ToString()` / `Int64.ToString()` write it: a minus sign, then the digits. */
  function IntText(v: int): string {
    if v < 0 then "-" + NatText(-v) else NatText(v)
  }

  /** Reads back what `IntText` writes; `None` for anything that is not an optional minus and digits. */
  function ParseInt(s: string): Option<int> {
    if |s| > 1 && s[0] == '-' && IsDigits(s[1..]) then
      var n: int := ParseNat(s[1..]); Some(-n)
    else if |s| > 0 && IsDigits(s) then Some(ParseNat(s))
    else None
  }

  lemma {:induction false} ParseNatText(n: nat)
    ensures ParseNat(NatText(n)) == n
  {
    var r := NatText(n);
    if n < 10 {
      assert r[..0] == "";
    } else {
      ParseNatText(n / 10);
      assert r[..|r| - 1] == NatText(n / 10);
    }
  }

  lemma NegativeTextRoundTrip(n: nat)
    requires n > 0
    ensures ParseInt("-" + NatText(n)) == Some(-(n as int))
  {
    var d := NatText(n);
    var s := "-" + d;
    assert s[1..] == d;
    ParseNatText(n);
  }

  lemma NonNegativeTextRoundTrip(n: nat)
    ensures ParseInt(NatText(n)) == Some(n)
  {
    var d := NatText(n);
    assert IsDigit(d[0]);
    ParseNatText(n);
  }

  /** Every integer is recovered from its decimal text. */
  lemma IntTextRoundTrip(v: int)
    ensures ParseInt(IntText(v)) == Some(v)
  {
    if v < 0 {
      NegativeTextRoundTrip(-v);
    } else {
      NonNegativeTextRoundTrip(v);
    }
  }

  /** `String.Join(sep, parts)`: the parts with `sep` between neighbours, none before or after. */
  function Join(sep: string, parts: seq<string>): string {
    if |parts| == 0 then ""
    else if |parts| == 1 then parts[0]
    else parts[0] + sep + Join(sep, parts[1..])
  }

  lemma {:induction false} JoinSnoc(sep: string, parts: seq<string>, x: string)
    requires |parts| >= 1
    ensures Join(sep, parts + [x]) == Join(sep, parts) + sep + x
  {
    if |parts| > 1 {
      JoinSnoc(sep, parts[1..], x);
      assert (parts + [x])[1..] == parts[1..] + [x];
    }
  }

  /** `s.Split(sep)`: the maximal runs between separators, empty runs kept; always at least one part. */
  function Split(s: string, sep: char): (parts: seq<string>)
    ensures |parts| >= 1
  {
    if s == [] then [""]
    else
      var rest := Split(s[1..], sep);
      if s[0] == sep then [""] + rest
      else [[s[0]] + rest[0]] + rest[1..]
  }

  /** Splitting and joining back with the same separator gives the string again. */
  lemma {:induction false} JoinSplit(s: string, sep: char)
    ensures Join([sep], Split(s, sep)) == s
  {
    if s != [] {
      var rest := Split(s[1..], sep);
      JoinSplit(s[1..], sep);
      if s[0] != sep {
        var parts := [[s[0]] + rest[0]] + rest[1..];
        if |rest| > 1 {
          assert parts[1..] == rest[1..];
        }
      }
    }
  }

  lemma {:induction false} SplitNoSeparator(p: string, sep: char)
    requires sep !in p
    ensures Split(p, sep) == [p]
  {
    if p != [] {
      assert p[0] != sep && sep !in p[1..];
      SplitNoSeparator(p[1..], sep);
      assert [p[0]] + p[1..] == p;
    }
  }

  lemma {:induction false} SplitPrefix(p: string, sep: char, rest: string)
    requires sep !in p
    ensures Split(p + [sep] + rest, sep) == [p] + Split(rest, sep)
  {
    if p != [] {
      var s := p + [sep] + rest;
      assert s[0] == p[0] != sep && sep !in p[1..];
      assert s[1..] == p[1..] + [sep] + rest;
      SplitPrefix(p[1..], sep, rest);
      assert [p[0]] + p[1..] == p;
    } else {
      assert (p + [sep] + rest)[1..] == rest;
    }
  }

  /** Joining parts that hold no separator and splitting again gives the parts back. */
  lemma {:induction false} SplitJoin(parts: seq<string>, sep: char)
    requires |parts| >= 1
    requires forall i :: 0 <= i < |parts| ==> sep !in parts[i]
    ensures Split(Join([sep], parts), sep) == parts
  {
    if |parts| == 1 {
      SplitNoSeparator(parts[0], sep);
    } else {
      SplitJoin(parts[1..], sep);
      SplitPrefix(parts[0], sep, Join([sep], parts[1..]));
      assert [parts[0]] + parts[1..] == parts;
    }
  }

  /** The distinct elements of `xs` in order of first occurrence (the enumeration order of a `HashSet` filled from `xs`). */
  function Dedup(xs: seq<string>): (r: seq<string>)
    ensures forall x :: x in r <==> x in xs
    ensures forall i, j :: 0 <= i < j < |r| ==> r[i] != r[j]
  {
    if xs == [] then []
    else
      var d := Dedup(xs[..|xs| - 1]);
      var last := xs[|xs| - 1];
      assert forall x :: x in xs <==> x in xs[..|xs| - 1] || x == last by {
        assert xs == xs[..|xs| - 1] + [last];
      }
      if last in d then d else d + [last]
  }
}

/**
  The per-kind literal rules of `HandleBaseTypes`: the two `DateTime` forms,
  backslash doubling inside string literals and the comma-separated body of a
  `byte[]` literal. Each rule comes with the reading that undoes it.
 */
module Literals {
  import opened Wrappers
  import opened Text

  type Byte = b: nat | b < 256

  /** The fields of a `DateTime` the formatter reads, plus the sub-second ticks, which no literal carries. */
  datatype DateTime = DateTime(year: nat, month: nat, day: nat, hour: nat, minute: nat, second: nat, ticks: nat)

  predicate IsMidnight(dt: DateTime) {
    dt.hour == 0 && dt.minute == 0 && dt.second == 0
  }

  function NatTexts(ns: seq<nat>): (r: seq<string>)
    ensures |r| == |ns|
    ensures forall i :: 0 <= i < |r| ==> r[i] == NatText(ns[i])
  {
    seq(|ns|, i requires 0 <= i < |ns| => NatText(ns[i]))
  }

  /** The constructor arguments of a `DateTime` literal: date only at midnight, else date and time of day. */
  function DateArgs(dt: DateTime): seq<nat> {
    if IsMidnight(dt) then [dt.year, dt.month, dt.day]
    else [dt.year, dt.month, dt.day, dt.hour, dt.minute, dt.second]
  }

  /** `new DateTime(y,mo,d)` or `new DateTime(y,mo,d,h,mi,s)`, no spaces. */
  function DateText(dt: DateTime): string {
    "new DateTime(" + Join(",", NatTexts(DateArgs(dt))) + ")"
  }

  /** The arguments of a `DateTime` literal, field by field, as the serialiser's format strings lay them out. */
  lemma DateArgsFields(dt: DateTime)
    ensures IsMidnight(dt) ==>
      Join(",", NatTexts(DateArgs(dt))) == NatText(dt.year) + "," + NatText(dt.month) + "," + NatText(dt.day)
    ensures !IsMidnight(dt) ==>
      Join(",", NatTexts(DateArgs(dt))) == NatText(dt.year) + "," + NatText(dt.month) + "," + NatText(dt.day) + ","
        + NatText(dt.hour) + "," + NatText(dt.minute) + "," + NatText(dt.second)
  {
    var parts := NatTexts(DateArgs(dt));
    assert parts[..1] == [parts[0]];
    assert parts[..2] == parts[..1] + [parts[1]];
    JoinSnoc(",", parts[..1], parts[1]);
    assert parts[..3] == parts[..2] + [parts[2]];
    JoinSnoc(",", parts[..2], parts[2]);
    if !IsMidnight(dt) {
      assert parts[..4] == parts[..3] + [parts[3]];
      JoinSnoc(",", parts[..3], parts[3]);
      assert parts[..5] == parts[..4] + [parts[4]];
      JoinSnoc(",", parts[..4], parts[4]);
      assert parts[..6] == parts[..5] + [parts[5]];
      JoinSnoc(",", parts[..5], parts[5]);
      assert parts[..6] == parts;
    } else {
      assert parts[..3] == parts;
    }
  }

  /** Reads each part as decimal digits; `None` if a part is empty or holds anything else. */
  function ParseNats(parts: seq<string>): (r: Option<seq<nat>>)
    ensures r.Some? ==> |r.value| == |parts|
  {
    if parts == [] then Some([])
    else if |parts[0]| > 0 && IsDigits(parts[0]) then
      match ParseNats(parts[1..])
      case Some(rest) => Some([ParseNat(parts[0])] + rest)
      case None => None
    else None
  }

  /** What `new DateTime(...)` with three or six arguments constructs; the ticks are zero. */
  function ConstructDate(args: seq<nat>): Option<DateTime> {
    if |args| == 3 then Some(DateTime(args[0], args[1], args[2], 0, 0, 0, 0))
    else if |args| == 6 then Some(DateTime(args[0], args[1], args[2], args[3], args[4], args[5], 0))
    else None
  }

  /** Reads back a literal of the shape `DateText` writes. */
  function ParseDate(s: string): Option<DateTime> {
    var open := "new DateTime(";
    if |s| > |open| && s[..|open|] == open && s[|s| - 1] == ')' then
      match ParseNats(Split(s[|open|..|s| - 1], ','))
      case Some(args) => ConstructDate(args)
      case None => None
    else None
  }

  lemma {:induction false} ParseNatTexts(ns: seq<nat>)
    ensures ParseNats(NatTexts(ns)) == Some(ns)
  {
    if ns != [] {
      ParseNatTexts(ns[1..]);
      ParseNatText(ns[0]);
      assert NatTexts(ns)[1..] == NatTexts(ns[1..]);
      assert [ns[0]] + ns[1..] == ns;
    }
  }

  /** Joining decimal texts with commas and splitting at commas gives the texts back. */
  lemma SplitNatTexts(ns: seq<nat>)
    requires |ns| >= 1
    ensures Split(Join(",", NatTexts(ns)), ',') == NatTexts(ns)
  {
    var parts := NatTexts(ns);
    assert forall i :: 0 <= i < |parts| ==> ',' !in parts[i];
    SplitJoin(parts, ',');
  }

  /**
    Replaying a `DateTime` literal gives back the same date and time of day;
    only the sub-second ticks are lost. Midnight is exactly when the short form is used.
   */
  lemma DateLiteralRoundTrip(dt: DateTime)
    ensures ParseDate(DateText(dt)) == Some(dt.(ticks := 0))
    ensures |DateArgs(dt)| == 3 <==> IsMidnight(dt)
  {
    var open := "new DateTime(";
    var inner := Join(",", NatTexts(DateArgs(dt)));
    var s := DateText(dt);
    assert s[..|open|] == open;
    assert s[|open|..|s| - 1] == inner;
    SplitNatTexts(DateArgs(dt));
    ParseNatTexts(DateArgs(dt));
  }

  /** The body of a `byte[]` literal: the byte values with commas between them only. */
  function BytesText(bs: seq<Byte>): string {
    Join(",", NatTexts(bs))
  }

  /** Reads back a `byte[]` body; the empty body is the empty array. */
  function ParseBytes(s: string): Option<seq<nat>> {
    if s == "" then Some([]) else ParseNats(Split(s, ','))
  }

  /** A `byte[]` body names exactly the bytes, in order; the empty array gives the empty body. */
  lemma BytesRoundTrip(bs: seq<Byte>)
    ensures ParseBytes(BytesText(bs)) == Some(bs)
  {
    if bs != [] {
      assert |NatText(bs[0])| >= 1;
      assert |BytesText(bs)| > 0 by {
        if |bs| > 1 {
          assert BytesText(bs) == NatText(bs[0]) + "," + Join(",", NatTexts(bs)[1..]);
        }
      }
      SplitNatTexts(bs);
      ParseNatTexts(bs);
    }
  }

  /** Doubles every backslash and changes nothing else (`Replace(@"\", @"\\")`). */
  function EscapeBackslashes(s: string): (r: string)
    ensures |r| >= |s|
  {
    if s == [] then ""
    else (if s[0] == '\\' then "\\\\" else [s[0]]) + EscapeBackslashes(s[1..])
  }

  /** Turns each doubled backslash back into one. */
  function UndoubleBackslashes(r: string): string {
    if r == [] then ""
    else if |r| >= 2 && r[0] == '\\' && r[1] == '\\' then "\\" + UndoubleBackslashes(r[2..])
    else [r[0]] + UndoubleBackslashes(r[1..])
  }

  /** The string with its backslashes taken out. */
  function WithoutBackslashes(s: string): string {
    if s == [] then ""
    else (if s[0] == '\\' then "" else [s[0]]) + WithoutBackslashes(s[1..])
  }

  /** Undoubling the backslashes of an escaped string recovers the string. */
  lemma {:induction false} EscapeRoundTrip(s: string)
    ensures UndoubleBackslashes(EscapeBackslashes(s)) == s
  {
    if s != [] {
      EscapeRoundTrip(s[1..]);
      var r := EscapeBackslashes(s);
      if s[0] == '\\' {
        assert r[2..] == EscapeBackslashes(s[1..]);
      } else {
        assert r[1..] == EscapeBackslashes(s[1..]);
      }
      assert [s[0]] + s[1..] == s;
    }
  }

  /** Escaping touches backslashes only: every other character passes through, in order. */
  lemma {:induction false} EscapeOnlyBackslashes(s: string)
    ensures WithoutBackslashes(EscapeBackslashes(s)) == WithoutBackslashes(s)
    ensures |EscapeBackslashes(s)| == |s| + (|s| - |WithoutBackslashes(s)|)
  {
    if s != [] {
      EscapeOnlyBackslashes(s[1..]);
      var r := EscapeBackslashes(s);
      if s[0] == '\\' {
        assert r == "\\\\" + EscapeBackslashes(s[1..]);
        assert WithoutBackslashes(r) == WithoutBackslashes(r[1..]);
        assert r[1..][1..] == EscapeBackslashes(s[1..]);
      } else {
        assert r[1..] == EscapeBackslashes(s[1..]);
      }
    }
  }
}

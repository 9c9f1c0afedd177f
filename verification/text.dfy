/**
 Decimal text as `printf("%d")` produces it: no padding, no leading zeros,
 a `-` for negative values. Used by the RTC's date string and the SD
 example's capacity labels.
 */
module Text {
  import opened Optional

  predicate IsDigit(c: char) {
    '0' <= c <= '9'
  }

  function DigitChar(d: nat): (c: char)
    requires d < 10
    ensures IsDigit(c)
    ensures c as int - '0' as int == d
  {
    (d + '0' as int) as char
  }

  function DigitValue(c: char): (d: nat)
    requires IsDigit(c)
    ensures d < 10
  {
    c as int - '0' as int
  }

  /** `%d` of a non-negative value. */
  function NatToDecimal(n: nat): (s: string)
    ensures |s| >= 1
    ensures forall i :: 0 <= i < |s| ==> IsDigit(s[i])
    ensures |s| > 1 ==> s[0] != '0'
    decreases n
  {
    if n < 10 then [DigitChar(n)]
    else NatToDecimal(n / 10) + [DigitChar(n % 10)]
  }

  /** The value of a string of decimal digits, most significant first. */
  function DecimalValue(s: string): nat
    requires forall i :: 0 <= i < |s| ==> IsDigit(s[i])
  {
    if |s| == 0 then 0
    else 10 * DecimalValue(s[..|s| - 1]) + DigitValue(s[|s| - 1])
  }

  /** Reading the formatted digits back gives the number that was printed. */
  lemma {:induction false} DecimalRoundTrip(n: nat)
    ensures DecimalValue(NatToDecimal(n)) == n
    decreases n
  {
    var s := NatToDecimal(n);
    if n >= 10 {
      DecimalRoundTrip(n / 10);
      assert s[..|s| - 1] == NatToDecimal(n / 10);
    }
  }

  /** `%d` of any `int`. */
  function IntToDecimal(i: int): (s: string)
    ensures |s| >= 1
    ensures i >= 0 ==> s == NatToDecimal(i)
    ensures i < 0 ==> s == ['-'] + NatToDecimal(-i)
  {
    if i >= 0 then NatToDecimal(i) else ['-'] + NatToDecimal(-i)
  }

  /** The length of the run of digits at the front of `s`. */
  function DigitRun(s: string): (k: nat)
    ensures k <= |s|
    ensures forall i :: 0 <= i < k ==> IsDigit(s[i])
    ensures k < |s| ==> !IsDigit(s[k])
  {
    if |s| == 0 || !IsDigit(s[0]) then 0 else 1 + DigitRun(s[1..])
  }

  /** Reads an unsigned decimal number off the front of `s`, as `%d` would
      scan it back: the longest run of digits, and what follows it. */
  function ParseNat(s: string): (r: Option<(nat, string)>)
    ensures r.Some? <==> |s| > 0 && IsDigit(s[0])
    ensures r.Some? ==> |r.value.1| < |s| && r.value.1 == s[|s| - |r.value.1|..]
  {
    var k := DigitRun(s);
    if k == 0 then None else Some((DecimalValue(s[..k]), s[k..]))
  }

  /** A digit string followed by a non-digit is read back up to exactly
      that non-digit. */
  lemma {:induction false} DigitRunStopsAt(d: string, rest: string)
    requires forall i :: 0 <= i < |d| ==> IsDigit(d[i])
    requires |rest| == 0 || !IsDigit(rest[0])
    ensures DigitRun(d + rest) == |d|
    decreases |d|
  {
    if |d| > 0 {
      assert (d + rest)[1..] == d[1..] + rest;
      DigitRunStopsAt(d[1..], rest);
    }
  }

  /** Printing a number and scanning it back gives the number and leaves
      the text after it untouched. */
  lemma ParseNatOfDecimal(n: nat, rest: string)
    requires |rest| == 0 || !IsDigit(rest[0])
    ensures ParseNat(NatToDecimal(n) + rest) == Some((n, rest))
  {
    var d := NatToDecimal(n);
    DigitRunStopsAt(d, rest);
    assert (d + rest)[..|d|] == d;
    assert (d + rest)[|d|..] == rest;
    DecimalRoundTrip(n);
  }

  /** Strips the literal `lit` off the front of `s`, if it is there. */
  function Expect(s: string, lit: string): (r: Option<string>)
    ensures r.Some? <==> |lit| <= |s| && s[..|lit|] == lit
    ensures r.Some? ==> s == lit + r.value
  {
    if |lit| <= |s| && s[..|lit|] == lit then Some(s[|lit|..]) else None
  }

  /** One piece of a `printf` format: literal text or a `%d` of an
      unsigned value. */
  datatype Slot = Literal(text: string) | Field

  /** The number of `%d` fields in a format. */
  function FieldCount(fmt: seq<Slot>): nat {
    if |fmt| == 0 then 0
    else (if fmt[0].Field? then 1 else 0) + FieldCount(fmt[1..])
  }

  /** `sprintf(buf, fmt, args…)` for a format of literals and `%d`s. */
  function Format(fmt: seq<Slot>, args: seq<nat>): string
    requires |args| == FieldCount(fmt)
    decreases |fmt|
  {
    if |fmt| == 0 then ""
    else if fmt[0].Literal? then fmt[0].text + Format(fmt[1..], args)
    else NatToDecimal(args[0]) + Format(fmt[1..], args[1..])
  }

  /** A format whose every field is followed by a literal that starts with
      a non-digit, so the fields cannot run into each other. */
  predicate Delimited(fmt: seq<Slot>) {
    forall i :: 0 <= i < |fmt| && fmt[i].Field? ==>
      i + 1 < |fmt| && fmt[i + 1].Literal? && |fmt[i + 1].text| > 0 && !IsDigit(fmt[i + 1].text[0])
  }

  /** Reads the values of the fields back out of a formatted string; `None`
      when the text does not have the format's shape. */
  function Scan(fmt: seq<Slot>, s: string): (r: Option<seq<nat>>)
    ensures r.Some? ==> |r.value| == FieldCount(fmt)
    decreases |fmt|
  {
    if |fmt| == 0 then (if |s| == 0 then Some([]) else None)
    else if fmt[0].Literal? then
      match Expect(s, fmt[0].text)
      case None => None
      case Some(rest) => Scan(fmt[1..], rest)
    else
      match ParseNat(s)
      case None => None
      case Some((n, rest)) =>
        match Scan(fmt[1..], rest)
        case None => None
        case Some(ns) => Some([n] + ns)
  }

  lemma DelimitedTail(fmt: seq<Slot>)
    requires |fmt| > 0 && Delimited(fmt)
    ensures Delimited(fmt[1..])
  {
    forall i | 0 <= i < |fmt[1..]| && fmt[1..][i].Field?
      ensures i + 1 < |fmt[1..]| && fmt[1..][i + 1].Literal?
    {
      assert fmt[i + 1].Field?;
    }
  }

  /** A field's text stops where the literal after it begins. */
  lemma FieldThenLiteral(fmt: seq<Slot>, args: seq<nat>)
    requires |fmt| > 0 && fmt[0].Field? && Delimited(fmt)
    requires |args| == FieldCount(fmt)
    ensures ParseNat(Format(fmt, args)) == Some((args[0], Format(fmt[1..], args[1..])))
  {
    var rest := Format(fmt[1..], args[1..]);
    assert fmt[1].Literal? && |fmt[1].text| > 0;
    assert fmt[1..][0] == fmt[1] && fmt[1..][1..] == fmt[2..];
    assert rest == fmt[1].text + Format(fmt[2..], args[1..]);
    assert rest[0] == fmt[1].text[0];
    ParseNatOfDecimal(args[0], rest);
  }

  lemma LiteralStep(fmt: seq<Slot>, args: seq<nat>)
    requires |fmt| > 0 && fmt[0].Literal?
    requires |args| == FieldCount(fmt)
    requires Scan(fmt[1..], Format(fmt[1..], args)) == Some(args)
    ensures Scan(fmt, Format(fmt, args)) == Some(args)
  {
    var rest := Format(fmt[1..], args);
    assert (fmt[0].text + rest)[..|fmt[0].text|] == fmt[0].text;
  }

  lemma FieldStep(fmt: seq<Slot>, args: seq<nat>)
    requires |fmt| > 0 && fmt[0].Field? && Delimited(fmt)
    requires |args| == FieldCount(fmt)
    requires Scan(fmt[1..], Format(fmt[1..], args[1..])) == Some(args[1..])
    ensures Scan(fmt, Format(fmt, args)) == Some(args)
  {
    FieldThenLiteral(fmt, args);
    assert args == [args[0]] + args[1..];
  }

  /** Scanning what `Format` printed recovers the arguments, for every
      delimited format. */
  lemma {:induction false} ScanFormat(fmt: seq<Slot>, args: seq<nat>)
    requires Delimited(fmt)
    requires |args| == FieldCount(fmt)
    ensures Scan(fmt, Format(fmt, args)) == Some(args)
    decreases |fmt|
  {
    if |fmt| > 0 {
      DelimitedTail(fmt);
      if fmt[0].Literal? {
        ScanFormat(fmt[1..], args);
        LiteralStep(fmt, args);
      } else {
        ScanFormat(fmt[1..], args[1..]);
        FieldStep(fmt, args);
      }
    }
  }

  /** A literal prefix followed by one `%d` per separator, each separator
      printed after its field: `lead%d<sep0>%d<sep1>…`. */
  function FieldsSeparatedBy(lead: string, seps: seq<string>): (fmt: seq<Slot>)
    ensures |fmt| == 1 + 2 * |seps|
    ensures fmt[0] == Literal(lead)
  {
    if |seps| == 0 then [Literal(lead)]
    else FieldsSeparatedBy(lead, seps[..|seps| - 1]) + [Field, Literal(seps[|seps| - 1])]
  }

  lemma {:induction false} FieldCountAppend(a: seq<Slot>, b: seq<Slot>)
    ensures FieldCount(a + b) == FieldCount(a) + FieldCount(b)
    decreases |a|
  {
    if |a| > 0 {
      assert (a + b)[0] == a[0];
      assert (a + b)[1..] == a[1..] + b;
      FieldCountAppend(a[1..], b);
    } else {
      assert a + b == b;
    }
  }

  /** Such a format has one field per separator and, when no separator is
      empty or starts with a digit, its fields cannot run together. */
  lemma {:induction false} FieldsSeparatedByFacts(lead: string, seps: seq<string>)
    requires forall i :: 0 <= i < |seps| ==> |seps[i]| > 0 && !IsDigit(seps[i][0])
    ensures FieldCount(FieldsSeparatedBy(lead, seps)) == |seps|
    ensures Delimited(FieldsSeparatedBy(lead, seps))
    decreases |seps|
  {
    if |seps| == 0 {
      var fmt := FieldsSeparatedBy(lead, seps);
      assert fmt == [Literal(lead)] && fmt[1..] == [];
      assert FieldCount(fmt) == 0 + FieldCount(fmt[1..]);
    } else {
      var init := seps[..|seps| - 1];
      var last := seps[|seps| - 1];
      FieldsSeparatedByFacts(lead, init);
      var pair := [Field, Literal(last)];
      FieldCountAppend(FieldsSeparatedBy(lead, init), pair);
      assert pair[1..] == [Literal(last)] && pair[1..][1..] == [];
      assert FieldCount(pair) == 1 + FieldCount(pair[1..]);
      assert FieldCount(pair[1..]) == 0 + FieldCount(pair[1..][1..]);
    }
  }

  /** The text of a format of a leading literal and fields each followed
      by its separator: the lead, then each number in decimal followed by
      its separator. */
  function Joined(lead: string, seps: seq<string>, args: seq<nat>): string
    requires |args| == |seps|
  {
    if |seps| == 0 then lead
    else Joined(lead, seps[..|seps| - 1], args[..|args| - 1]) + NatToDecimal(args[|args| - 1]) + seps[|seps| - 1]
  }

  /** One more field and separator add that number and separator. */
  lemma JoinedStep(lead: string, seps: seq<string>, args: seq<nat>, sep: string, arg: nat)
    requires |args| == |seps|
    ensures Joined(lead, seps + [sep], args + [arg]) == Joined(lead, seps, args) + NatToDecimal(arg) + sep
  {
    assert (seps + [sep])[..|seps|] == seps;
    assert (args + [arg])[..|args|] == args;
  }

  /** Printing two formats one after the other prints each with its own
      share of the arguments. */
  lemma {:induction false} FormatAppend(a: seq<Slot>, b: seq<Slot>, args: seq<nat>)
    requires |args| == FieldCount(a) + FieldCount(b)
    ensures FieldCount(a + b) == FieldCount(a) + FieldCount(b)
    ensures Format(a + b, args) == Format(a, args[..FieldCount(a)]) + Format(b, args[FieldCount(a)..])
    decreases |a|
  {
    FieldCountAppend(a, b);
    if |a| == 0 {
      assert a + b == b && args[0..] == args;
    } else {
      FieldCountAppend(a[1..], b);
      assert (a + b)[1..] == a[1..] + b;
      if a[0].Literal? {
        FormatAppend(a[1..], b, args);
        AppendLiteralStep(a, b, args);
      } else {
        var k := FieldCount(a[1..]);
        FormatAppend(a[1..], b, args[1..]);
        assert args[1..][..k] == args[1..k + 1] && args[1..][k..] == args[k + 1..];
        AppendFieldStep(a, b, args, k);
      }
    }
  }

  lemma AppendLiteralStep(a: seq<Slot>, b: seq<Slot>, args: seq<nat>)
    requires |a| > 0 && a[0].Literal?
    requires FieldCount(a[1..] + b) == FieldCount(a[1..]) + FieldCount(b) == |args|
    requires (a + b)[1..] == a[1..] + b
    requires Format(a[1..] + b, args) == Format(a[1..], args[..FieldCount(a[1..])]) + Format(b, args[FieldCount(a[1..])..])
    ensures FieldCount(a) == FieldCount(a[1..]) && FieldCount(a + b) == |args|
    ensures Format(a + b, args) == Format(a, args[..FieldCount(a)]) + Format(b, args[FieldCount(a)..])
  {
    assert (a + b)[0] == a[0];
  }

  lemma AppendFieldStep(a: seq<Slot>, b: seq<Slot>, args: seq<nat>, k: nat)
    requires |a| > 0 && a[0].Field? && k + 1 <= |args|
    requires FieldCount(a) == k + 1 && FieldCount(a[1..]) == k
    requires FieldCount(a + b) == |args| && FieldCount(a[1..] + b) == |args| - 1
    requires FieldCount(b) == |args| - (k + 1)
    requires (a + b)[1..] == a[1..] + b
    requires Format(a[1..] + b, args[1..]) == Format(a[1..], args[1..k + 1]) + Format(b, args[k + 1..])
    ensures Format(a + b, args) == Format(a, args[..k + 1]) + Format(b, args[k + 1..])
  {
    assert (a + b)[0] == a[0];
    assert args[..k + 1][0] == args[0] && args[..k + 1][1..] == args[1..k + 1];
  }

  /** A separated field list prints as its lead, then each number in
      decimal followed by its separator. */
  lemma {:induction false} FormatSeparated(lead: string, seps: seq<string>, args: seq<nat>)
    requires forall i :: 0 <= i < |seps| ==> |seps[i]| > 0 && !IsDigit(seps[i][0])
    requires |args| == |seps|
    ensures FieldCount(FieldsSeparatedBy(lead, seps)) == |seps|
    ensures Format(FieldsSeparatedBy(lead, seps), args) == Joined(lead, seps, args)
    decreases |seps|
  {
    FieldsSeparatedByFacts(lead, seps);
    if |seps| == 0 {
      var fmt := FieldsSeparatedBy(lead, seps);
      assert fmt == [Literal(lead)] && fmt[1..] == [];
    } else {
      var n := |seps| - 1;
      var init, last := seps[..n], seps[n];
      var a := FieldsSeparatedBy(lead, init);
      var b := [Field, Literal(last)];
      FieldsSeparatedByFacts(lead, init);
      FormatSeparated(lead, init, args[..n]);
      assert b[1..] == [Literal(last)] && b[1..][1..] == [];
      assert FieldCount(b[1..]) == 0 + FieldCount(b[1..][1..]);
      assert FieldCount(b) == 1 + FieldCount(b[1..]);
      FormatAppend(a, b, args);
      var tail := args[n..];
      assert tail == [args[n]] && tail[1..] == [];
      assert Format(b[1..], tail[1..]) == last;
      assert Format(b, tail) == NatToDecimal(args[n]) + last;
    }
  }
}

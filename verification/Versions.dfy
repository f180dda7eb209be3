/** Release tags and crash-record names: the parsers accept exactly what the printers produce. */
module Versions {
  const MAX32: nat := 0xFFFF_FFFF
  const MAX64: nat := 0xFFFF_FFFF_FFFF_FFFF

  datatype Option<T> = None | Some(value: T)
  datatype Parsed = Parsed(number: nat, rest: string)
  datatype Version = Version(major: nat, minor: nat, patch: nat, build: nat)

  // ----- decimal numbers -----

  predicate Digit(c: char) { '0' <= c <= '9' }

  function DigitValue(c: char): nat
    requires Digit(c)
  {
    (c as int) - ('0' as int)
  }

  function DigitOf(d: nat): char
    requires d < 10
  {
    (('0' as int) + d) as char
  }

  /** Canonical decimal notation. */
  function Decimal(n: nat): string {
    if n < 10 then [DigitOf(n)] else Decimal(n / 10) + [DigitOf(n % 10)]
  }

  predicate AllDigits(s: string) { forall k | 0 <= k < |s| :: Digit(s[k]) }

  function ValueOf(s: string): nat
    requires AllDigits(s)
  {
    if s == "" then 0 else 10 * ValueOf(s[..|s| - 1]) + DigitValue(s[|s| - 1])
  }

  predicate Canonical(s: string) { s != "" && AllDigits(s) && (|s| > 1 ==> s[0] != '0') }

  lemma {:induction false} DecimalCanonical(n: nat)
    ensures Canonical(Decimal(n)) && ValueOf(Decimal(n)) == n && (n > 0 ==> Decimal(n)[0] != '0')
    decreases n
  {
    if n >= 10 {
      DecimalCanonical(n / 10);
      var d := Decimal(n);
      assert d[..|d| - 1] == Decimal(n / 10) && d[|d| - 1] == DigitOf(n % 10);
      assert forall k | 0 <= k < |d| - 1 :: d[k] == Decimal(n / 10)[k];
    }
  }

  lemma {:induction false} CanonicalDecimal(s: string)
    requires Canonical(s)
    ensures Decimal(ValueOf(s)) == s && (s[0] != '0' ==> ValueOf(s) > 0)
    decreases |s|
  {
    var n := |s| - 1;
    if n == 0 {
      assert s[..0] == "";
      assert s == [s[0]];
    } else {
      CanonicalDecimal(s[..n]);
      assert s == s[..n] + [s[n]];
    }
  }

  /** Length of the leading digit run. */
  function RunLength(s: string): (n: nat)
    ensures n <= |s| && AllDigits(s[..n]) && (n < |s| ==> !Digit(s[n]))
  {
    if s == "" || !Digit(s[0]) then 0
    else
      var n := 1 + RunLength(s[1..]);
      assert s[..n] == [s[0]] + s[1..][..n - 1];
      n
  }

  lemma {:induction false} RunLengthIs(s: string, n: nat)
    requires n <= |s| && AllDigits(s[..n]) && (n < |s| ==> !Digit(s[n]))
    ensures RunLength(s) == n
    decreases n
  {
    if n > 0 {
      assert s[..n][0] == s[0] && s[1..][..n - 1] == s[..n][1..];
      RunLengthIs(s[1..], n - 1);
    }
  }

  /** A canonical number up to `maximum` at the front. */
  function NumberAt(s: string, maximum: nat): Option<Parsed> {
    var n := RunLength(s);
    if Canonical(s[..n]) && ValueOf(s[..n]) <= maximum then Some(Parsed(ValueOf(s[..n]), s[n..])) else None
  }

  predicate NoDigitFirst(s: string) { s == "" || !Digit(s[0]) }

  lemma NumberPrinted(n: nat, rest: string, maximum: nat)
    requires n <= maximum && NoDigitFirst(rest)
    ensures NumberAt(Decimal(n) + rest, maximum) == Some(Parsed(n, rest))
  {
    var s, d := Decimal(n) + rest, Decimal(n);
    DecimalCanonical(n);
    assert s[..|d|] == d && s[|d|..] == rest;
    RunLengthIs(s, |d|);
  }

  lemma NumberIsPrinted(s: string, maximum: nat)
    requires NumberAt(s, maximum).Some?
    ensures var p := NumberAt(s, maximum).value;
            s == Decimal(p.number) + p.rest && p.number <= maximum && NoDigitFirst(p.rest)
  {
    var n := RunLength(s);
    CanonicalDecimal(s[..n]);
  }

  /** A prefix of a digit run is worth no more than the run. */
  lemma {:induction false} PrefixValue(s: string, k: nat)
    requires AllDigits(s) && k <= |s|
    ensures ValueOf(s[..k]) <= ValueOf(s)
    decreases |s|
  {
    if k < |s| {
      PrefixValue(s[..|s| - 1], k);
      assert s[..|s| - 1][..k] == s[..k];
    } else {
      assert s[..k] == s;
    }
  }

  // ----- release tags -----

  const BUILD: string := "-build."

  predicate Valid32(v: Version) { v.major <= MAX32 && v.minor <= MAX32 && v.patch <= MAX32 && v.build <= MAX32 }

  function Tag(v: Version): string {
    "v" + (Decimal(v.major) + ("." + (Decimal(v.minor) + ("." + (Decimal(v.patch) + (BUILD + Decimal(v.build)))))))
  }

  /** What follows the literal, if the string starts with it. */
  function After(s: string, literal: string): Option<string> {
    if |s| >= |literal| && s[..|literal|] == literal then Some(s[|literal|..]) else None
  }

  function NumberThen(s: string, literal: string): Option<Parsed> {
    var n := NumberAt(s, MAX32);
    if n.None? then None
    else
      var rest := After(n.value.rest, literal);
      if rest.None? then None else Some(Parsed(n.value.number, rest.value))
  }

  /** The tag grammar, front to back. */
  function ParseTag(s: string): Option<Version> {
    var start := After(s, "v");
    if start.None? then None
    else
      var a := NumberThen(start.value, ".");
      if a.None? then None
      else
        var b := NumberThen(a.value.rest, ".");
        if b.None? then None
        else
          var c := NumberThen(b.value.rest, BUILD);
          if c.None? then None
          else
            var d := NumberAt(c.value.rest, MAX32);
            if d.None? || d.value.rest != "" then None
            else Some(Version(a.value.number, b.value.number, c.value.number, d.value.number))
  }

  lemma AfterPrinted(literal: string, rest: string)
    ensures After(literal + rest, literal) == Some(rest)
  {
    assert (literal + rest)[..|literal|] == literal && (literal + rest)[|literal|..] == rest;
  }

  lemma AfterIsPrinted(s: string, literal: string)
    requires After(s, literal).Some?
    ensures s == literal + After(s, literal).value
  {
  }

  lemma NumberThenPrinted(n: nat, literal: string, rest: string)
    requires n <= MAX32 && literal != "" && !Digit(literal[0])
    ensures NumberThen(Decimal(n) + (literal + rest), literal) == Some(Parsed(n, rest))
  {
    NumberPrinted(n, literal + rest, MAX32);
    AfterPrinted(literal, rest);
  }

  lemma NumberThenIsPrinted(s: string, literal: string)
    requires NumberThen(s, literal).Some?
    ensures var p := NumberThen(s, literal).value; s == Decimal(p.number) + (literal + p.rest) && p.number <= MAX32
  {
    NumberIsPrinted(s, MAX32);
    AfterIsPrinted(NumberAt(s, MAX32).value.rest, literal);
  }

  /** Parsing a printed tag gives its numbers back. */
  lemma TagParses(v: Version)
    requires Valid32(v)
    ensures ParseTag(Tag(v)) == Some(v)
  {
    hide NumberThen, After, NumberAt, Decimal;
    var s3 := Decimal(v.patch) + (BUILD + Decimal(v.build));
    var s2 := Decimal(v.minor) + ("." + s3);
    var s1 := Decimal(v.major) + ("." + s2);
    AfterPrinted("v", s1);
    NumberThenPrinted(v.major, ".", s2);
    NumberThenPrinted(v.minor, ".", s3);
    NumberThenPrinted(v.patch, BUILD, Decimal(v.build));
    NumberPrinted(v.build, "", MAX32);
    assert Decimal(v.build) + "" == Decimal(v.build);
  }

  /** Every accepted tag is the printed form of what it parses to. */
  lemma ParsedIsTag(s: string)
    requires ParseTag(s).Some?
    ensures Valid32(ParseTag(s).value) && s == Tag(ParseTag(s).value)
  {
    hide NumberThen, After, NumberAt, Decimal;
    AfterIsPrinted(s, "v");
    var s1 := After(s, "v").value;
    NumberThenIsPrinted(s1, ".");
    var s2 := NumberThen(s1, ".").value.rest;
    NumberThenIsPrinted(s2, ".");
    var s3 := NumberThen(s2, ".").value.rest;
    NumberThenIsPrinted(s3, BUILD);
    var s4 := NumberThen(s3, BUILD).value.rest;
    NumberIsPrinted(s4, MAX32);
    assert Decimal(NumberAt(s4, MAX32).value.number) + "" == Decimal(NumberAt(s4, MAX32).value.number);
  }

  lemma {:induction false} DecimalLength(n: nat, digits: nat, limit: nat)
    requires n < limit && digits > 0 && limit == Power10(digits)
    ensures |Decimal(n)| <= digits
    decreases digits
  {
    if n >= 10 { DecimalLength(n / 10, digits - 1, limit / 10); }
  }

  function Power10(n: nat): nat { if n == 0 then 1 else 10 * Power10(n - 1) }

  /** No printed tag reaches the 64-character limit. */
  lemma TagIsShort(v: Version)
    requires Valid32(v)
    ensures |Tag(v)| <= 50
  {
    assert Power10(10) == 10000000000 by {
      assert Power10(5) == 100000;
    }
    DecimalLength(v.major, 10, 10000000000);
    DecimalLength(v.minor, 10, 10000000000);
    DecimalLength(v.patch, 10, 10000000000);
    DecimalLength(v.build, 10, 10000000000);
  }

  /** One more digit of the run that starts at `pos`. */
  lemma DigitStep(text: string, pos: nat, end: nat)
    requires pos <= end < |text| && Digit(text[end]) && end - pos <= RunLength(text[pos..]) && AllDigits(text[pos..end])
    ensures end + 1 - pos <= RunLength(text[pos..]) && AllDigits(text[pos..end + 1])
    ensures ValueOf(text[pos..end + 1]) == 10 * ValueOf(text[pos..end]) + DigitValue(text[end])
    ensures ValueOf(text[pos..end + 1]) <= ValueOf(text[pos..][..RunLength(text[pos..])])
  {
    var s, k := text[pos..], end - pos;
    assert s[k] == text[end];
    assert text[pos..end + 1] == text[pos..end] + [text[end]];
    assert text[pos..end + 1][..k] == text[pos..end];
    assert k != RunLength(s);
    PrefixValue(s[..RunLength(s)], k + 1);
    assert s[..RunLength(s)][..k + 1] == text[pos..end + 1];
  }

  /** Where the digits stop, the run is complete. */
  lemma RunEnds(text: string, pos: nat, end: nat)
    requires pos <= end <= |text| && AllDigits(text[pos..end]) && (end < |text| ==> !Digit(text[end]))
    ensures RunLength(text[pos..]) == end - pos && text[pos..][..end - pos] == text[pos..end] && text[pos..][end - pos..] == text[end..]
  {
    var s := text[pos..];
    assert s[..end - pos] == text[pos..end];
    assert end < |text| ==> s[end - pos] == text[end];
    RunLengthIs(s, end - pos);
  }

  /** The tag parser's number: stops early past 32 bits; nothing overflows 64 bits on the way. */
  method ReadNumber(tag: string, pos: nat) returns (ok: bool, n: nat, end: nat)
    requires pos <= |tag|
    ensures pos <= end <= |tag|
    ensures ok <==> NumberAt(tag[pos..], MAX32).Some?
    ensures ok ==> NumberAt(tag[pos..], MAX32) == Some(Parsed(n, tag[end..]))
  {
    hide RunLength, ValueOf;
    n, end := 0, pos;
    EmptyRun(tag, pos);
    while end < |tag| && Digit(tag[end])
      invariant pos <= end <= |tag| && end - pos <= RunLength(tag[pos..]) && AllDigits(tag[pos..end]) && n == ValueOf(tag[pos..end]) <= MAX32
    {
      DigitStep(tag, pos, end);
      assert n * 10 + DigitValue(tag[end]) <= MAX64;
      n := n * 10 + DigitValue(tag[end]);
      end := end + 1;
      if n > MAX32 { return false, n, end; }
    }
    RunEnds(tag, pos, end);
    ok := end != pos && !(end - pos > 1 && tag[pos] == '0');
  }

  lemma EmptyRun(text: string, pos: nat)
    requires pos <= |text|
    ensures text[pos..pos] == "" && ValueOf(text[pos..pos]) == 0
  {
  }

  method ParseUpdateVersion(tag: string) returns (ok: bool, value: Version)
    ensures ok <==> exists v :: Valid32(v) && tag == Tag(v)
    ensures ok ==> Valid32(value) && tag == Tag(value)
  {
    hide ParseTag, Tag;
    forall v | Valid32(v) && tag == Tag(v) ensures ParseTag(tag) == Some(v) && |tag| <= 50 {
      TagParses(v);
      TagIsShort(v);
    }
    if ParseTag(tag).Some? { ParsedIsTag(tag); }
    if |tag| > 64 { return false, Version(0, 0, 0, 0); }
    ok, value := ParseParts(tag);
  }

  /** A number and the literal after it. */
  method ReadThen(tag: string, pos: nat, literal: string) returns (ok: bool, n: nat, end: nat)
    requires pos <= |tag|
    ensures pos <= end <= |tag|
    ensures ok <==> NumberThen(tag[pos..], literal).Some?
    ensures ok ==> NumberThen(tag[pos..], literal) == Some(Parsed(n, tag[end..]))
  {
    hide NumberAt;
    ok, n, end := ReadNumber(tag, pos);
    if !ok { return; }
    if end + |literal| > |tag| || tag[end..end + |literal|] != literal {
      assert end + |literal| <= |tag| ==> tag[end..][..|literal|] == tag[end..end + |literal|];
      return false, n, end;
    }
    LiteralAt(tag, end, literal);
    end := end + |literal|;
  }

  method ParseParts(tag: string) returns (ok: bool, value: Version)
    ensures ok <==> ParseTag(tag).Some?
    ensures ok ==> ParseTag(tag) == Some(value)
  {
    hide NumberAt, NumberThen, Decimal;
    ok, value := false, Version(0, 0, 0, 0);
    if |tag| == 0 || tag[0] != 'v' { return; }
    assert tag[..1] == "v";
    var parsed, a, b, c, d, pos;
    parsed, a, pos := ReadThen(tag, 1, ".");
    if !parsed { return; }
    parsed, b, pos := ReadThen(tag, pos, ".");
    if !parsed { return; }
    parsed, c, pos := ReadThen(tag, pos, BUILD);
    if !parsed { return; }
    parsed, d, pos := ReadNumber(tag, pos);
    if !parsed || pos != |tag| { return; }
    ok, value := true, Version(a, b, c, d);
  }

  lemma LiteralAt(tag: string, pos: nat, literal: string)
    requires pos + |literal| <= |tag| && forall k | 0 <= k < |literal| :: tag[pos + k] == literal[k]
    ensures After(tag[pos..], literal) == Some(tag[pos + |literal|..])
  {
    assert tag[pos..][..|literal|] == literal;
    assert tag[pos..][|literal|..] == tag[pos + |literal|..];
  }

  // ----- ordering -----

  predicate NewerUpdate(candidate: Version, current: Version) {
    || candidate.major > current.major
    || (candidate.major == current.major && (
         || candidate.minor > current.minor
         || (candidate.minor == current.minor && (
              || candidate.patch > current.patch
              || (candidate.patch == current.patch && candidate.build > current.build)))))
  }

  /** One number whose order is the update order of 32-bit versions. */
  function Rank(v: Version): nat {
    ((v.major * (MAX32 + 1) + v.minor) * (MAX32 + 1) + v.patch) * (MAX32 + 1) + v.build
  }

  lemma NewerIsRank(a: Version, b: Version)
    requires Valid32(a) && Valid32(b)
    ensures NewerUpdate(a, b) <==> Rank(a) > Rank(b)
  {
    var m := MAX32 + 1;
    var a1, b1 := a.major * m + a.minor, b.major * m + b.minor;
    Digits(a.major, a.minor, b.major, b.minor);
    Digits(a1, a.patch, b1, b.patch);
    Digits(a1 * m + a.patch, a.build, b1 * m + b.patch, b.build);
  }

  lemma Digits(a: nat, x: nat, b: nat, y: nat)
    requires x <= MAX32 && y <= MAX32
    ensures a * (MAX32 + 1) + x > b * (MAX32 + 1) + y <==> a > b || (a == b && x > y)
    ensures a * (MAX32 + 1) + x == b * (MAX32 + 1) + y <==> a == b && x == y
  {
  }

  /** A strict total order: irreflexive, transitive, and any two different versions compare. */
  lemma StrictTotalOrder(a: Version, b: Version, c: Version)
    ensures !NewerUpdate(a, a)
    ensures NewerUpdate(a, b) && NewerUpdate(b, c) ==> NewerUpdate(a, c)
    ensures a != b ==> (NewerUpdate(a, b) <==> !NewerUpdate(b, a))
  {
  }

  // ----- crash-record names -----

  const PREFIX: string := "renderer-fault-"

  function RecordName(process: nat, ticks: nat): string {
    PREFIX + (Decimal(process) + ("-" + (Decimal(ticks) + ("." + "bin"))))
  }

  /** The record parser's number: canonical, within `maximum`, followed by the separator. */
  method ReadField(name: string, pos: nat, maximum: nat, separator: char, positive: bool) returns (ok: bool, value: nat, end: nat)
    requires pos <= |name| && 9 <= maximum && !Digit(separator)
    ensures pos <= end <= |name|
    ensures ok <==> FieldAt(name[pos..], maximum, separator, positive).Some?
    ensures ok ==> FieldAt(name[pos..], maximum, separator, positive) == Some(Parsed(value, name[end..]))
  {
    hide RunLength, ValueOf, After;
    value, end := 0, pos;
    if pos == |name| || !Digit(name[pos]) || (name[pos] == '0' && pos + 1 < |name| && Digit(name[pos + 1])) {
      RefusedAtOnce(name, pos, maximum);
      return false, value, end;
    }
    EmptyRun(name, pos);
    while end < |name| && Digit(name[end])
      invariant pos <= end <= |name| && end - pos <= RunLength(name[pos..]) && AllDigits(name[pos..end]) && value == ValueOf(name[pos..end]) <= maximum
      decreases |name| - end
    {
      DigitStep(name, pos, end);
      var digit := DigitValue(name[end]);
      if value > (maximum - digit) / 10 {
        TooBig(value, digit, maximum);
        return false, value, end;
      }
      Fits(value, digit, maximum);
      value := value * 10 + digit;
      end := end + 1;
    }
    RunEnds(name, pos, end);
    Separated(name, end, separator);
    if (positive && value == 0) || end == |name| || name[end] != separator { return false, value, end; }
    ok, end := true, end + 1;
  }

  lemma Separated(name: string, end: nat, separator: char)
    requires end <= |name|
    ensures After(name[end..], [separator]) == if end < |name| && name[end] == separator then Some(name[end + 1..]) else None
  {
    if end < |name| {
      assert name[end..][..1] == [name[end]] && name[end..][1..] == name[end + 1..];
    }
  }

  lemma Fits(value: nat, digit: nat, maximum: nat)
    requires digit < 10 <= maximum + 1 && value <= (maximum - digit) / 10
    ensures value * 10 + digit <= maximum
  {
  }

  lemma TooBig(value: nat, digit: nat, maximum: nat)
    requires digit < 10 <= maximum + 1 && value > (maximum - digit) / 10
    ensures value * 10 + digit > maximum
  {
  }

  function FieldAt(s: string, maximum: nat, separator: char, positive: bool): Option<Parsed> {
    var n := NumberAt(s, maximum);
    if n.None? || (positive && n.value.number == 0) then None
    else
      var rest := After(n.value.rest, [separator]);
      if rest.None? then None else Some(Parsed(n.value.number, rest.value))
  }

  lemma RefusedAtOnce(name: string, pos: nat, maximum: nat)
    requires pos <= |name|
    requires pos == |name| || !Digit(name[pos]) || (name[pos] == '0' && pos + 1 < |name| && Digit(name[pos + 1]))
    ensures NumberAt(name[pos..], maximum).None?
  {
    var s := name[pos..];
    if s != "" && Digit(s[0]) {
      assert s[0] == '0' && Digit(s[1]);
      assert RunLength(s) == 1 + RunLength(s[1..]) && RunLength(s[1..]) >= 1;
      assert s[..RunLength(s)][0] == '0';
    }
  }

  function ParseRecord(name: string): Option<(nat, nat)> {
    var start := After(name, PREFIX);
    if start.None? then None
    else
      var process := FieldAt(start.value, MAX32, '-', true);
      if process.None? then None
      else
        var ticks := FieldAt(process.value.rest, MAX64, '.', false);
        if ticks.None? || ticks.value.rest != "bin" then None else Some((process.value.number, ticks.value.number))
  }

  lemma FieldPrinted(n: nat, rest: string, maximum: nat, separator: char, positive: bool)
    requires n <= maximum && (positive ==> n > 0) && !Digit(separator)
    ensures FieldAt(Decimal(n) + ([separator] + rest), maximum, separator, positive) == Some(Parsed(n, rest))
  {
    NumberPrinted(n, [separator] + rest, maximum);
    AfterPrinted([separator], rest);
  }

  lemma FieldIsPrinted(s: string, maximum: nat, separator: char, positive: bool)
    requires FieldAt(s, maximum, separator, positive).Some?
    ensures var p := FieldAt(s, maximum, separator, positive).value;
            s == Decimal(p.number) + ([separator] + p.rest) && p.number <= maximum && (positive ==> p.number > 0)
  {
    NumberIsPrinted(s, maximum);
    AfterIsPrinted(NumberAt(s, maximum).value.rest, [separator]);
  }

  lemma RecordParses(process: nat, ticks: nat)
    requires 0 < process <= MAX32 && ticks <= MAX64
    ensures ParseRecord(RecordName(process, ticks)) == Some((process, ticks))
  {
    hide FieldAt, After, Decimal;
    var s2 := Decimal(ticks) + ("." + "bin");
    var s1 := Decimal(process) + ("-" + s2);
    AfterPrinted(PREFIX, s1);
    FieldPrinted(process, s2, MAX32, '-', true);
    FieldPrinted(ticks, "bin", MAX64, '.', false);
  }

  lemma ParsedIsRecord(name: string)
    requires ParseRecord(name).Some?
    ensures var (process, ticks) := ParseRecord(name).value;
            0 < process <= MAX32 && ticks <= MAX64 && name == RecordName(process, ticks)
  {
    hide FieldAt, After, Decimal;
    AfterIsPrinted(name, PREFIX);
    var s1 := After(name, PREFIX).value;
    FieldIsPrinted(s1, MAX32, '-', true);
    var s2 := FieldAt(s1, MAX32, '-', true).value.rest;
    FieldIsPrinted(s2, MAX64, '.', false);
  }

  /** Accepts exactly the names the record printer produces for a positive 32-bit process and 64-bit ticks. */
  method RecordFilename(name: string) returns (ok: bool)
    ensures ok <==> exists process: nat, ticks: nat :: 0 < process <= MAX32 && ticks <= MAX64 && name == RecordName(process, ticks)
  {
    hide FieldAt, After, RecordName;
    forall process: nat, ticks: nat | 0 < process <= MAX32 && ticks <= MAX64 && name == RecordName(process, ticks)
      ensures ParseRecord(name) == Some((process, ticks))
    {
      RecordParses(process, ticks);
    }
    if ParseRecord(name).Some? { ParsedIsRecord(name); }
    ok := PrefixThenFields(name);
  }

  method PrefixThenFields(name: string) returns (ok: bool)
    ensures ok <==> ParseRecord(name).Some?
  {
    hide FieldAt;
    if |name| < |PREFIX| || name[..|PREFIX|] != PREFIX { return false; }
    var first, process, pos := ReadField(name, |PREFIX|, MAX32, '-', true);
    if !first { return false; }
    var second, ticks, end := ReadField(name, pos, MAX64, '.', false);
    return second && name[end..] == "bin";
  }
}

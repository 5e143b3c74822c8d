/** Setting and printing fail points (kern_fail.c). A pointer into a C string
    is the sequence of the characters from there to the terminating NUL, so
    that p++ drops the first one. */
module FailPoint {
  import opened Common

  const PROB_MAX: nat := 1000000
  const NO_PID: nat := 100000

  datatype Type = Off | Panic | Return | Break | Print | Sleep

  datatype Entry = Entry(ty: Type, arg: int, prob: nat, count: nat, pid: int)

  function Name(ty: Type): string {
    match ty
    case Off => "off"
    case Panic => "panic"
    case Return => "return"
    case Break => "break"
    case Print => "print"
    case Sleep => "sleep"
  }

  /** The character a pointer sees; NUL at the end of the string. */
  function Head(s: string): char {
    if s == "" then '\0' else s[0]
  }

  predicate StartsWith(s: string, t: string) {
    |t| <= |s| && s[..|t|] == t
  }

  // ---------------------------------------------------------------- numbers

  predicate IsDigit(c: char) {
    '0' <= c <= '9'
  }

  /** The value of a digit in bases up to 16; 16 for any other character. */
  function DigitOf(c: char): nat {
    if '0' <= c <= '9' then c as int - '0' as int
    else if 'a' <= c <= 'f' then c as int - 'a' as int + 10
    else if 'A' <= c <= 'F' then c as int - 'A' as int + 10
    else 16
  }

  /** How many digits of the base the string begins with. */
  function Span(s: string, base: nat): (n: nat)
    requires base <= 16
    ensures n <= |s| && (n < |s| ==> DigitOf(s[n]) >= base)
    ensures forall i :: 0 <= i < n ==> DigitOf(s[i]) < base
  {
    if s == "" || DigitOf(s[0]) >= base then 0 else 1 + Span(s[1..], base)
  }

  function Val(s: string, base: nat): nat {
    if s == "" then 0 else Val(s[..|s| - 1], base) * base + DigitOf(s[|s| - 1])
  }

  /** strtol without the overflow: in base 10 on a string that begins with
      neither white space nor a sign, ... */
  function Strtol10(s: string): (nat, string) {
    (Val(s[..Span(s, 10)], 10), s[Span(s, 10)..])
  }

  /** The digits strtol reads in base 0: how many, their value, what follows. */
  function Magnitude(t: string): (nat, nat, string) {
    var (base, u) :=
      if |t| > 2 && t[0] == '0' && (t[1] == 'x' || t[1] == 'X') && DigitOf(t[2]) < 16 then (16, t[2..])
      else if Head(t) == '0' then (8, t) else (10, t);
    (Span(u, base), Val(u[..Span(u, base)], base), u[Span(u, base)..])
  }

  /** ... and in base 0 on a string that begins with a digit or a minus sign. */
  function Strtol0(s: string): (int, string) {
    var (n, v, rest) := Magnitude(if Head(s) == '-' then s[1..] else s);
    if n == 0 then (0, s) else (if Head(s) == '-' then -(v as int) else v, rest)
  }

  /** The digits after the point in ten-thousandths of a percent: four count,
      the fifth rounds. */
  function FractionOf(ds: string): nat {
    if |ds| <= 4 then Val(ds, 10) * Power10(4 - |ds|)
    else Val(ds[..4], 10) + if ds[4] >= '5' then 1 else 0
  }

  function Power10(n: nat): nat {
    if n == 0 then 1 else 10 * Power10(n - 1)
  }

  /** That is the fraction in ten-thousandths: exact up to four digits, and to the
      nearest, halves upwards, by the first five of more. */
  lemma FractionRounds(ds: string)
    requires forall i :: 0 <= i < |ds| ==> IsDigit(ds[i])
    ensures |ds| <= 4 ==> FractionOf(ds) * Power10(|ds|) == Val(ds, 10) * 10000
    ensures |ds| > 4 ==> 10 * FractionOf(ds) - 5 <= Val(ds[..5], 10) < 10 * FractionOf(ds) + 5
  {
    if |ds| > 4 {
      assert ds[..5][..4] == ds[..4] && ds[..5][4] == ds[4];
    } else {
      assert Power10(4 - |ds|) * Power10(|ds|) == 10000 by {
        assert Power10(1) == 10 && Power10(2) == 100 && Power10(3) == 1000 && Power10(4) == 10000;
      }
      var a, b, c := Val(ds, 10), Power10(4 - |ds|), Power10(|ds|);
      assert a * b * c == a * (b * c);
    }
  }

  // ---------------------------------------------------------------- the grammar

  /** parse_number: units, decimals and the rest of the string. */
  function ParseNumber(s: string): Option<(nat, nat, string)> {
    var (units, t) := Strtol10(s);
    if Span(s, 10) == 0 && Head(s) != '.' then None
    else if Head(t) == '.' then
      var n := Span(t[1..], 10);
      if n == 0 then None else Some((units, FractionOf(t[1..][..n]), t[1..][n..]))
    else Some((units, 0, t))
  }

  function Min(a: nat, b: nat): nat {
    if a <= b then a else b
  }

  /** What one "<number>%" or "<number>*" does to the entry. */
  function ParsePrefix(e: Entry, s: string): Option<(Entry, string)> {
    match ParseNumber(s)
    case None => None
    case Some((units, decimal, t)) =>
      if Head(t) == '%' then
        Some((e.(prob := Min(Min(units, 100) * 10000 + decimal, PROB_MAX)), t[1..]))
      else if Head(t) == '*' then
        if units == 0 || decimal != 0 then None else Some((e.(count := units), t[1..]))
      else None
  }

  lemma PrefixShorter(e: Entry, s: string)
    ensures ParsePrefix(e, s).Some? ==> |ParsePrefix(e, s).value.1| < |s|
  {
  }

  function ParsePrefixes(e: Entry, s: string): Option<(Entry, string)>
    decreases |s|
  {
    if IsDigit(Head(s)) || Head(s) == '.' then
      match ParsePrefix(e, s)
      case None => None
      case Some((f, t)) =>
        PrefixShorter(e, s);
        ParsePrefixes(f, t)
    else Some((e, s))
  }

  /** parse_type: the first name in the order of the enumeration that fits. */
  function ParseType(s: string): Option<(Type, string)> {
    if StartsWith(s, "off") then Some((Off, s[3..]))
    else if StartsWith(s, "panic") then Some((Panic, s[5..]))
    else if StartsWith(s, "return") then Some((Return, s[6..]))
    else if StartsWith(s, "break") then Some((Break, s[5..]))
    else if StartsWith(s, "print") then Some((Print, s[5..]))
    else if StartsWith(s, "sleep") then Some((Sleep, s[5..]))
    else None
  }

  /** The optional argument and, after an argument only, the optional pid. */
  function ParseSuffix(e: Entry, s: string): Option<(Entry, string)> {
    if Head(s) != '(' then Some((e, s))
    else if !IsDigit(Head(s[1..])) && Head(s[1..]) != '-' then None
    else
      var (arg, t) := Strtol0(s[1..]);
      if Head(t) != ')' then None else ParsePid(e.(arg := arg), t[1..])
  }

  function ParsePid(e: Entry, s: string): Option<(Entry, string)> {
    if !StartsWith(s, "[pid ") then Some((e, s))
    else if !IsDigit(Head(s[5..])) then None
    else
      var (pid, t) := Strtol0(s[5..]);
      if Head(t) != ']' then None else Some((e.(pid := pid), t[1..]))
  }

  const FRESH: Entry := Entry(Off, 0, PROB_MAX, 0, NO_PID)

  function ParseTerm(s: string): Option<(Entry, string)> {
    match ParsePrefixes(FRESH, s)
    case None => None
    case Some((e, t)) =>
      match ParseType(t)
      case None => None
      case Some((ty, u)) => ParseSuffix(e.(ty := ty), u)
  }

  /** parse_fail_point: terms separated by arrows. */
  function ParseList(s: string): Option<seq<Entry>>
    decreases |s|
  {
    match ParseTerm(s)
    case None => None
    case Some((e, t)) =>
      TermShorter(s);
      if t == "" then Some([e])
      else if StartsWith(t, "->") then
        match ParseList(t[2..])
        case None => None
        case Some(es) => Some([e] + es)
      else None
  }

  lemma {:induction false} PrefixesNoLonger(e: Entry, s: string)
    ensures ParsePrefixes(e, s).Some? ==> |ParsePrefixes(e, s).value.1| <= |s|
    decreases |s|
  {
    if IsDigit(Head(s)) || Head(s) == '.' {
      PrefixShorter(e, s);
      if ParsePrefix(e, s).Some? {
        PrefixesNoLonger(ParsePrefix(e, s).value.0, ParsePrefix(e, s).value.1);
      }
    }
  }

  lemma TermShorter(s: string)
    ensures ParseTerm(s).Some? ==> |ParseTerm(s).value.1| < |s|
  {
    PrefixesNoLonger(FRESH, s);
  }

  /** What fail_point_set keeps: no entry that never fires, no "off" at the end. */
  function Settled(es: seq<Entry>): seq<Entry> {
    NoTrailingOff(Firing(es))
  }

  function Firing(es: seq<Entry>): seq<Entry> {
    if es == [] then [] else if es[0].prob == 0 then Firing(es[1..]) else [es[0]] + Firing(es[1..])
  }

  function NoTrailingOff(es: seq<Entry>): seq<Entry> {
    if es != [] && es[|es| - 1].ty == Off then NoTrailingOff(es[..|es| - 1]) else es
  }

  /** What is dropped at the end are "off" entries, and what is left does not end
      in one. */
  lemma {:induction false} TrailingOffs(es: seq<Entry>)
    ensures var r := NoTrailingOff(es);
            && r <= es && (forall i :: |r| <= i < |es| ==> es[i].ty == Off)
            && (r != [] ==> r[|r| - 1].ty != Off)
  {
    if es != [] && es[|es| - 1].ty == Off {
      TrailingOffs(es[..|es| - 1]);
    }
  }

  /** Entries that never fire are dropped wherever they stand, the others kept in
      their order. */
  lemma {:induction false} FiringParts(a: seq<Entry>, e: Entry, b: seq<Entry>)
    ensures Firing(a + [e] + b) == Firing(a) + (if e.prob == 0 then [] else [e]) + Firing(b)
  {
    if a == [] {
      assert [] + [e] + b == [e] + b && ([e] + b)[1..] == b;
    } else {
      assert (a + [e] + b)[1..] == a[1..] + [e] + b;
      FiringParts(a[1..], e, b);
    }
  }

  // ---------------------------------------------------------------- printing

  function Digit(n: nat): char
    requires n < 10
  {
    ('0' as int + n) as char
  }

  /** "%d" of a number that is not negative, and "%0*d". */
  function Dec(n: nat): string {
    if n < 10 then [Digit(n)] else Dec(n / 10) + [Digit(n % 10)]
  }

  function Pad(n: nat, width: nat): string {
    if width == 0 then "" else Pad(n / 10, width - 1) + [Digit(n % 10)]
  }

  function DecInt(n: int): string {
    if n < 0 then "-" + Dec(-n) else Dec(n)
  }

  /** A fraction of four decimals without its trailing zeros. */
  function Trimmed(decimal: nat, digits: nat): string
    decreases digits
  {
    if digits > 0 && decimal % 10 == 0 then Trimmed(decimal / 10, digits - 1) else Pad(decimal, digits)
  }

  function ShowProb(prob: nat): string {
    if prob < PROB_MAX then
      Dec(prob / 10000) + (if prob % 10000 == 0 then "" else "." + Trimmed(prob % 10000, 4)) + "%"
    else ""
  }

  function Show(e: Entry): string {
    ShowProb(e.prob)
    + (if e.count > 0 then Dec(e.count) + "*" else "")
    + Name(e.ty)
    + (if e.arg != 0 then "(" + DecInt(e.arg) + ")" else "")
    + (if e.pid != NO_PID then "[pid " + DecInt(e.pid) + "]" else "")
  }

  function ShowList(es: seq<Entry>): string {
    if es == [] then "off" else ShowEntries(es)
  }

  function ShowEntries(es: seq<Entry>): string
    requires es != []
  {
    if |es| == 1 then Show(es[0]) else Show(es[0]) + "->" + ShowEntries(es[1..])
  }

  lemma DecOfTwo(a: nat, b: nat)
    requires 1 <= a < 10 && b < 10
    ensures Dec(10 * a + b) == [Digit(a), Digit(b)] && Dec(a) == [Digit(a)] && Dec(0) == "0"
  {
  }

  lemma PrintedFirst()
    ensures Show(Entry(Sleep, 50, 102500, 3, 12)) == "10.25%" + "3*" + "sleep" + "(50)" + "[pid 12]"
  {
    assert Dec(3) + "*" == "3*" && "(" + DecInt(50) + ")" == "(50)" && "[pid " + DecInt(12) + "]" == "[pid 12]" by {
      DecOfTwo(5, 0);
      DecOfTwo(1, 2);
      DecOfTwo(3, 0);
    }
    PrintedProb();
    hide Dec, DecInt, ShowProb;
  }

  lemma PrintedProb()
    ensures ShowProb(102500) == "10.25%" && ShowProb(5) == "0.0005%"
  {
    DecOfTwo(1, 0);
    assert Trimmed(2500, 4) == "25" by {
      assert Trimmed(250, 3) == Trimmed(25, 2) == Pad(25, 2);
      assert Pad(25, 2) == Pad(2, 1) + "5" && Pad(2, 1) == Pad(0, 0) + "2";
    }
    assert Trimmed(5, 4) == "0005" by {
      assert Pad(5, 4) == Pad(0, 3) + "5" && Pad(0, 3) == Pad(0, 2) + "0" && Pad(0, 2) == Pad(0, 1) + "0" && Pad(0, 1) == Pad(0, 0) + "0";
    }
    hide Dec, Trimmed;
    assert ShowProb(102500) == "10" + ("." + "25") + "%";
    assert ShowProb(5) == "0" + ("." + "0005") + "%";
  }

  lemma PrintedOthers()
    ensures Show(Entry(Return, -1, PROB_MAX, 0, NO_PID)) == "return" + "(-1)"
    ensures Show(Entry(Off, 0, 5, 0, NO_PID)) == "0.0005%" + "off"
    ensures Show(Entry(Panic, 0, PROB_MAX, 0, NO_PID)) == "panic"
    ensures Show(Entry(Break, 0, PROB_MAX, 0, NO_PID)) == "break" && Show(Entry(Print, 0, PROB_MAX, 0, NO_PID)) == "print"
  {
    assert "(" + DecInt(-1) + ")" == "(-1)" by { DecOfTwo(1, 0); }
    PrintedProb();
    hide Dec, DecInt;
    assert ShowProb(PROB_MAX) == "";
    hide ShowProb;
  }

  lemma PrintedTwo(e: Entry, es: seq<Entry>)
    requires es != []
    ensures ShowList([e] + es) == Show(e) + "->" + ShowList(es)
  {
    hide Show;
    assert ([e] + es)[1..] == es;
  }

  /** A list as it is printed: all types, all suffixes, arrows in between. */
  lemma Printed()
    ensures ShowList([Entry(Sleep, 50, 102500, 3, 12), Entry(Return, -1, PROB_MAX, 0, NO_PID), Entry(Off, 0, 5, 0, NO_PID),
                      Entry(Panic, 0, PROB_MAX, 0, NO_PID), Entry(Break, 0, PROB_MAX, 0, NO_PID), Entry(Print, 0, PROB_MAX, 0, NO_PID)])
              == ("10.25%" + "3*" + "sleep" + "(50)" + "[pid 12]")
                 + "->" + (("return" + "(-1)") + "->" + (("0.0005%" + "off") + "->" + ("panic" + "->" + ("break" + "->" + "print"))))
    ensures ShowList([]) == "off"
  {
    hide Show;
    var a, b, c := Entry(Sleep, 50, 102500, 3, 12), Entry(Return, -1, PROB_MAX, 0, NO_PID), Entry(Off, 0, 5, 0, NO_PID);
    var d, e, f := Entry(Panic, 0, PROB_MAX, 0, NO_PID), Entry(Break, 0, PROB_MAX, 0, NO_PID), Entry(Print, 0, PROB_MAX, 0, NO_PID);
    PrintedFirst();
    PrintedOthers();
    assert ShowList([f]) == "print";
    hide ShowList;
    PrintedTwo(e, [f]);
    PrintedTwo(d, [e, f]);
    PrintedTwo(c, [d, e, f]);
    PrintedTwo(b, [c, d, e, f]);
    PrintedTwo(a, [b, c, d, e, f]);
    assert [e] + [f] == [e, f] && [d] + [e, f] == [d, e, f] && [c] + [d, e, f] == [c, d, e, f];
    assert [b] + [c, d, e, f] == [b, c, d, e, f] && [a] + [b, c, d, e, f] == [a, b, c, d, e, f];
  }

  // ---------------------------------------------------------------- numbers read back

  predicate Digits(s: string) {
    forall i :: 0 <= i < |s| ==> DigitOf(s[i]) < 10
  }

  predicate Stops(s: string) {
    s == "" || DigitOf(s[0]) >= 10
  }

  lemma {:induction false} SpanOf(ds: string, rest: string)
    requires Digits(ds) && Stops(rest)
    ensures Span(ds + rest, 10) == |ds| && (ds + rest)[..|ds|] == ds && (ds + rest)[|ds|..] == rest
  {
    if ds == "" {
      assert ds + rest == rest;
    } else {
      assert (ds + rest)[1..] == ds[1..] + rest;
      SpanOf(ds[1..], rest);
    }
  }

  lemma ReadBack(ds: string, rest: string)
    requires Digits(ds) && Stops(rest)
    ensures Strtol10(ds + rest) == (Val(ds, 10), rest)
  {
    SpanOf(ds, rest);
  }

  lemma {:induction false} DecReads(n: nat)
    ensures Dec(n) != "" && Digits(Dec(n)) && Val(Dec(n), 10) == n && IsDigit(Dec(n)[0])
    ensures n > 0 ==> Dec(n)[0] != '0'
  {
    if n < 10 {
      assert Val("", 10) == 0;
      assert [Digit(n)][..0] == "";
    } else {
      DecReads(n / 10);
      assert Dec(n)[..|Dec(n)| - 1] == Dec(n / 10);
    }
  }

  lemma {:induction false} PadReads(n: nat, width: nat)
    requires n < Power10(width)
    ensures |Pad(n, width)| == width && Digits(Pad(n, width)) && Val(Pad(n, width), 10) == n
  {
    if width > 0 {
      PadReads(n / 10, width - 1);
      assert Pad(n, width)[..width - 1] == Pad(n / 10, width - 1);
    }
  }

  /** A fraction without its trailing zeros still stands for the same value. */
  lemma {:induction false} TrimmedReads(decimal: nat, digits: nat)
    requires 0 < decimal < Power10(digits)
    ensures var t := Trimmed(decimal, digits);
            Digits(t) && 0 < |t| <= digits && Val(t, 10) * Power10(digits - |t|) == decimal
    decreases digits
  {
    if decimal % 10 == 0 {
      TrimmedReads(decimal / 10, digits - 1);
      var t := Trimmed(decimal, digits);
      TenTimes(Val(t, 10), Power10(digits - 1 - |t|));
    } else {
      PadReads(decimal, digits);
    }
  }

  lemma TenTimes(v: nat, p: nat)
    ensures v * (10 * p) == 10 * (v * p)
  {
  }

  predicate Closes(s: string) {
    Head(s) == ')' || Head(s) == ']'
  }

  lemma MagnitudeReads(m: nat, rest: string)
    requires Closes(rest)
    ensures var (n, v, r) := Magnitude(Dec(m) + rest); n > 0 && v == m && r == rest
  {
    if m == 0 {
      ZeroReads(rest);
    } else {
      DecReads(m);
      SpanOf(Dec(m), rest);
      assert (Dec(m) + rest)[0] == Dec(m)[0];
    }
  }

  /** "0" is octal. */
  lemma ZeroReads(rest: string)
    requires Closes(rest)
    ensures Magnitude(Dec(0) + rest) == (1, 0, rest)
  {
    var t := "0" + rest;
    assert Dec(0) == "0";
    assert t[1..] == rest && t[1] == rest[0];
    assert Span(t, 8) == 1 + Span(rest, 8);
    assert t[..1] == "0";
    assert "0"[..0] == "";
    assert Val("", 8) == 0;
  }

  lemma DecIntReads(n: int, rest: string)
    requires Closes(rest)
    ensures Strtol0(DecInt(n) + rest) == (n, rest)
    ensures IsDigit(Head(DecInt(n) + rest)) || Head(DecInt(n) + rest) == '-'
  {
    hide Dec, Span, Val, Magnitude;
    var m := if n < 0 then -n else n;
    DecReads(m);
    MagnitudeReads(m, rest);
    if n < 0 {
      assert (DecInt(n) + rest)[1..] == Dec(m) + rest;
    }
  }

  // ---------------------------------------------------------------- terms read back

  /** What may follow a term: nothing, or the arrow. */
  predicate Follows(s: string) {
    s == "" || StartsWith(s, "->")
  }

  lemma WholeReads(units: nat, rest: string)
    ensures ParseNumber(Dec(units) + ("%" + rest)) == Some((units, 0, "%" + rest))
    ensures IsDigit(Head(Dec(units) + ("%" + rest)))
  {
    hide Dec, Span, Val;
    DecReads(units);
    ReadBack(Dec(units), "%" + rest);
    SpanOf(Dec(units), "%" + rest);
  }

  lemma DecimalReads(units: nat, f: string, rest: string)
    requires Digits(f) && f != ""
    ensures var t := "." + (f + ("%" + rest));
            ParseNumber(Dec(units) + t) == Some((units, FractionOf(f), "%" + rest)) && IsDigit(Head(Dec(units) + t))
  {
    hide Dec, Span, Val, FractionOf;
    var t := "." + (f + ("%" + rest));
    DecReads(units);
    ReadBack(Dec(units), t);
    SpanOf(Dec(units), t);
    assert t[1..] == f + ("%" + rest);
    SpanOf(f, "%" + rest);
  }

  lemma PercentReads(e: Entry, prob: nat, rest: string)
    requires prob < PROB_MAX
    ensures ParsePrefix(e, ShowProb(prob) + rest) == Some((e.(prob := prob), rest))
    ensures IsDigit(Head(ShowProb(prob) + rest))
  {
    hide Dec, Span, Val, Trimmed, Pad, FractionOf, Power10, ParseNumber, Digits;
    var units, decimal := prob / 10000, prob % 10000;
    if decimal == 0 {
      assert ShowProb(prob) + rest == Dec(units) + ("%" + rest);
      WholeReads(units, rest);
    } else {
      var f := Trimmed(decimal, 4);
      FractionReads(decimal);
      assert ShowProb(prob) + rest == Dec(units) + ("." + (f + ("%" + rest)));
      DecimalReads(units, f, rest);
    }
    assert ("%" + rest)[1..] == rest;
    assert Min(Min(units, 100) * 10000 + decimal, PROB_MAX) == prob;
  }

  lemma Power10000()
    ensures Power10(4) == 10000
  {
    assert Power10(4) == 10 * Power10(3);
    assert Power10(3) == 10 * Power10(2);
    assert Power10(2) == 10 * Power10(1);
  }

  lemma FractionReads(decimal: nat)
    requires 0 < decimal < 10000
    ensures var f := Trimmed(decimal, 4); Digits(f) && 0 < |f| <= 4 && FractionOf(f) == decimal
  {
    Power10000();
    TrimmedReads(decimal, 4);
  }

  lemma CountReads(e: Entry, count: nat, rest: string)
    requires count > 0
    ensures ParsePrefix(e, Dec(count) + "*" + rest) == Some((e.(count := count), rest))
    ensures IsDigit(Head(Dec(count) + "*" + rest))
  {
    hide Dec, Span, Val;
    DecReads(count);
    assert Dec(count) + "*" + rest == Dec(count) + ("*" + rest);
    ReadBack(Dec(count), "*" + rest);
    SpanOf(Dec(count), "*" + rest);
  }

  lemma TypeReads(ty: Type, rest: string)
    ensures ParseType(Name(ty) + rest) == Some((ty, rest))
    ensures !IsDigit(Head(Name(ty) + rest)) && Head(Name(ty) + rest) != '.'
  {
    var s := Name(ty) + rest;
    assert s[..|Name(ty)|] == Name(ty) && s[|Name(ty)|..] == rest;
    assert s[0] == Name(ty)[0] && s[1] == Name(ty)[1];
    assert forall t: string :: |t| > 1 && StartsWith(s, t) ==> t[0] == s[0] && t[1] == s[1];
  }

  /** An entry whose printed form can be read: a pid comes with an argument. */
  predicate Readable(e: Entry) {
    e.pid != NO_PID ==> e.arg != 0
  }

  function ShowPrefix(e: Entry): string {
    ShowProb(e.prob) + if e.count > 0 then Dec(e.count) + "*" else ""
  }

  function ShowSuffix(e: Entry): string {
    (if e.arg != 0 then "(" + DecInt(e.arg) + ")" else "") + if e.pid != NO_PID then "[pid " + DecInt(e.pid) + "]" else ""
  }

  lemma ShowParts(e: Entry, rest: string)
    ensures Show(e) + rest == ShowPrefix(e) + (Name(e.ty) + (ShowSuffix(e) + rest))
  {
  }

  lemma AlwaysIsSilent()
    ensures forall prob: nat :: prob >= PROB_MAX ==> ShowProb(prob) == ""
  {
  }

  lemma PrefixReads(e: Entry, rest: string)
    requires e.prob <= PROB_MAX && !IsDigit(Head(rest)) && Head(rest) != '.'
    ensures ParsePrefixes(FRESH, ShowPrefix(e) + rest) == Some((FRESH.(prob := e.prob, count := e.count), rest))
  {
    hide ParsePrefix, ShowProb, Dec;
    var c := if e.count > 0 then Dec(e.count) + "*" else "";
    var f := FRESH.(prob := e.prob);
    assert ParsePrefixes(f, c + rest) == Some((f.(count := e.count), rest)) by {
      assert "" + rest == rest;
      if e.count > 0 {
        CountReads(f, e.count, rest);
      }
    }
    if e.prob < PROB_MAX {
      PercentReads(FRESH, e.prob, c + rest);
      assert ShowPrefix(e) + rest == ShowProb(e.prob) + (c + rest);
    } else {
      AlwaysIsSilent();
      assert ShowPrefix(e) + rest == c + rest;
    }
  }

  lemma SuffixReads(f: Entry, e: Entry, rest: string)
    requires Follows(rest) && Readable(e) && e.pid >= 0
    ensures ParseSuffix(f, ShowSuffix(e) + rest) == Some((if e.arg != 0 then f.(arg := e.arg, pid := if e.pid != NO_PID then e.pid else f.pid) else f, rest))
  {
    hide Strtol0, DecInt;
    if e.arg == 0 {
      assert ShowSuffix(e) + rest == rest;
    } else {
      var u := (if e.pid != NO_PID then "[pid " + DecInt(e.pid) + "]" else "") + rest;
      PidReads(f.(arg := e.arg), e.pid, rest);
      var t := DecInt(e.arg) + (")" + u);
      assert ShowSuffix(e) + rest == "(" + t;
      assert ("(" + t)[1..] == t;
      DecIntReads(e.arg, ")" + u);
      assert (")" + u)[1..] == u;
    }
  }

  lemma PidReads(f: Entry, pid: int, rest: string)
    requires Follows(rest) && pid >= 0
    ensures var u := (if pid != NO_PID then "[pid " + DecInt(pid) + "]" else "") + rest;
            ParsePid(f, u) == Some((if pid != NO_PID then f.(pid := pid) else f, rest))
  {
    hide Strtol0;
    if pid == NO_PID {
      assert "" + rest == rest;
      assert rest != "" ==> rest[..2][0] == '-';
      assert !StartsWith(rest, "[pid ");
    } else {
      var t := DecInt(pid) + ("]" + rest);
      DecReads(pid);
      hide Dec;
      var u := "[pid " + DecInt(pid) + "]" + rest;
      assert u == "[pid " + t;
      assert u[..5] == "[pid " && u[5..] == t;
      DecIntReads(pid, "]" + rest);
      assert StartsWith(u, "[pid ");
      assert t[0] == Dec(pid)[0];
      assert ("]" + rest)[1..] == rest;
    }
  }

  lemma TermReads(e: Entry, rest: string)
    requires e.prob <= PROB_MAX && e.pid >= 0 && Readable(e) && Follows(rest)
    ensures ParseTerm(Show(e) + rest) == Some((e, rest))
  {
    hide ParsePrefixes, ParseType, ParseSuffix, Show, ShowPrefix, ShowSuffix, Name;
    var u := ShowSuffix(e) + rest;
    ShowParts(e, rest);
    TypeReads(e.ty, u);
    PrefixReads(e, Name(e.ty) + u);
    SuffixReads(FRESH.(prob := e.prob, count := e.count, ty := e.ty), e, rest);
  }

  /** A pid without an argument is printed but cannot be read. */
  lemma PidAloneStops(e: Entry, rest: string)
    requires e.prob <= PROB_MAX && !Readable(e)
    ensures ParseTerm(Show(e) + rest).Some? ==>
              var t := ParseTerm(Show(e) + rest).value.1; t != "" && !StartsWith(t, "->")
  {
    hide ParsePrefixes, ParseType, Show, ShowPrefix, Name, DecInt;
    var u := ShowSuffix(e) + rest;
    ShowParts(e, rest);
    TypeReads(e.ty, u);
    PrefixReads(e, Name(e.ty) + u);
    assert u[0] == '[';
  }

  // ---------------------------------------------------------------- lists read back

  predicate Good(e: Entry) {
    1 <= e.prob <= PROB_MAX && e.pid >= 0
  }

  /** The lists fail_point_set leaves behind. */
  predicate Normal(es: seq<Entry>) {
    && (forall i :: 0 <= i < |es| ==> Good(es[i]))
    && (es != [] ==> es[|es| - 1].ty != Off)
  }

  predicate AllReadable(es: seq<Entry>) {
    forall i :: 0 <= i < |es| ==> Readable(es[i])
  }

  lemma {:induction false} ListReads(es: seq<Entry>)
    requires es != [] && forall i :: 0 <= i < |es| ==> Good(es[i])
    ensures AllReadable(es) ==> ParseList(ShowEntries(es)) == Some(es)
    ensures !AllReadable(es) ==> ParseList(ShowEntries(es)) == None
  {
    hide ParseTerm, Show;
    var rest := if |es| == 1 then "" else "->" + ShowEntries(es[1..]);
    assert ShowEntries(es) == Show(es[0]) + rest by {
      assert Show(es[0]) + "" == Show(es[0]);
      if |es| > 1 {
        assert Show(es[0]) + "->" + ShowEntries(es[1..]) == Show(es[0]) + ("->" + ShowEntries(es[1..]));
      }
    }
    if !Readable(es[0]) {
      PidAloneStops(es[0], rest);
    } else {
      TermReads(es[0], rest);
      if |es| > 1 {
        assert rest[2..] == ShowEntries(es[1..]);
        ListReads(es[1..]);
        assert AllReadable(es) <==> AllReadable(es[1..]) by {
          assert forall i :: 0 < i < |es| ==> es[i] == es[1..][i - 1];
        }
        assert [es[0]] + es[1..] == es;
      } else {
        assert es == [es[0]];
      }
    }
  }

  lemma FiringStep(a: seq<Entry>, b: seq<Entry>)
    requires b != []
    ensures a + Firing(b) == if b[0].prob == 0 then a + Firing(b[1..]) else a + [b[0]] + Firing(b[1..])
  {
  }

  lemma NoneFiring(a: seq<Entry>, b: seq<Entry>)
    requires b == []
    ensures a + Firing(b) == a == a + b
  {
  }

  lemma {:induction false} FiringAll(es: seq<Entry>)
    requires forall i :: 0 <= i < |es| ==> Good(es[i])
    ensures Firing(es) == es
  {
    if es != [] {
      FiringAll(es[1..]);
      assert [es[0]] + es[1..] == es;
    }
  }

  /** Printing a fail point and setting it from the text restores the list if
      and only if every pid in it comes with an argument; otherwise setting it
      fails. The empty list goes through "off". */
  lemma RoundTrip(es: seq<Entry>)
    requires Normal(es)
    ensures AllReadable(es) ==> FromText(ShowList(es)) == Some(es)
    ensures !AllReadable(es) ==> FromText(ShowList(es)) == None
  {
    if es == [] {
      OffReads();
    } else {
      ListReads(es);
      FiringAll(es);
    }
  }

  /** The new list fail_point_set makes, or its EINVAL. */
  function FromText(s: string): Option<seq<Entry>> {
    match ParseList(s)
    case None => None
    case Some(es) => Some(Settled(es))
  }

  lemma OffReads()
    ensures FromText("off") == Some([])
  {
    var e := FRESH;
    assert Show(e) == "off" by {
      assert "" + "off" + "" + "" == "off";
    }
    TermReads(e, "");
    assert "off" + "" == "off";
    assert Firing([e]) == [e] by {
      assert [e][1..] == [];
    }
    assert [e][..0] == [];
  }

  /** Such a list is within reach: fail_point_set accepts a pid after "(0)". */
  lemma UnreadableReachable()
    ensures var es := [Entry(Return, 0, PROB_MAX, 0, 5)];
            FromText("return(0)[pid 5]") == Some(es) && FromText(ShowList(es)) == None
  {
    var e := Entry(Return, 0, PROB_MAX, 0, 5);
    assert ParseTerm("return(0)[pid 5]") == Some((e, "")) by {
      ZeroArgument();
    }
    assert FromText("return(0)[pid 5]") == Some([e]) by {
      hide ParseTerm;
      assert Firing([e]) == [e] by {
        assert [e][1..] == [];
      }
    }
    RoundTrip([e]);
    assert !Readable([e][0]);
  }

  lemma NoPrefix(e: Entry, s: string)
    ensures !IsDigit(Head(s)) && Head(s) != '.' ==> ParsePrefixes(e, s) == Some((e, s))
  {
  }

  lemma OneDigit()
    ensures Dec(0) == "0" && Dec(5) == "5"
  {
  }

  lemma ZeroArgument()
    ensures ParseTerm("return(0)[pid 5]") == Some((Entry(Return, 0, PROB_MAX, 0, 5), ""))
  {
    hide ParsePrefixes, ParseType, Strtol0, ParsePid, Dec;
    var f := FRESH.(ty := Return);
    var u := "(0)[pid 5]";
    assert "return(0)[pid 5]" == Name(Return) + u;
    TypeReads(Return, u);
    NoPrefix(FRESH, Name(Return) + u);
    assert Dec(0) == "0" && Dec(5) == "5" by {
      OneDigit();
    }
    DecIntReads(0, ")[pid 5]");
    assert DecInt(0) + ")[pid 5]" == u[1..];
    assert ")[pid 5]"[1..] == "[pid 5]";
    PidReads(f.(arg := 0), 5, "");
    assert "[pid " + DecInt(5) + "]" + "" == "[pid 5]";
  }

  // ---------------------------------------------------------------- the program

  /** The fraction while its digits are read. */
  function Partial(ds: string): nat {
    if |ds| <= 4 then Val(ds, 10) else FractionOf(ds)
  }

  lemma NothingRead()
    ensures Partial("") == 0
  {
  }

  lemma PartialMore(ds: string, c: char)
    requires DigitOf(c) < 10
    ensures Partial(ds + [c]) ==
              if |ds| < 4 then Partial(ds) * 10 + DigitOf(c)
              else Partial(ds) + if |ds| == 4 && DigitOf(c) >= 5 then 1 else 0
  {
    assert (ds + [c])[..|ds|] == ds;
    if |ds| > 4 {
      assert (ds + [c])[..4] == ds[..4] && (ds + [c])[4] == ds[4];
    }
  }

  lemma {:induction false} SpanIs(s: string, n: nat, base: nat)
    requires base <= 16 && n <= |s| && (n < |s| ==> DigitOf(s[n]) >= base)
    requires forall i :: 0 <= i < n ==> DigitOf(s[i]) < base
    ensures Span(s, base) == n
  {
  }

  /** The fractional part of parse_number. */
  method ReadFraction(p0: string) returns (decimal: nat, digits: nat, p: string)
    ensures digits == Span(p0, 10) && p == p0[digits..]
    ensures digits > 0 ==> decimal == FractionOf(p0[..digits])
  {
    hide Val, FractionOf, Partial, Power10, Span;
    digits, decimal, p := 0, 0, p0;
    assert p0[..0] == "";
    NothingRead();
    while p != "" && IsDigit(p[0])
      invariant digits <= |p0| && p == p0[digits..] && decimal == Partial(p0[..digits])
      invariant forall i :: 0 <= i < digits ==> DigitOf(p0[i]) < 10
      decreases |p|
    {
      var digit := DigitOf(p[0]);
      PartialMore(p0[..digits], p[0]);
      assert p0[..digits + 1] == p0[..digits] + [p[0]];
      if digits < 4 {
        decimal := decimal * 10 + digit;
      } else if digits == 4 && digit >= 5 {
        decimal := decimal + 1;
      }
      digits := digits + 1;
      p := p[1..];
    }
    SpanIs(p0, digits, 10);
    decimal := Scale(p0[..digits], decimal, digits);
  }

  /** Lines 561-562: the zeros that are not written. */
  method Scale(ghost ds: string, decimal0: nat, digits0: nat) returns (decimal: nat)
    requires decimal0 == Partial(ds) && digits0 == |ds|
    ensures decimal == FractionOf(ds)
  {
    var digits := digits0;
    decimal := decimal0;
    while digits < 4
      invariant digits0 <= digits && (digits <= 4 || digits == digits0)
      invariant decimal * Power10(Missing(digits)) == decimal0 * Power10(Missing(digits0))
    {
      TenTimes(decimal, Power10(4 - (digits + 1)));
      digits := digits + 1;
      decimal := decimal * 10;
    }
  }

  function Missing(digits: nat): nat {
    if digits <= 4 then 4 - digits else 0
  }

  /** parse_number. */
  method ReadNumber(p0: string) returns (r: Option<(nat, nat, string)>)
    ensures r == ParseNumber(p0)
  {
    hide Val, FractionOf, Span;
    var (units, p) := Strtol10(p0);
    if |p| == |p0| && Head(p) != '.' {
      return None;
    }
    if Head(p) == '.' {
      var decimal, digits, q := ReadFraction(p[1..]);
      return if digits == 0 then None else Some((units, decimal, q));
    }
    r := Some((units, 0, p));
  }

  /** parse_type. */
  method ReadType(beg: string) returns (r: Option<(Type, string)>)
    ensures r == ParseType(beg)
  {
    var types := [Off, Panic, Return, Break, Print, Sleep];
    assert types[0] == Off && types[1] == Panic && types[2] == Return && types[3] == Break && types[4] == Print && types[5] == Sleep;
    var i := 0;
    while i < |types|
      invariant 0 <= i <= |types|
      invariant forall j :: 0 <= j < i ==> !StartsWith(beg, Name(types[j]))
    {
      if StartsWith(beg, Name(types[i])) {
        return Some((types[i], beg[|Name(types[i])|..]));
      }
      i := i + 1;
    }
    r := None;
  }

  /** One turn of the loop of parse_term over probabilities and counts. */
  method ReadPrefix(ent0: Entry, p0: string) returns (r: Option<(Entry, string)>)
    ensures r == ParsePrefix(ent0, p0)
  {
    hide ParseNumber;
    var n := ReadNumber(p0);
    if n == None {
      return None;
    }
    var ent := ent0;
    var (units, decimal, p) := n.value;
    if Head(p) == '%' {
      if units > 100 {
        units := 100;
      }
      ent := ent.(prob := units * 10000 + decimal);
      if ent.prob > PROB_MAX {
        ent := ent.(prob := PROB_MAX);
      }
    } else if Head(p) == '*' {
      if units == 0 || decimal != 0 {
        return None;
      }
      ent := ent.(count := units);
    } else {
      return None;
    }
    r := Some((ent, p[1..]));
  }

  /** The loop. */
  method ReadPrefixes(ent0: Entry, p0: string) returns (r: Option<(Entry, string)>)
    ensures r == ParsePrefixes(ent0, p0)
  {
    hide ParsePrefix, ParsePrefixes;
    var ent, p := ent0, p0;
    while IsDigit(Head(p)) || Head(p) == '.'
      invariant ParsePrefixes(ent0, p0) == ParsePrefixes(ent, p)
      decreases |p|
    {
      PrefixesStep(ent, p);
      PrefixShorter(ent, p);
      r := ReadPrefix(ent, p);
      if r == None {
        return;
      }
      ent, p := r.value.0, r.value.1;
    }
    PrefixesStep(ent, p);
    r := Some((ent, p));
  }

  lemma PrefixesStep(e: Entry, s: string)
    ensures ParsePrefixes(e, s) ==
              if IsDigit(Head(s)) || Head(s) == '.' then
                if ParsePrefix(e, s) == None then None else ParsePrefixes(ParsePrefix(e, s).value.0, ParsePrefix(e, s).value.1)
              else Some((e, s))
  {
  }

  /** parse_term. */
  method ReadTerm(p0: string) returns (r: Option<(Entry, string)>)
    ensures r == ParseTerm(p0)
  {
    hide ParsePrefixes, ParseType, Strtol0;
    r := ReadPrefixes(FRESH, p0);
    if r == None {
      return;
    }
    var (ent, p) := r.value;
    var ty := ReadType(p);
    if ty == None {
      return None;
    }
    ent, p := ent.(ty := ty.value.0), ty.value.1;
    if Head(p) != '(' {
      return Some((ent, p));
    }
    p := p[1..];
    if !IsDigit(Head(p)) && Head(p) != '-' {
      return None;
    }
    var (arg, q) := Strtol0(p);
    ent, p := ent.(arg := arg), q;
    if Head(p) != ')' {
      return None;
    }
    p := p[1..];
    if !StartsWith(p, "[pid ") {
      return Some((ent, p));
    }
    p := p[5..];
    if !IsDigit(Head(p)) {
      return None;
    }
    var (pid, u) := Strtol0(p);
    ent, p := ent.(pid := pid), u;
    if Head(p) != ']' {
      return None;
    }
    r := Some((ent, p[1..]));
  }

  /** parse_fail_point. */
  method ReadList(p0: string) returns (r: Option<seq<Entry>>)
    ensures r == ParseList(p0)
  {
    hide ParseTerm, ParseList;
    var t := ReadTerm(p0);
    ListIs(p0);
    if t == None {
      return None;
    }
    var ents, p := [t.value.0], t.value.1;
    while p != ""
      invariant ParseList(p0) == Prepend(ents, Rest(p))
      decreases |p|
    {
      if !StartsWith(p, "->") {
        return None;
      }
      TermShorter(p[2..]);
      ListIs(p[2..]);
      t := ReadTerm(p[2..]);
      if t == None {
        return None;
      }
      PrependMore(ents, t.value.0, Rest(t.value.1));
      ents, p := ents + [t.value.0], t.value.1;
    }
    assert ents + [] == ents;
    r := Some(ents);
  }

  /** What may come after a term: the end, or an arrow and a list. */
  function Rest(s: string): Option<seq<Entry>> {
    if s == "" then Some([]) else if StartsWith(s, "->") then ParseList(s[2..]) else None
  }

  function Prepend(es: seq<Entry>, r: Option<seq<Entry>>): Option<seq<Entry>> {
    match r
    case None => None
    case Some(fs) => Some(es + fs)
  }

  lemma ListIs(s: string)
    ensures ParseList(s) ==
              if ParseTerm(s) == None then None else Prepend([ParseTerm(s).value.0], Rest(ParseTerm(s).value.1))
  {
    hide ParseTerm;
    TermShorter(s);
    if ParseTerm(s).Some? {
      assert [ParseTerm(s).value.0] + [] == [ParseTerm(s).value.0];
    }
  }

  lemma PrependMore(es: seq<Entry>, e: Entry, r: Option<seq<Entry>>)
    ensures Prepend(es, Prepend([e], r)) == Prepend(es + [e], r)
  {
    if r.Some? {
      assert es + ([e] + r.value) == es + [e] + r.value;
    }
  }

  class FailPoint {
    /** fp_entries. */
    var entries: seq<Entry>

    /** fail_point_get. */
    method Get() returns (sb: string)
      ensures sb == ShowList(entries)
    {
      hide Show;
      sb := "";
      var i := 0;
      while i < |entries|
        invariant 0 <= i <= |entries|
        invariant entries != [] ==> sb + (if i < |entries| then ShowEntries(entries[i..]) else "") == ShowEntries(entries)
        invariant entries == [] ==> sb == ""
      {
        var text := GetEntry(entries[i]);
        assert entries[i..][1..] == entries[i + 1..];
        sb := sb + text;
        if i + 1 < |entries| {
          sb := sb + "->";
        }
        i := i + 1;
      }
      if entries == [] {
        sb := sb + "off";
      }
    }

    /** The body of its loop. */
    static method GetEntry(ent: Entry) returns (sb: string)
      ensures sb == Show(ent)
    {
      hide Dec, ShowProb;
      sb := GetProb(ent.prob);
      if ent.count > 0 {
        sb := sb + (Dec(ent.count) + "*");
      } else {
        assert sb + "" == sb;
      }
      sb := sb + Name(ent.ty);
      if ent.arg != 0 {
        sb := sb + ("(" + DecInt(ent.arg) + ")");
      } else {
        assert sb + "" == sb;
      }
      if ent.pid != NO_PID {
        sb := sb + ("[pid " + DecInt(ent.pid) + "]");
      } else {
        assert sb + "" == sb;
      }
    }

    /** Lines 302-315. */
    static method GetProb(prob: nat) returns (sb: string)
      ensures sb == ShowProb(prob)
    {
      hide Dec, Pad;
      sb := "";
      if prob < PROB_MAX {
        var decimal := prob % 10000;
        var units := prob / 10000;
        sb := Dec(units);
        if decimal != 0 {
          var digits: nat := 4;
          ghost var whole := Trimmed(decimal, 4);
          Power10000();
          while decimal % 10 == 0
            invariant 0 < decimal < Power10(digits) && Trimmed(decimal, digits) == whole
            decreases digits
          {
            digits := digits - 1;
            decimal := decimal / 10;
          }
          sb := sb + ("." + Pad(decimal, digits));
        } else {
          assert sb + "" == sb;
        }
        sb := sb + "%";
      }
    }

    /** Lines 357-361: entries that never fire go. */
    method DropSilent()
      modifies this
      ensures entries == Firing(old(entries))
    {
      hide Firing;
      ghost var done, left: seq<Entry> := [], entries;
      assert [] + Firing(left) == Firing(left);
      var i := 0;
      while i < |entries|
        invariant 0 <= i == |done| <= |entries| && entries == done + left
        invariant Firing(old(entries)) == done + Firing(left)
        decreases |entries| - i
      {
        FiringStep(done, left);
        if entries[i].prob == 0 {
          entries := entries[..i] + entries[i + 1..];
        } else {
          done := done + [left[0]];
          i := i + 1;
        }
        left := left[1..];
      }
      NoneFiring(done, left);
    }

    /** fail_point_set. */
    method Set(buf: string) returns (einval: bool)
      modifies this
      ensures einval <==> FromText(buf) == None
      ensures entries == if einval then old(entries) else FromText(buf).value
    {
      hide ParseList, Firing;
      var r := ReadList(buf);
      if r == None {
        return true;
      }
      entries := r.value;
      DropSilent();
      while entries != [] && entries[|entries| - 1].ty == Off
        invariant NoTrailingOff(entries) == Settled(r.value)
        decreases |entries|
      {
        entries := entries[..|entries| - 1];
      }
      einval := false;
    }
  }

  /** fail_point_get and fail_point_set together: what is read is what was
      printed, exactly when every pid comes with an argument. */
  method Restore(from: FailPoint, to: FailPoint) returns (einval: bool)
    requires Normal(from.entries) && from != to
    modifies to
    ensures einval <==> !AllReadable(from.entries)
    ensures !einval ==> to.entries == from.entries
  {
    var text := from.Get();
    RoundTrip(from.entries);
    einval := to.Set(text);
  }
}

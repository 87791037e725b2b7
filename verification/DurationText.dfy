/**
  Durations as text: api.py, two endpoints that each print a day's times and add them up again.  The hybrid
  itinerary prints hours and minutes (lines 1967-1968) and reads them with the parser at line 2009; the other
  endpoint prints a plain sum of minutes (lines 3331-3332) and reads it with the parser at line 3352.
 */
module DurationText {
  import opened Wrappers

  // ---------- Numbers ----------

  function Digit(d: nat): char
    requires d < 10
  {
    "0123456789"[d]
  }

  function Decimal(n: nat): string {
    if n < 10 then [Digit(n)] else Decimal(n / 10) + [Digit(n % 10)]
  }

  predicate Digits(s: string) {
    forall i | 0 <= i < |s| :: '0' <= s[i] <= '9'
  }

  /** Python's `int` on text, for unsigned decimal numbers; None where it raises. */
  function Int(s: string): Option<nat> {
    if s == "" then None
    else
      var c := s[|s| - 1];
      if !('0' <= c <= '9') then None
      else
        var d := c as int - '0' as int;
        if |s| == 1 then Some(d)
        else
          var before := Int(s[..|s| - 1]);
          if before.None? then None else Some(10 * before.value + d)
  }

  lemma {:induction false} DecimalIsRead(n: nat)
    ensures Int(Decimal(n)) == Some(n) && Digits(Decimal(n)) && Decimal(n) != ""
  {
    if n >= 10 {
      DecimalIsRead(n / 10);
      assert Decimal(n)[..|Decimal(n)| - 1] == Decimal(n / 10);
    }
  }

  // ---------- The library's string operations ----------

  predicate HasMin(s: string) {
    |s| >= 3 && (s[..3] == "min" || HasMin(s[1..]))
  }

  /** `replace("min", "")` */
  function WithoutMin(s: string): string {
    if |s| < 3 then s
    else if s[..3] == "min" then WithoutMin(s[3..])
    else [s[0]] + WithoutMin(s[1..])
  }

  /** `replace("h", "")` */
  function WithoutH(s: string): string {
    if s == "" then "" else (if s[0] == 'h' then "" else [s[0]]) + WithoutH(s[1..])
  }

  /** `replace("h", " ")` */
  function SpaceForH(s: string): string {
    if s == "" then "" else [if s[0] == 'h' then ' ' else s[0]] + SpaceForH(s[1..])
  }

  /** `split("h")` */
  function SplitH(s: string): (parts: seq<string>)
    ensures parts != []
  {
    if s == "" then [""]
    else
      var rest := SplitH(s[1..]);
      if s[0] == 'h' then [""] + rest else [[s[0]] + rest[0]] + rest[1..]
  }

  predicate IsSpace(c: char) {
    c == ' ' || c == '\t' || c == '\n' || c == '\r'
  }

  function WordLength(s: string): (k: nat)
    ensures k <= |s|
  {
    if s == "" || IsSpace(s[0]) then 0 else 1 + WordLength(s[1..])
  }

  /** `split()` */
  function Words(s: string): seq<string>
    decreases |s|
  {
    if s == "" then []
    else if IsSpace(s[0]) then Words(s[1..])
    else [s[..WordLength(s)]] + Words(s[WordLength(s)..])
  }

  // ---------- The printer and the parsers ----------

  function HoursOf(m: real): int {
    (m / 60.0).Floor
  }

  /** The remainder modulo 60. */
  function MinutesOf(m: real): real {
    m - 60.0 * HoursOf(m) as real
  }

  /** The text of a number of minutes. */
  function Print(m: real): string
    requires m >= 0.0
  {
    if m < 60.0 then Decimal(m.Floor) + "min"
    else if MinutesOf(m) > 0.0 then Decimal(HoursOf(m)) + "h" + Decimal(MinutesOf(m).Floor) + "min"
    else Decimal(HoursOf(m)) + "h"
  }

  /** The parser of the hybrid itinerary, line 2009; None where it raises. */
  method ParseByParts(s: string) returns (result: Option<int>)
    ensures result == ByParts(s)
    ensures 'h' !in s && !HasMin(s) ==> result == Some(0)
  {
    if s == "" || s == "0min" {
      return Some(0);
    }
    var minutes := 0;
    if 'h' in s {
      var parts := SplitH(s);
      if parts[0] != "" {
        var hours := Int(parts[0]);
        if hours.None? {
          return None;
        }
        minutes := minutes + hours.value * 60;
      }
      if |parts| > 1 && parts[1] != "" {
        var minPart := WithoutMin(parts[1]);
        if minPart != "" {
          var rest := Int(minPart);
          if rest.None? {
            return None;
          }
          minutes := minutes + rest.value;
        }
      }
    } else if HasMin(s) {
      var all := Int(WithoutMin(s));
      if all.None? {
        return None;
      }
      minutes := all.value;
    }
    return Some(minutes);
  }

  /** A number, or zero for no text at all. */
  function IntOrZero(s: string): Option<int> {
    if s == "" then Some(0) else if Int(s).Some? then Some(Int(s).value) else None
  }

  function HoursAndRest(parts: seq<string>): Option<int>
    requires parts != []
  {
    var hours, rest := IntOrZero(parts[0]), IntOrZero(if |parts| > 1 then WithoutMin(parts[1]) else "");
    if hours.Some? && rest.Some? then Some(hours.value * 60 + rest.value) else None
  }

  function ByParts(s: string): Option<int> {
    if s == "" || s == "0min" then Some(0)
    else if 'h' in s then HoursAndRest(SplitH(s))
    else if HasMin(s) then Read(WithoutMin(s), 1)
    else Some(0)
  }

  /** A number of minutes, or of hours. */
  function Read(s: string, unit: int): Option<int> {
    if Int(s).Some? then Some(Int(s).value * unit) else None
  }

  function TwoNumbers(words: seq<string>): Option<int> {
    if |words| >= 2 && Int(words[0]).Some? && Int(words[1]).Some?
    then Some(Int(words[0]).value * 60 + Int(words[1]).value) else None
  }

  /** The parser of the other endpoint, line 3352; None where it raises. */
  function ByWords(s: string): Option<int> {
    if s == "" || s == "0min" then Some(0)
    else if 'h' in s && HasMin(s) then TwoNumbers(Words(WithoutMin(SpaceForH(s))))
    else if 'h' in s then Read(WithoutH(s), 60)
    else if HasMin(s) then Read(WithoutMin(s), 1)
    else Some(0)
  }

  // ---------- Digits pass through ----------

  lemma {:induction false} MinAfterDigits(d: string, t: string)
    requires Digits(d)
    ensures WithoutMin(d + t) == d + WithoutMin(t) && (HasMin(d + t) <==> HasMin(t))
  {
    if d == "" {
      assert d + t == t;
    } else {
      MinAfterDigits(d[1..], t);
      assert (d + t)[1..] == d[1..] + t && (d + t)[0] == d[0];
      if |d + t| >= 3 {
        assert (d + t)[..3][0] == d[0];
      } else {
        assert d[1..] + t == d[1..] + WithoutMin(t);
      }
    }
  }

  lemma {:induction false} HAfter(d: string, t: string)
    requires 'h' !in d
    ensures WithoutH(d + t) == d + WithoutH(t) && SpaceForH(d + t) == d + SpaceForH(t)
  {
    if d == "" {
      assert d + t == t;
    } else {
      HAfter(d[1..], t);
      assert (d + t)[1..] == d[1..] + t && (d + t)[0] == d[0] && d[0] in d;
      assert [d[0]] + (d[1..] + WithoutH(t)) == d + WithoutH(t);
      assert [d[0]] + (d[1..] + SpaceForH(t)) == d + SpaceForH(t);
    }
  }

  lemma SplitCons(c: char, s: string)
    requires c != 'h'
    ensures SplitH([c] + s) == [[c] + SplitH(s)[0]] + SplitH(s)[1..]
  {
    assert ([c] + s)[1..] == s;
  }

  lemma {:induction false} SplitAfter(d: string, t: string)
    requires 'h' !in d
    ensures SplitH(d + t) == [d + SplitH(t)[0]] + SplitH(t)[1..]
  {
    if d == "" {
      assert d + t == t && d + SplitH(t)[0] == SplitH(t)[0];
    } else {
      assert d[0] in d;
      SplitAfter(d[1..], t);
      SplitCons(d[0], d[1..] + t);
      assert [d[0]] + (d[1..] + t) == d + t;
      assert [d[0]] + (d[1..] + SplitH(t)[0]) == d + SplitH(t)[0];
    }
  }

  lemma WithoutAnyH(d: string)
    requires 'h' !in d
    ensures SplitH(d) == [d] && SpaceForH(d) == d && WithoutH(d) == d
  {
    HAfter(d, "");
    SplitAfter(d, "");
    assert d + "" == d;
  }

  lemma {:induction false} WordOfDigits(d: string, t: string)
    requires Digits(d) && (t == "" || IsSpace(t[0]))
    ensures WordLength(d + t) == |d|
  {
    if d == "" {
      assert d + t == t;
    } else {
      WordOfDigits(d[1..], t);
      assert (d + t)[1..] == d[1..] + t && (d + t)[0] == d[0];
    }
  }

  lemma OneWord(e: string)
    requires Digits(e) && e != ""
    ensures Words(e) == [e] && Words(" " + e) == [e]
  {
    WordOfDigits(e, "");
    assert e + "" == e && e[..|e|] == e && e[|e|..] == "";
    assert Words("") == [];
    assert (" " + e)[1..] == e && (" " + e)[0] == ' ';
  }

  lemma TwoWords(d: string, e: string)
    requires Digits(d) && Digits(e) && d != "" && e != ""
    ensures Words(d + (" " + e)) == [d, e]
  {
    var s, rest := d + (" " + e), " " + e;
    WordOfDigits(d, rest);
    OneWord(e);
    assert s[0] == d[0] && s[..|d|] == d && s[|d|..] == rest;
    assert Words(s) == [d] + Words(rest);
  }

  lemma NoH(d: string)
    requires Digits(d)
    ensures 'h' !in d && 'h' !in d + "min"
  {
    var s := d + "min";
    assert "min"[0] == 'm' && "min"[1] == 'i' && "min"[2] == 'n';
    forall i | 0 <= i < |s| ensures s[i] != 'h' {
      assert s[i] == if i < |d| then d[i] else "min"[i - |d|];
    }
  }

  lemma ParseMinutes(k: nat)
    ensures ReadAs(Decimal(k) + "min", k)
  {
    var d := Decimal(k);
    DecimalIsRead(k);
    NoH(d);
    MinAfterDigits(d, "min");
    assert WithoutMin("min") == "" && d + "" == d;
    if d + "min" == "0min" {
      assert d == "0" by {
        assert (d + "min")[..|d|] == d;
      }
    }
  }

  lemma ParseHours(k: nat)
    ensures ReadAs(Decimal(k) + "h", 60 * k)
  {
    var d := Decimal(k);
    DecimalIsRead(k);
    HoursAlone(d);
    ReadHours(d + "h", d, k);
  }

  lemma ReadHours(s: string, d: string, k: nat)
    requires s != "" && s != "0min" && 'h' in s && !HasMin(s) && SplitH(s) == [d, ""] && WithoutH(s) == d
    requires d != "" && Int(d) == Some(k)
    ensures ReadAs(s, 60 * k)
  {
    assert HoursAndRest([d, ""]) == Some(60 * k) && Read(d, 60) == Some(60 * k);
  }

  lemma HoursAlone(d: string)
    requires Digits(d) && d != ""
    ensures var s := d + "h";
      s != "" && s != "0min" && 'h' in s && !HasMin(s) && SplitH(s) == [d, ""] && WithoutH(s) == d
  {
    var s := d + "h";
    NoH(d);
    HAfter(d, "h");
    SplitAfter(d, "h");
    MinAfterDigits(d, "h");
    assert SplitH("h") == ["", ""] && WithoutH("h") == "";
    assert d + "" == d && s[|d|] == 'h';
    assert 'h' in s && 'h' !in "0min";
  }

  /** The text after an "h", split at it and searched for "min". */
  lemma AfterH(d: string, t: string)
    requires 'h' !in d && 'h' !in t
    ensures var s := d + ("h" + t); SplitH(s) == [d, t] && 'h' in s && (Digits(d) ==> (HasMin(s) <==> HasMin("h" + t)))
  {
    var s := d + ("h" + t);
    assert s[|d|] == 'h' && ("h" + t)[1..] == t && d + "" == d;
    WithoutAnyH(t);
    assert SplitH("h" + t) == ["", t];
    HAfter(d, "h" + t);
    SplitAfter(d, "h" + t);
    if Digits(d) {
      MinAfterDigits(d, "h" + t);
    }
  }

  lemma MinutesText(e: string)
    requires Digits(e)
    ensures 'h' !in e + "min" && HasMin(e + "min") && HasMin("h" + (e + "min")) && WithoutMin(e + "min") == e
  {
    NoH(e);
    MinAfterDigits(e, "min");
    assert WithoutMin("min") == "" && e + "" == e;
    assert ("h" + (e + "min"))[1..] == e + "min";
  }

  /** Hours and minutes as text, and what the library's operations make of it. */
  lemma TakenApart(d: string, e: string)
    requires Digits(d) && Digits(e) && d != "" && e != ""
    ensures var s := d + "h" + e + "min";
      && s != "" && s != "0min" && 'h' in s && HasMin(s)
      && SplitH(s) == [d, e + "min"] && WithoutMin(e + "min") == e
      && Words(WithoutMin(SpaceForH(s))) == [d, e]
  {
    assert d + "h" + e + "min" == d + ("h" + (e + "min"));
    NoH(d);
    MinutesText(e);
    AfterH(d, e + "min");
    assert 'h' !in "0min";
    SpacedWords(d, e);
  }

  lemma SpacedText(d: string, e: string)
    requires Digits(d) && Digits(e)
    ensures WithoutMin(SpaceForH(d + ("h" + (e + "min")))) == d + (" " + e)
  {
    var t := e + "min";
    NoH(d);
    NoH(e);
    WithoutAnyH(t);
    HAfter(d, "h" + t);
    SplitAfter(d, "h" + t);
    assert ("h" + t)[1..] == t && SpaceForH("h" + t) == " " + t;
    MinAfterDigits(d, " " + t);
    MinAfterDigits(e, "min");
    assert WithoutMin("min") == "" && e + "" == e;
    assert (" " + t)[1..] == t && (" " + t)[..3] != "min" by {
      assert (" " + t)[..3][0] == ' ';
    }
    assert WithoutMin(" " + t) == " " + e;
  }

  lemma SpacedWords(d: string, e: string)
    requires Digits(d) && Digits(e) && d != "" && e != ""
    ensures Words(WithoutMin(SpaceForH(d + ("h" + (e + "min"))))) == [d, e]
  {
    SpacedText(d, e);
    TwoWords(d, e);
  }

  lemma ParseHoursMinutes(k: nat, r: nat)
    ensures ReadAs(Decimal(k) + "h" + Decimal(r) + "min", 60 * k + r)
  {
    DecimalIsRead(k);
    DecimalIsRead(r);
    TakenApart(Decimal(k), Decimal(r));
    ReadApart(Decimal(k) + "h" + Decimal(r) + "min", Decimal(k), Decimal(r), Decimal(r) + "min", k, r);
  }

  lemma ReadApart(s: string, d: string, e: string, t: string, k: nat, r: nat)
    requires s != "" && s != "0min" && 'h' in s && HasMin(s)
    requires SplitH(s) == [d, t] && Words(WithoutMin(SpaceForH(s))) == [d, e]
    requires WithoutMin(t) == e && d != "" && e != "" && Int(d) == Some(k) && Int(e) == Some(r)
    ensures ReadAs(s, 60 * k + r)
  {
    NumbersApart(d, e, t, k, r);
  }

  lemma NumbersApart(d: string, e: string, t: string, k: nat, r: nat)
    requires WithoutMin(t) == e && d != "" && e != "" && Int(d) == Some(k) && Int(e) == Some(r)
    ensures HoursAndRest([d, t]) == Some(60 * k + r) && TwoNumbers([d, e]) == Some(60 * k + r)
  {
  }

  lemma HoursAndMinutes(m: real)
    requires m >= 0.0
    ensures HoursOf(m) >= 0 && 0.0 <= MinutesOf(m) < 60.0
    ensures m.Floor == 60 * HoursOf(m) + MinutesOf(m).Floor
  {
    var h := HoursOf(m);
    assert h as real <= m / 60.0 < (h + 1) as real;
    var r := MinutesOf(m).Floor;
    assert (60 * h + r) as real <= m < (60 * h + r + 1) as real;
  }

  /** Both parsers read a text as so many minutes. */
  predicate ReadAs(s: string, minutes: int) {
    ByParts(s) == Some(minutes) && ByWords(s) == Some(minutes)
  }

  /**
    For every number of minutes, the text of the hybrid itinerary is read as the whole minutes of it, by its own
    parser and by that of the other endpoint.
   */
  lemma PrintedIsRead(m: real)
    requires m >= 0.0
    ensures ReadAs(Print(m), m.Floor)
  {
    HoursAndMinutes(m);
    ShapeIsRead(Print(m), m < 60.0, MinutesOf(m) > 0.0, m.Floor, HoursOf(m), MinutesOf(m).Floor);
  }

  /**
    Which text is printed: minutes alone below an hour, hours alone for whole hours, and else hours and the whole
    minutes past them.
   */
  lemma PrintedText(m: real)
    requires m >= 0.0
    ensures var hours, minutes := m.Floor / 60, m.Floor % 60;
      Print(m) ==
        if m < 60.0 then Decimal(minutes) + "min"
        else if m == (60 * hours) as real then Decimal(hours) + "h"
        else Decimal(hours) + "h" + Decimal(minutes) + "min"
  {
    HoursAndMinutes(m);
    WholeHours(m, HoursOf(m));
    ShapeIsText(Print(m), m < 60.0, MinutesOf(m) > 0.0, m.Floor, HoursOf(m), MinutesOf(m).Floor);
  }

  lemma WholeHours(m: real, hours: int)
    requires hours == HoursOf(m) && MinutesOf(m) >= 0.0
    ensures MinutesOf(m) > 0.0 <==> m != (60 * hours) as real
  {
  }

  lemma ShapeIsText(s: string, short: bool, half: bool, all: nat, hours: nat, minutes: nat)
    requires s == if short then Decimal(all) + "min"
                  else if half then Decimal(hours) + "h" + Decimal(minutes) + "min"
                  else Decimal(hours) + "h"
    requires all == 60 * hours + minutes && minutes < 60 && (short ==> hours == 0)
    ensures hours == all / 60
    ensures s == if short then Decimal(all % 60) + "min"
                 else if half then Decimal(all / 60) + "h" + Decimal(all % 60) + "min"
                 else Decimal(all / 60) + "h"
  {
    DividedBy60(all, hours, minutes);
  }

  lemma DividedBy60(n: nat, q: int, r: int)
    requires n == 60 * q + r && 0 <= r < 60
    ensures q == n / 60 && r == n % 60
  {
  }

  lemma ShapeIsRead(s: string, short: bool, half: bool, all: nat, hours: nat, minutes: nat)
    requires s == if short then Decimal(all) + "min"
                  else if half then Decimal(hours) + "h" + Decimal(minutes) + "min"
                  else Decimal(hours) + "h"
    requires all == 60 * hours + minutes && (half || minutes == 0)
    ensures ReadAs(s, all)
  {
    if short {
      ParseMinutes(all);
    } else if half {
      ParseHoursMinutes(hours, minutes);
    } else {
      ParseHours(hours);
    }
  }

  /** Two durations with the same text have the same whole minutes. */
  lemma PrintTellsMinutes(a: real, b: real)
    requires a >= 0.0 && b >= 0.0 && Print(a) == Print(b)
    ensures a.Floor == b.Floor
  {
    PrintedIsRead(a);
    PrintedIsRead(b);
  }

  // ---------- The plain sum of minutes ----------

  /**
    The sum of a day's minutes as Python holds it: an integer, or a floating-point number, of which the text
    matters: its whole part and its decimals, of which there is at least one.
   */
  datatype Sum = Whole(minutes: nat) | Float(whole: nat, decimals: string)

  predicate IsSum(x: Sum) {
    x.Float? ==> Digits(x.decimals) && x.decimals != ""
  }

  function PrintSum(x: Sum): string {
    match x
    case Whole(minutes) => Decimal(minutes) + "min"
    case Float(whole, decimals) => Decimal(whole) + "." + decimals + "min"
  }

  lemma {:induction false} IntReadsDigits(s: string)
    requires Int(s).Some?
    ensures Digits(s)
  {
    var init, last := s[..|s| - 1], s[|s| - 1];
    assert s == init + [last];
    if |s| > 1 {
      IntReadsDigits(init);
    }
  }

  lemma PointIsNoDigit(d: string, e: string)
    ensures Int(d + "." + e) == None
  {
    var s := d + "." + e;
    assert s[|d|] == '.';
    if Int(s).Some? {
      IntReadsDigits(s);
    }
  }

  lemma FloatText(d: string, e: string)
    requires Digits(d) && Digits(e)
    ensures var s := d + "." + e + "min"; 'h' !in s && HasMin(s) && WithoutMin(s) == d + "." + e
  {
    var t := e + "min";
    assert d + "." + e + "min" == d + ("." + t);
    NoH(d);
    NoH(e);
    MinAfterDigits(e, "min");
    assert WithoutMin("min") == "" && e + "" == e;
    assert ("." + t)[1..] == t && ("." + t)[..3][0] == '.';
    assert WithoutMin("." + t) == "." + e && HasMin("." + t);
    MinAfterDigits(d, "." + t);
    assert d + ("." + e) == d + "." + e;
    NoHAround(d, t);
  }

  lemma NoHAround(d: string, t: string)
    requires 'h' !in d && 'h' !in t
    ensures 'h' !in d + ("." + t)
  {
    var s := d + ("." + t);
    forall i | 0 <= i < |s| ensures s[i] != 'h' {
      assert s[i] == if i < |d| then d[i] else if i == |d| then '.' else t[i - |d| - 1];
    }
  }

  /** What either parser makes of a plain sum: an integer is read back, a floating-point number raises, even a whole one. */
  lemma SumIsReadIff(x: Sum)
    requires IsSum(x)
    ensures ByWords(PrintSum(x)) == (if x.Whole? then Some(x.minutes) else None)
    ensures ByParts(PrintSum(x)) == ByWords(PrintSum(x))
  {
    match x
    case Whole(minutes) =>
      ParseMinutes(minutes);
    case Float(whole, decimals) =>
      DecimalIsRead(whole);
      FloatText(Decimal(whole), decimals);
      PointIsNoDigit(Decimal(whole), decimals);
      assert PrintSum(x)[|Decimal(whole)|] == '.' && |PrintSum(x)| > 4;
  }

  // ---------- Where the parsers agree ----------

  /** Texts of hours and minutes, either of which may lack its number. */
  function HoursAndMinutesText(d: string, e: string): string {
    d + "h" + e + "min"
  }

  /**
    On texts of minutes the parsers always agree; on texts of hours, and of hours and minutes, they agree if and
    only if no number is missing, as in every text that is printed.  Where one is, the first parser takes it for
    zero and the second raises.
   */
  lemma ParsersAgreeIff(d: string, e: string)
    requires Digits(d) && Digits(e)
    ensures ByParts(e + "min") == ByWords(e + "min")
    ensures ByParts(d + "h") == ByWords(d + "h") <==> d != ""
    ensures ByParts(HoursAndMinutesText(d, e)) == ByWords(HoursAndMinutesText(d, e)) <==> d != "" && e != ""
  {
    MinutesText(e);
    HoursOnlyAgreeIff(d);
    if d != "" && e != "" {
      TakenApart(d, e);
      DigitsAreRead(d);
      DigitsAreRead(e);
      ReadApart(HoursAndMinutesText(d, e), d, e, e + "min", Int(d).value, Int(e).value);
    } else {
      MissingNumber(d, e);
    }
  }

  lemma {:induction false} DigitsAreRead(d: string)
    requires Digits(d) && d != ""
    ensures Int(d).Some?
  {
    if |d| > 1 {
      DigitsAreRead(d[..|d| - 1]);
    }
  }

  lemma HoursOnlyAgreeIff(d: string)
    requires Digits(d)
    ensures ByParts(d + "h") == ByWords(d + "h") <==> d != ""
  {
    if d != "" {
      HoursAlone(d);
      DigitsAreRead(d);
      ReadHours(d + "h", d, Int(d).value);
    } else {
      assert d + "h" == "h";
      BareH();
    }
  }

  lemma BareH()
    ensures ByParts("h") == Some(0) && ByWords("h") == None
  {
    assert 'h' in "h" && !HasMin("h") && SplitH("h") == ["", ""] && WithoutH("h") == "";
    assert HoursAndRest(["", ""]) == Some(0);
  }

  lemma MissingNumber(d: string, e: string)
    requires Digits(d) && Digits(e) && (d == "" || e == "")
    ensures var s := HoursAndMinutesText(d, e); ByParts(s).Some? && ByWords(s) == None
  {
    var s := HoursAndMinutesText(d, e);
    assert s == d + ("h" + (e + "min"));
    NoH(d);
    MinutesText(e);
    AfterH(d, e + "min");
    assert 'h' !in "0min" && s != "0min";
    SpacedText(d, e);
    OneWordOnly(d, e);
    PartsAreRead(d, e);
  }

  lemma PartsAreRead(d: string, e: string)
    requires Digits(d) && Digits(e)
    ensures HoursAndRest([d, e + "min"]).Some?
  {
    MinutesText(e);
    if d != "" {
      DigitsAreRead(d);
    }
    if e != "" {
      DigitsAreRead(e);
    }
  }

  lemma OneWordOnly(d: string, e: string)
    requires Digits(d) && Digits(e) && (d == "" || e == "")
    ensures |Words(d + (" " + e))| < 2
  {
    var s := d + (" " + e);
    if d == "" {
      assert s == " " + e && s[1..] == e;
      if e != "" {
        OneWord(e);
      }
    } else {
      WordOfDigits(d, " ");
      assert s == d + " " && s[..|d|] == d && s[|d|..] == " " && s[0] == d[0];
      assert " "[1..] == "" && Words(" ") == [];
      assert Words(s) == [d] + Words(" ");
    }
  }
}

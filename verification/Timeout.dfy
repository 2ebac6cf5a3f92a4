/** Time limits such as "3h23m45s": the parser and the texts it reads back exactly. */
module Timeout {
  import opened Wrappers

  datatype Units = Hours | Minutes | Seconds | Bare

  // ---------------------------------------------------------------- numbers

  predicate IsDigit(c: char) {
    '0' <= c <= '9'
  }

  predicate IsBlank(c: char) {
    c == ' ' || '\t' <= c <= '\r'
  }

  function DigitValue(c: char): nat
    requires IsDigit(c)
  {
    (c - '0') as int
  }

  /** The decimal text of a number. */
  function Decimal(n: nat): (s: string)
    ensures s != "" && IsDigit(s[0])
    ensures forall i :: 0 <= i < |s| ==> IsDigit(s[i])
  {
    if n < 10 then ['0' + n as char] else Decimal(n / 10) + ['0' + (n % 10) as char]
  }

  /** Digits read so far, and what follows the last one. */
  function ReadDigits(s: string, sofar: nat): (nat, string) {
    if s == "" || !IsDigit(s[0]) then (sofar, s) else ReadDigits(s[1..], 10 * sofar + DigitValue(s[0]))
  }

  function SkipBlanks(s: string): string {
    if s != "" && IsBlank(s[0]) then SkipBlanks(s[1..]) else s
  }

  /** `strtol` in base 10: blanks, a sign and digits; without digits, zero and the whole string. */
  function Strtol(s: string): (int, string) {
    var t := SkipBlanks(s);
    var negative := t != "" && t[0] == '-';
    var u := if t != "" && (t[0] == '-' || t[0] == '+') then t[1..] else t;
    if u == "" || !IsDigit(u[0]) then (0, s)
    else
      var (n, rest) := ReadDigits(u, 0);
      (if negative then 0 - n else n as int, rest)
  }

  lemma {:induction false} ReadsDecimal(n: nat, rest: string)
    ensures ReadDigits(Decimal(n) + rest, 0) == ReadDigits(rest, n)
  {
    var d := ['0' + (n % 10) as char];
    if n < 10 {
      assert (d + rest)[1..] == rest;
    } else {
      ReadsDecimal(n / 10, d + rest);
      assert Decimal(n) + rest == Decimal(n / 10) + (d + rest);
      assert (d + rest)[1..] == rest;
    }
  }

  /** Two numbers have different texts. */
  lemma DecimalInjective(a: nat, b: nat)
    requires Decimal(a) == Decimal(b)
    ensures a == b
  {
    ReadsDecimal(a, "");
    ReadsDecimal(b, "");
  }

  lemma StrtolReads(n: nat, rest: string)
    requires rest == "" || !IsDigit(rest[0])
    ensures Strtol(Decimal(n) + rest) == (n as int, rest)
  {
    ReadsDecimal(n, rest);
    var s := Decimal(n) + rest;
    assert s[0] == Decimal(n)[0];
    assert SkipBlanks(s) == s;
  }

  /** Blanks before a number are skipped, a sign may stand before its digits. */
  lemma StrtolSkips(c: char, n: nat, rest: string)
    requires rest == "" || !IsDigit(rest[0])
    ensures c in [' ', '\t', '\n', '\U{0B}', '\U{0C}', '\r'] ==> Strtol([c] + (Decimal(n) + rest)) == (n as int, rest)
    ensures Strtol("+" + (Decimal(n) + rest)) == (n as int, rest)
    ensures Strtol("-" + (Decimal(n) + rest)) == (0 - n, rest)
  {
    var s := Decimal(n) + rest;
    StrtolReads(n, rest);
    ReadsDecimal(n, rest);
    assert s[0] == Decimal(n)[0];
    assert SkipBlanks(s) == s;
    assert ([c] + s)[1..] == s && ("+" + s)[1..] == s && ("-" + s)[1..] == s;
    assert SkipBlanks("+" + s) == "+" + s && SkipBlanks("-" + s) == "-" + s;
  }

  // ---------------------------------------------------------------- one value

  datatype Parsed = Parsed(value: int, rest: string, units: Units)

  /** What one `parse_value` leaves: a wrong character is reported, but the units stay
      what they were and the string is not advanced past it. */
  function Value(s: string, before: Units): Parsed {
    var (n, rest) := Strtol(s);
    if rest == "" then Parsed(n, rest, Bare)
    else if rest[0] == 'h' then Parsed(n, rest[1..], Hours)
    else if rest[0] == 'm' then Parsed(n, rest[1..], Minutes)
    else if rest[0] == 's' then Parsed(n, rest[1..], Seconds)
    else Parsed(n, rest, before)
  }

  /** `parse_value`. */
  method ParseValue(s: string, before: Units) returns (value: int, rest: string, units: Units)
    ensures Parsed(value, rest, units) == Value(s, before)
    ensures forall n: nat, tail: string {:trigger Decimal(n) + "h" + tail} :: s == Decimal(n) + "h" + tail ==> value == n && rest == tail && units == Hours
    ensures forall n: nat, tail: string {:trigger Decimal(n) + "m" + tail} :: s == Decimal(n) + "m" + tail ==> value == n && rest == tail && units == Minutes
    ensures forall n: nat, tail: string {:trigger Decimal(n) + "s" + tail} :: s == Decimal(n) + "s" + tail ==> value == n && rest == tail && units == Seconds
    ensures forall n: nat {:trigger Decimal(n)} :: s == Decimal(n) ==> value == n && rest == "" && units == Bare
  {
    forall n: nat, tail: string
      ensures s == Decimal(n) + "h" + tail ==> Value(s, before) == Parsed(n, tail, Hours)
      ensures s == Decimal(n) + "m" + tail ==> Value(s, before) == Parsed(n, tail, Minutes)
      ensures s == Decimal(n) + "s" + tail ==> Value(s, before) == Parsed(n, tail, Seconds)
    {
      ParsesDigits(n, tail, before);
    }
    forall n: nat
      ensures s == Decimal(n) ==> Value(s, before) == Parsed(n, "", Bare)
    {
      ParsesDigits(n, "", before);
    }
    var (n, tail) := Strtol(s);
    value, rest, units := n, tail, before;
    if rest == "" {
      units := Bare;
    } else {
      match rest[0]
      case 'h' => units, rest := Hours, rest[1..];
      case 'm' => units, rest := Minutes, rest[1..];
      case 's' => units, rest := Seconds, rest[1..];
      case _ =>
    }
  }

  /** `parse_timeout`: the duration, whether the limit was accepted, and what was left
      unread.  `before` stands for the units variable nothing has set yet. */
  method ParseTimeout(limit: string, before: Units) returns (duration: int, accepted: bool, rest: string)
    ensures (duration, accepted, rest) == Limit(limit, before)
  {
    var value, units;
    duration := 0;
    value, rest, units := ParseValue(limit, before);
    if units == Hours {
      duration := 60 * 60 * value;
      value, rest, units := ParseValue(rest, units);
    }
    if units == Minutes {
      duration := duration + 60 * value;
      value, rest, units := ParseValue(rest, units);
    }
    if units == Seconds {
      duration := duration + value;
      value, rest, units := ParseValue(rest, units);
    }
    if units == Bare {
      duration := duration + value;
      return duration, true, rest;
    }
    accepted := false;
  }

  /** One stage: a value in `units` adds its seconds, and the next value is read. */
  function Stage(p: Parsed, units: Units, each: int, duration: int): (Parsed, int) {
    if p.units == units then (Value(p.rest, p.units), duration + each * p.value) else (p, duration)
  }

  function Limit(limit: string, before: Units): (int, bool, string) {
    var p := Value(limit, before);
    var (q, d) := Stage(p, Hours, 3600, 0);
    var (r, e) := Stage(q, Minutes, 60, d);
    var (t, f) := Stage(r, Seconds, 1, e);
    if t.units == Bare then (f + t.value, true, t.rest) else (f, false, t.rest)
  }

  // ---------------------------------------------------------------- round trip


  function Field(n: Option<nat>, unit: string): string {
    if n.None? then "" else Decimal(n.value) + unit
  }

  function Count(n: Option<nat>): nat {
    if n.None? then 0 else n.value
  }

  /** A limit with any of the three fields, in order, and perhaps a bare number of seconds. */
  function Print(h: Option<nat>, m: Option<nat>, s: Option<nat>, bare: Option<nat>): string {
    Field(h, "h") + (Field(m, "m") + (Field(s, "s") + Field(bare, "")))
  }

  lemma ReadsField(n: nat, unit: char, rest: string, before: Units)
    requires unit in "hms"
    ensures Value(Decimal(n) + [unit] + rest, before) ==
            Parsed(n, rest, if unit == 'h' then Hours else if unit == 'm' then Minutes else Seconds)
  {
    assert Decimal(n) + [unit] + rest == Decimal(n) + ([unit] + rest);
    StrtolReads(n, [unit] + rest);
    assert ([unit] + rest)[1..] == rest;
  }

  lemma ReadsBare(n: Option<nat>, before: Units)
    ensures Value(Field(n, ""), before) == Parsed(Count(n), "", Bare)
  {
    if n.Some? {
      StrtolReads(n.value, "");
      assert Decimal(n.value) + "" == Decimal(n.value);
    }
  }

  /** A digit text followed by a unit letter is read as its number with that unit, up to
      behind the letter; followed by nothing it is a bare number. */
  lemma ParsesDigits(n: nat, rest: string, before: Units)
    ensures Value(Decimal(n) + "h" + rest, before) == Parsed(n, rest, Hours)
    ensures Value(Decimal(n) + "m" + rest, before) == Parsed(n, rest, Minutes)
    ensures Value(Decimal(n) + "s" + rest, before) == Parsed(n, rest, Seconds)
    ensures Value(Decimal(n), before) == Parsed(n, "", Bare)
  {
    ReadsField(n, 'h', rest, before);
    ReadsField(n, 'm', rest, before);
    ReadsField(n, 's', rest, before);
    ReadsBare(Some(n), before);
    assert Decimal(n) + "" == Decimal(n);
  }

  /** The value first read from a field and what follows: the field's, or the follower's. */
  lemma ReadsNext(n: Option<nat>, unit: char, rest: string, before: Units)
    requires unit in "hms"
    ensures n.None? ==> Value(Field(n, [unit]) + rest, before) == Value(rest, before)
    ensures n.Some? ==> Value(Field(n, [unit]) + rest, before) ==
                        Parsed(n.value, rest, if unit == 'h' then Hours else if unit == 'm' then Minutes else Seconds)
  {
    if n.None? {
      assert "" + rest == rest;
    } else {
      ReadsField(n.value, unit, rest, before);
    }
  }

  /** Every printed limit is accepted, wholly consumed, and means its fields' sum. */
  lemma PrintedLimitsParse(h: Option<nat>, m: Option<nat>, s: Option<nat>, bare: Option<nat>, before: Units)
    ensures Limit(Print(h, m, s, bare), before) == (3600 * Count(h) + 60 * Count(m) + Count(s) + Count(bare), true, "")
  {
    hide Value, Field;
    var b := Field(bare, "");
    var ss := Field(s, "s") + b;
    var ms := Field(m, "m") + ss;
    forall units: Units
      ensures Value(b, units) == Parsed(Count(bare), "", Bare)
    {
      ReadsBare(bare, units);
    }
    forall units: Units
      ensures s.None? ==> Value(ss, units) == Value(b, units)
      ensures s.Some? ==> Value(ss, units) == Parsed(s.value, b, Seconds)
    {
      ReadsNext(s, 's', b, units);
    }
    forall units: Units
      ensures m.None? ==> Value(ms, units) == Value(ss, units)
      ensures m.Some? ==> Value(ms, units) == Parsed(m.value, ss, Minutes)
    {
      ReadsNext(m, 'm', ss, units);
    }
    ReadsNext(h, 'h', ms, before);
  }

  function Letter(units: Units): string {
    match units
    case Hours => "h"
    case Minutes => "m"
    case Seconds => "s"
    case Bare => ""
  }

  function Place(units: Units): nat {
    match units
    case Hours => 0
    case Minutes => 1
    case Seconds => 2
    case Bare => 3
  }

  /** Two fields are accepted exactly when they come in order: a repeated or earlier unit
      is refused, whatever the units variable held before. */
  lemma TwoFieldsAccepted(a: nat, u: Units, b: nat, v: Units, before: Units)
    requires u != Bare && v != Bare
    ensures Limit(Decimal(a) + Letter(u) + (Decimal(b) + Letter(v)), before).1 <==> Place(u) < Place(v)
  {
    var second := Decimal(b) + Letter(v);
    ReadsField(a, Letter(u)[0], second, before);
    ReadsField(b, Letter(v)[0], "", u);
    assert Decimal(b) + [Letter(v)[0]] + "" == second;
    ReadsBare(None, v);
    assert [Letter(u)[0]] == Letter(u);
  }

  // ---------------------------------------------------------------- which limits are accepted

  /** The text read by the stage of `u`: a last bare number, or a number of a later unit
      and a text that its stage accepts. */
  predicate Continues(s: string, u: Units)
    decreases 3 - Place(u)
  {
    var (_, r) := Strtol(s);
    || r == ""
    || (r[0] == 'm' && Place(u) < Place(Minutes) && Continues(r[1..], Minutes))
    || (r[0] == 's' && Place(u) < Place(Seconds) && Continues(r[1..], Seconds))
  }

  predicate HasWrongCharacter(limit: string) {
    var (_, rest) := Strtol(limit);
    rest != "" && rest[0] !in "hms"
  }

  /** The first unit of a limit, or what the unset variable held when there is none. */
  function FirstUnit(limit: string, before: Units): Units {
    Value(limit, before).units
  }

  /** A limit is accepted exactly when what follows its first value continues it in the
      order of units; without a unit letter there, the unset variable decides. */
  lemma AcceptedExactly(limit: string, before: Units)
    ensures Limit(limit, before).1
            <==> FirstUnit(limit, before) == Bare || Continues(Value(limit, before).rest, FirstUnit(limit, before))
  {
    var p := Value(limit, before);
    var (_, r) := Strtol(p.rest);
    if p.units == Hours || p.units == Minutes {
      var q := Value(p.rest, p.units);
      if q.units == Minutes || q.units == Seconds {
        var (_, r2) := Strtol(q.rest);
      }
    }
  }

  /** A limit whose first value is followed by a wrong character, or that has no first
      number, is accepted exactly when the unset units variable held "none", or held a unit
      in whose stage the unread text, from that character on, is one the stage accepts. */
  lemma WrongCharacterAccepted(limit: string, before: Units)
    requires HasWrongCharacter(limit)
    ensures Limit(limit, before).1 <==> before == Bare || Continues(Strtol(limit).1, before)
    ensures before == Bare ==> Limit(limit, before) == (Strtol(limit).0, true, Strtol(limit).1)
  {
    AcceptedExactly(limit, before);
    assert Strtol(limit).1[0] != 'h' && Strtol(limit).1[0] != 'm' && Strtol(limit).1[0] != 's' by {
      assert "hms"[0] == 'h' && "hms"[1] == 'm' && "hms"[2] == 's';
    }
  }

  /** When no number can be read from the wrong character on, only "none" accepts it. */
  lemma UnreadableRest(limit: string, before: Units)
    requires HasWrongCharacter(limit) && Strtol(Strtol(limit).1).1 == Strtol(limit).1
    ensures Limit(limit, before).1 <==> before == Bare
  {
    WrongCharacterAccepted(limit, before);
    assert Strtol(limit).1[0] != 'm' && Strtol(limit).1[0] != 's' by {
      assert "hms"[1] == 'm' && "hms"[2] == 's';
    }
  }

  /** When all from the wrong character on is a number, every value accepts it. */
  lemma NumberInRest(limit: string, before: Units)
    requires HasWrongCharacter(limit) && Strtol(Strtol(limit).1).1 == ""
    ensures Limit(limit, before).1
  {
    WrongCharacterAccepted(limit, before);
  }

  /** A sign or a blank may be that character: "5-3" is five hours, minutes or seconds less
      three seconds, or five seconds with "-3" unread. */
  lemma FiveMinusThree(before: Units)
    ensures HasWrongCharacter("5-3")
    ensures Limit("5-3", before) ==
            match before
            case Hours => (17997, true, "")
            case Minutes => (297, true, "")
            case Seconds => (2, true, "")
            case Bare => (5, true, "-3")
  {
    var rest := "-3";
    assert Decimal(5) + rest == "5-3";
    assert Decimal(3) == "3";
    StrtolReads(5, rest);
    assert rest[1..] == "3";
    assert ReadDigits("3", 0) == (3, "") by {
      ReadsDecimal(3, "");
      assert Decimal(3) + "" == "3";
    }
    assert Strtol(rest) == (-3, "");
  }
}

/** The receiver's line format `RAIN=<int>,LEVEL=<text>,SERVO=<token>` and
    its parser `parse_line`. */
module Telemetry {
  import opened Text
  import opened Numbers

  /** The tuple `(rain_mm, level, servo)` one line parses to; `servo` is the
      0/1 value stored in the `TINYINT(1)` column. */
  datatype Reading = Reading(rainMm: int, level: string, servo: int)

  /** The three positional fields of a line, in wire order. */
  datatype Field = Rain | Level | Servo

  /** Why `parse_line` raised `ValueError`: wrong number of comma-separated
      fields, a field without its expected key, or a rain value that is not
      an integer. */
  datatype ParseError = FieldCount | FieldFormat(field: Field) | Numeric

  datatype ParseResult = Parsed(reading: Reading) | Failed(error: ParseError)

  /** The key prefix expected at each position, `=` included. */
  function KeyOf(f: Field): (k: string)
    ensures |k| > 1 && k[|k| - 1] == '=' && '=' !in k[..|k| - 1] && ',' !in k
    ensures !IsSpace(k[0])
  {
    match f
    case Rain => "RAIN="
    case Level => "LEVEL="
    case Servo => "SERVO="
  }

  /** `part.split('=', 1)[1]`: the text after the first `c` in `part`. */
  function AfterFirst(part: string, c: char): (r: string)
    requires c in part
    ensures |r| < |part| && r == part[|part| - |r|..]
    ensures part[|part| - |r| - 1] == c && c !in part[..|part| - |r| - 1]
  {
    if part[0] == c then part[1..] else AfterFirst(part[1..], c)
  }

  /** `part.split('=', 1)[1].strip()` for a field that starts with the key of
      position `f`. */
  function ValueOf(part: string, f: Field): (v: string)
    requires KeyOf(f) <= part
    ensures Trimmed(v)
  {
    assert part[|KeyOf(f)| - 1] == '=';
    Strip(AfterFirst(part, '='))
  }

  /** `1 if token.upper() == "ON" else 0` */
  function ServoFlag(token: string): (v: int)
    ensures v == 0 || v == 1
  {
    if Upper(token) == "ON" then 1 else 0
  }

  /** `parse_line`: split on commas, strip each field, check the three keys in
      order, take and strip each value after its first `=`, and parse the
      rain value as an integer last. */
  function ParseLine(line: string): (r: ParseResult)
    ensures r == Failed(FieldCount) <==> Count(line, ',') != 2
    ensures r.Parsed? ==> r.reading.servo == 0 || r.reading.servo == 1
    ensures r.Parsed? ==> Trimmed(r.reading.level)
  {
    var parts := Split(line, ',');
    if |parts| != 3 then Failed(FieldCount)
    else
      var rainPart := Strip(parts[0]);
      var levelPart := Strip(parts[1]);
      var servoPart := Strip(parts[2]);
      if !(KeyOf(Rain) <= rainPart) then Failed(FieldFormat(Rain))
      else if !(KeyOf(Level) <= levelPart) then Failed(FieldFormat(Level))
      else if !(KeyOf(Servo) <= servoPart) then Failed(FieldFormat(Servo))
      else
        var rainText := ValueOf(rainPart, Rain);
        var levelText := ValueOf(levelPart, Level);
        var servoText := ValueOf(servoPart, Servo);
        match ParseInt(rainText)
        case None => Failed(Numeric)
        case Some(n) => Parsed(Reading(n, levelText, ServoFlag(servoText)))
  }

  /** A line carrying the three values in wire order, each field preceded by
      the given padding. */
  function PaddedLine(w0: string, rain: string, w1: string, level: string, w2: string, servo: string): string
  {
    w0 + KeyOf(Rain) + rain + "," + w1 + KeyOf(Level) + level + "," + w2 + KeyOf(Servo) + servo
  }

  /** The line a sender writes for the three values. */
  function FormatLine(rain: string, level: string, servo: string): string
  {
    PaddedLine([], rain, [], level, [], servo)
  }

  lemma {:induction false} AfterFirstPrefix(p: string, t: string, c: char)
    requires c !in p
    ensures AfterFirst(p + [c] + t, c) == t
  {
    if p != [] {
      assert (p + [c] + t)[1..] == p[1..] + [c] + t;
      AfterFirstPrefix(p[1..], t, c);
    }
  }

  /** The text after a key's `=` is everything that follows the key, further
      `=` signs included. */
  lemma AfterKey(f: Field, t: string)
    ensures KeyOf(f) <= KeyOf(f) + t
    ensures AfterFirst(KeyOf(f) + t, '=') == t
  {
    var key := KeyOf(f);
    var name := key[..|key| - 1];
    assert key + t == name + ['='] + t;
    AfterFirstPrefix(name, t, '=');
  }

  /** The value of a field is everything after its key's `=`, stripped. */
  lemma ValueAfterKey(f: Field, a: string, m: string)
    requires AllSpace(a) && Trimmed(m)
    ensures KeyOf(f) <= KeyOf(f) + a + m
    ensures ValueOf(KeyOf(f) + a + m, f) == m
  {
    Associative(KeyOf(f), a, m);
    AfterKey(f, a + m);
    assert Strip(a + m) == m by {
      StripFrame(a, m, []);
      assert a + m + [] == a + m;
    }
  }

  /** A field is its key followed by its value; whitespace around the field
      and around the value is ignored. */
  lemma FieldValue(w: string, f: Field, v: string)
    requires AllSpace(w)
    ensures KeyOf(f) <= Strip(w + KeyOf(f) + v)
    ensures ValueOf(Strip(w + KeyOf(f) + v), f) == Strip(v)
  {
    var a := StripKeyed(w, KeyOf(f), v);
    ValueAfterKey(f, a, Strip(v));
  }

  lemma Regroup3(w0: string, k0: string, v0: string, w1: string, k1: string, v1: string,
                 w2: string, k2: string, v2: string)
    ensures w0 + k0 + v0 + "," + w1 + k1 + v1 + "," + w2 + k2 + v2
         == (w0 + k0 + v0) + [','] + (w1 + k1 + v1) + [','] + (w2 + k2 + v2)
  {
  }

  lemma SplitPadded(w0: string, rain: string, w1: string, level: string, w2: string, servo: string)
    requires AllSpace(w0) && AllSpace(w1) && AllSpace(w2)
    requires ',' !in rain && ',' !in level && ',' !in servo
    ensures Split(PaddedLine(w0, rain, w1, level, w2, servo), ',')
         == [w0 + KeyOf(Rain) + rain, w1 + KeyOf(Level) + level, w2 + KeyOf(Servo) + servo]
  {
    var p0 := w0 + KeyOf(Rain) + rain;
    var p1 := w1 + KeyOf(Level) + level;
    var p2 := w2 + KeyOf(Servo) + servo;
    assert ',' !in w0 && ',' !in w1 && ',' !in w2 by {
      assert !IsSpace(',');
    }
    assert ',' !in p0 && ',' !in p1 && ',' !in p2;
    SplitThree(p0, p1, p2, ',');
    Regroup3(w0, KeyOf(Rain), rain, w1, KeyOf(Level), level, w2, KeyOf(Servo), servo);
  }

  /** What `parse_line` makes of any line that has the three keys in order:
      whitespace around fields and values is ignored, and the result is
      decided by the rain value alone. */
  lemma ParseFields(w0: string, rain: string, w1: string, level: string, w2: string, servo: string)
    requires AllSpace(w0) && AllSpace(w1) && AllSpace(w2)
    requires ',' !in rain && ',' !in level && ',' !in servo
    ensures ParseLine(PaddedLine(w0, rain, w1, level, w2, servo))
         == match ParseInt(Strip(rain))
            case None => Failed(Numeric)
            case Some(n) => Parsed(Reading(n, Strip(level), ServoFlag(Strip(servo))))
  {
    SplitPadded(w0, rain, w1, level, w2, servo);
    FieldValue(w0, Rain, rain);
    FieldValue(w1, Level, level);
    FieldValue(w2, Servo, servo);
  }

  /** Whitespace around the fields and around the values does not change the
      result. */
  lemma WhitespaceIgnored(w0: string, rain: string, w1: string, level: string, w2: string, servo: string)
    requires AllSpace(w0) && AllSpace(w1) && AllSpace(w2)
    requires ',' !in rain && ',' !in level && ',' !in servo
    ensures ParseLine(PaddedLine(w0, rain, w1, level, w2, servo))
         == ParseLine(FormatLine(Strip(rain), Strip(level), Strip(servo)))
  {
    ParseFields(w0, rain, w1, level, w2, servo);
    StripIdempotent(rain);
    StripIdempotent(level);
    StripIdempotent(servo);
    StripOmits(rain, ',');
    StripOmits(level, ',');
    StripOmits(servo, ',');
    ParseFields([], Strip(rain), [], Strip(level), [], Strip(servo));
  }

  /** `str(n)` has neither a comma nor surrounding whitespace. */
  lemma NumeralIsClean(n: int)
    ensures ',' !in IntToString(n) && Trimmed(IntToString(n))
  {
    var s := IntToString(n);
    assert forall i :: 0 < i < |s| ==> IsDigit(s[i]);
    assert !IsDigit(',') && !IsSpace('-');
    assert n < 0 ==> |s| > 1;
  }

  /** `parse_line` inverts the sender's format: any integer, any level text
      without commas or surrounding whitespace, and any servo token without
      commas come back as written, the token reduced to its 0/1 flag. */
  lemma RoundTrip(n: int, level: string, token: string)
    requires ',' !in level && Trimmed(level) && ',' !in token
    ensures ParseLine(FormatLine(IntToString(n), level, token))
         == Parsed(Reading(n, level, ServoFlag(Strip(token))))
  {
    var s := IntToString(n);
    NumeralIsClean(n);
    StripTrimmed(s);
    StripTrimmed(level);
    ParseIntToString(n);
    ParseFields([], s, [], level, [], token);
  }

  /** The round trip for a servo token already free of surrounding
      whitespace, which reaches `upper()` as written. */
  lemma RoundTripTrimmed(n: int, level: string, token: string)
    requires ',' !in level && Trimmed(level) && ',' !in token && Trimmed(token)
    ensures ParseLine(FormatLine(IntToString(n), level, token)) == Parsed(Reading(n, level, ServoFlag(token)))
  {
    RoundTrip(n, level, token);
    StripTrimmed(token);
  }

  /** A rain value that is not an integer once stripped, such as `abc` or
      the empty text, fails the whole line with a numeric error; no range is
      checked, so every integer, negative ones included, is accepted. */
  lemma RainMustBeInteger(rain: string, level: string, servo: string)
    requires ',' !in rain && ',' !in level && ',' !in servo
    ensures ParseLine(FormatLine(rain, level, servo)) == Failed(Numeric)
        <==> ParseInt(Strip(rain)) == None
    ensures ParseLine(FormatLine(rain, level, servo)).Parsed?
        ==> Some(ParseLine(FormatLine(rain, level, servo)).reading.rainMm) == ParseInt(Strip(rain))
  {
    ParseFields([], rain, [], level, [], servo);
  }

  /** The keys are checked in wire order, and all of them before the rain
      value is parsed: the leftmost field whose stripped text lacks its
      (case-sensitive) key is the one reported, whatever the other fields
      hold, and a numeric error is only ever reported for a line whose three
      keys are all in place. */
  lemma KeysCheckedInOrder(p0: string, p1: string, p2: string)
    requires ',' !in p0 && ',' !in p1 && ',' !in p2
    ensures !(KeyOf(Rain) <= Strip(p0))
        ==> ParseLine(p0 + "," + p1 + "," + p2) == Failed(FieldFormat(Rain))
    ensures KeyOf(Rain) <= Strip(p0) && !(KeyOf(Level) <= Strip(p1))
        ==> ParseLine(p0 + "," + p1 + "," + p2) == Failed(FieldFormat(Level))
    ensures KeyOf(Rain) <= Strip(p0) && KeyOf(Level) <= Strip(p1) && !(KeyOf(Servo) <= Strip(p2))
        ==> ParseLine(p0 + "," + p1 + "," + p2) == Failed(FieldFormat(Servo))
    ensures ParseLine(p0 + "," + p1 + "," + p2) == Failed(Numeric)
        ==> KeyOf(Rain) <= Strip(p0) && KeyOf(Level) <= Strip(p1) && KeyOf(Servo) <= Strip(p2)
  {
    SplitThree(p0, p1, p2, ',');
    assert p0 + "," + p1 + "," + p2 == p0 + [','] + p1 + [','] + p2;
  }

  lemma UpperCharIs(c: char, u: char, l: char)
    requires 'A' <= u <= 'Z' && l as int == u as int + 32
    ensures UpperChar(c) == u <==> c == u || c == l
  {
  }

  /** The servo flag is 1 exactly for the two-letter token "ON" in any mix of
      cases; every other token, the empty one included, gives 0. */
  lemma ServoOnExactly(token: string)
    ensures ServoFlag(token) == 1
        <==> |token| == 2 && (token[0] == 'o' || token[0] == 'O') && (token[1] == 'n' || token[1] == 'N')
  {
    UpperCharIs(if |token| > 0 then token[0] else 'O', 'O', 'o');
    UpperCharIs(if |token| > 1 then token[1] else 'N', 'N', 'n');
    if |token| == 2 {
      assert Upper(token) == [UpperChar(token[0]), UpperChar(token[1])];
    } else {
      assert |Upper(token)| != |"ON"|;
    }
  }
}

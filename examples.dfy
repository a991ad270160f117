/** The lines `parse_line` documents, and lines that show its edge cases,
    each worked out from the general lemmas. */
module ParserExamples {
  import opened Text
  import opened Numbers
  import opened Telemetry

  lemma DocumentedLine()
    ensures FormatLine(IntToString(23), "정상", "ON") == "RAIN=23,LEVEL=정상,SERVO=ON"
  {
    assert IntToString(23) == "23";
  }

  lemma DocumentedFields()
    ensures ',' !in "정상" && Trimmed("정상") && ',' !in "ON" && Trimmed("ON")
    ensures ServoFlag("ON") == 1
  {
    ServoOnExactly("ON");
  }

  lemma DocumentedRoundTrip()
    ensures ParseLine(FormatLine(IntToString(23), "정상", "ON")) == Parsed(Reading(23, "정상", 1))
  {
    DocumentedFields();
    RoundTripTrimmed(23, "정상", "ON");
  }

  /** The example in `parse_line`'s own documentation. */
  lemma DocumentedExample()
    ensures ParseLine("RAIN=23,LEVEL=정상,SERVO=ON") == Parsed(Reading(23, "정상", 1))
  {
    DocumentedLine();
    DocumentedRoundTrip();
  }

  /** A rain value that starts with anything but a digit or a sign, such as
      `abc`, `ABC` or `é5`, is a numeric error whatever the other fields
      hold. */
  lemma NonNumericRain(rain: string, level: string, servo: string)
    requires ',' !in rain && ',' !in level && ',' !in servo
    requires Strip(rain) != [] && !IsDigit(Strip(rain)[0])
    requires Strip(rain)[0] != '+' && Strip(rain)[0] != '-'
    ensures ParseLine(FormatLine(rain, level, servo)) == Failed(Numeric)
  {
    RainMustBeInteger(rain, level, servo);
  }

  /** So is an empty or blank rain value. */
  lemma EmptyRain(rain: string, level: string, servo: string)
    requires ',' !in rain && ',' !in level && ',' !in servo
    requires AllSpace(rain)
    ensures ParseLine(FormatLine(rain, level, servo)) == Failed(Numeric)
  {
    RainMustBeInteger(rain, level, servo);
  }

  lemma TwoFieldsSplit()
    ensures Split("RAIN=5,LEVEL=위험", ',') == ["RAIN=5", "LEVEL=위험"]
  {
    var parts := ["RAIN=5", "LEVEL=위험"];
    assert Join(parts, ',') == "RAIN=5,LEVEL=위험";
    SplitJoin(parts, ',');
  }

  /** Two fields are a field-count error. */
  lemma TwoFields()
    ensures ParseLine("RAIN=5,LEVEL=위험") == Failed(FieldCount)
  {
    TwoFieldsSplit();
  }

  lemma LowerRainKeyHasNoComma(rain: string)
    requires ',' !in rain
    ensures ',' !in "rain=" + rain
  {
  }

  lemma LowerRainKeyStripped(rain: string)
    ensures Strip("rain=" + rain)[0] == 'r'
  {
    var a := StripKeyed([], "rain=", rain);
    NoPrefix("rain=", rain);
  }

  lemma NoPrefix<T>(a: seq<T>, b: seq<T>)
    ensures [] + a + b == a + b
  {
  }

  /** Keys are case-sensitive: a lower-case rain key fails the rain field,
      whatever follows it. */
  lemma KeysAreCaseSensitive(rain: string, level: string, servo: string)
    requires ',' !in rain && ',' !in level && ',' !in servo
    ensures ParseLine("rain=" + rain + "," + level + "," + servo) == Failed(FieldFormat(Rain))
  {
    LowerRainKeyHasNoComma(rain);
    LowerRainKeyStripped(rain);
    KeysCheckedInOrder("rain=" + rain, level, servo);
  }

  /** Tokens other than "ON" in some mix of cases give 0, never an error. */
  lemma ServoTokens()
    ensures ServoFlag("on") == 1 && ServoFlag("oN") == 1
    ensures ServoFlag("OFF") == 0 && ServoFlag("") == 0 && ServoFlag("onn") == 0
  {
    ServoOnExactly("on");
    ServoOnExactly("oN");
    ServoOnExactly("OFF");
    ServoOnExactly("");
    ServoOnExactly("onn");
  }

  /** Whitespace around the servo value is stripped before it is compared. */
  lemma PaddedOn(w1: string, w2: string)
    requires AllSpace(w1) && AllSpace(w2)
    ensures ServoFlag(Strip(w1 + "On" + w2)) == 1
  {
    StripFrame(w1, "On", w2);
    ServoOnExactly("On");
  }

  /** Only the first `=` of a field separates key from value: a level value
      may itself contain `=`. */
  lemma LevelKeepsLaterEquals(n: int, token: string)
    requires ',' !in token
    ensures ParseLine(FormatLine(IntToString(n), "a=b", token)) == Parsed(Reading(n, "a=b", ServoFlag(Strip(token))))
  {
    RoundTrip(n, "a=b", token);
  }
}

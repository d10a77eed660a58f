/** Concrete lines and what `handle_data` decides for each, derived from the general
    properties of the decision. Where a lemma takes the line as a parameter pinned to a
    literal by its `requires`, that keeps the verifier from evaluating the literal through
    the recursive definitions of the parser; the statement is the same as about the
    literal itself. */
module UsbExamples {
  import opened Wrappers
  import opened RustCore
  import opened RustCoreLemmas
  import opened Usb
  import opened UsbProperties

  /** The prefix match is permissive: a keyword followed by more letters still counts. */
  lemma ArmrestMovesArm()
    ensures DecideLine("armrest 10") == Some(Move(ServoMoveRequest(Arm, 10)))
  {
    var sep := " ";
    assert AllWhitespace(sep);
    assert "armrest 10" == Keyword(Arm) + "rest" + sep + NatToDecimal(10) + [];
    DecimalHasNoWhitespace(10);
    ParseU8OfDecimal(10);
    ServoLineDecided(Arm, "rest", sep, NatToDecimal(10), []);
    PaddedLineDecided([], "armrest 10", []);
  }

  /** Words after the degrees are ignored. */
  lemma ExtraWordsIgnored()
    ensures DecideLine("arm 10 20") == Some(Move(ServoMoveRequest(Arm, 10)))
  {
    var sep := " ";
    assert AllWhitespace(sep);
    assert "arm 10 20" == Keyword(Arm) + [] + sep + NatToDecimal(10) + " 20";
    DecimalHasNoWhitespace(10);
    ParseU8OfDecimal(10);
    ServoLineDecided(Arm, [], sep, NatToDecimal(10), " 20");
    PaddedLineDecided([], "arm 10 20", []);
  }

  /** A line framed by spaces, a carriage return and a line feed is decided on the line
      inside. */
  lemma PaddedThumbLine(lead: string, trail: string)
    requires lead == "  " && trail == "\r\n"
    ensures DecideLine(lead + "thumb 90" + trail) == Some(Move(ServoMoveRequest(Thumb, 90)))
  {
    var sep := " ";
    assert AllWhitespace(sep);
    var line := Keyword(Thumb) + [] + sep + NatToDecimal(90) + [];
    assert line == "thumb 90";
    DecimalHasNoWhitespace(90);
    ParseU8OfDecimal(90);
    ServoLineDecided(Thumb, [], sep, NatToDecimal(90), []);
    assert AllWhitespace(lead) && AllWhitespace(trail);
    PaddedLineDecided(lead, line, trail);
  }

  /** Keywords are matched case-sensitively. */
  lemma UpperCaseKeywordIgnored(line: string)
    requires line == "ARM 10"
    ensures DecideTrimmed(line) == None
  {
    assert |line| == 6 && line[0] == 'A';
    assert !IsResetLine(line);
    forall s ensures !StartsWith(line, Keyword(s)) {
      assert |Keyword(s)| <= |line| ==> line[..|Keyword(s)|][0] == line[0];
    }
    DecideNothing(line);
  }

  /** A keyword alone has no second word. */
  lemma KeywordAloneIgnored(line: string)
    requires line == "arm"
    ensures DecideTrimmed(line) == None
  {
    assert |line| == 3 && !IsResetLine(line);
    assert NoWhitespace(line) by {
      forall i | 0 <= i < |line| ensures !IsWhitespace(line[i]) { assert line[i] in "arm"; }
    }
    OneWordHasNoDegrees(line);
    DecideNothing(line);
  }

  /** A keyword glued to its number is one word, so it has no second word either. */
  lemma GluedDegreesIgnored(line: string)
    requires line == "arm10"
    ensures DecideTrimmed(line) == None
  {
    assert |line| == 5 && !IsResetLine(line);
    assert NoWhitespace(line) by {
      forall i | 0 <= i < |line| ensures !IsWhitespace(line[i]) { assert line[i] in "arm10"; }
    }
    OneWordHasNoDegrees(line);
    DecideNothing(line);
  }

  /** Degrees outside `u8` are rejected. */
  lemma TooLargeDegreesIgnored()
    ensures DecideTrimmed("arm 300") == None
  {
    var sep := " ";
    assert AllWhitespace(sep);
    assert "arm 300" == Keyword(Arm) + [] + sep + NatToDecimal(300) + [];
    DecimalHasNoWhitespace(300);
    ParseU8OfDecimal(300);
    ServoLineDecided(Arm, [], sep, NatToDecimal(300), []);
  }

  /** Negative degrees are rejected. */
  lemma NegativeDegreesIgnored()
    ensures DecideTrimmed("arm -1") == None
  {
    var sep := " ";
    assert AllWhitespace(sep);
    assert "arm -1" == Keyword(Arm) + [] + sep + ("-" + "1") + [];
    assert NoWhitespace("-" + "1");
    MinusSignRejected("1");
    ServoLineDecided(Arm, [], sep, "-" + "1", []);
  }

  /** A sign and leading zeros are accepted, as `u8::from_str` accepts them. */
  lemma SignedPaddedDegrees()
    ensures DecideTrimmed("fingers +007") == Some(Move(ServoMoveRequest(Fingers, 7)))
  {
    var sep := " ";
    assert AllWhitespace(sep);
    var d := NatToDecimal(7);
    assert d == "7";
    assert "fingers +007" == Keyword(Fingers) + [] + sep + ("+" + ("0" + ("0" + d))) + [];
    assert NoWhitespace("+" + ("0" + ("0" + d)));
    LeadingZeroIgnored(d);
    LeadingZeroIgnored("0" + d);
    PlusSignIgnored("0" + ("0" + d));
    ParseU8OfDecimal(7);
    ServoLineDecided(Fingers, [], sep, "+" + ("0" + ("0" + d)), []);
  }

  /** Reset ignores ASCII case. */
  lemma UpperCaseQResets(line: string)
    requires line == "Q"
    ensures DecideTrimmed(line) == Some(Reset)
  {
    EqIgnoreCaseQ(line);
    DecideReset(line);
  }

  lemma UpperCaseTermResets(line: string)
    requires line == "ELF2UF2-TERM"
    ensures DecideTrimmed(line) == Some(Reset)
  {
    assert EqIgnoreAsciiCase(line, "elf2uf2-term");
    DecideReset(line);
  }

  /** A reset token must be the whole line: "quit" is dropped. */
  lemma QuitIgnored(line: string)
    requires line == "quit"
    ensures DecideTrimmed(line) == None
  {
    assert |line| == 4 && line[0] == 'q';
    assert !IsResetLine(line);
    forall s ensures !StartsWith(line, Keyword(s)) {
      assert |Keyword(s)| <= |line| ==> line[..|Keyword(s)|][0] == line[0];
    }
    DecideNothing(line);
  }

  /** A line matching no keyword is dropped. */
  lemma UnknownLineIgnored(line: string)
    requires line == "hello"
    ensures DecideTrimmed(line) == None
  {
    assert |line| == 5 && line[0] == 'h';
    assert !IsResetLine(line);
    forall s ensures !StartsWith(line, Keyword(s)) {
      assert |Keyword(s)| <= |line| ==> line[..|Keyword(s)|][0] == line[0];
    }
    DecideNothing(line);
  }
}

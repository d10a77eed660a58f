/** What the USB command path promises: the properties of `trim_ascii_whitespace`, the
    outcome of `handle_data`'s decision for every kind of line, and the round trip from the
    text the desktop UI writes to the request the firmware queues. */
module UsbProperties {
  import opened Wrappers
  import opened RustCore
  import opened RustCoreLemmas
  import opened Usb

  // ------------------------------------------------------------------ trim_ascii_whitespace

  /** The `unwrap` of the last non-whitespace position cannot fail once a first one exists,
      and the two positions are in order. */
  lemma TrimAsciiUnwrapSucceeds(x: seq<uint8>)
    requires FirstNonWhitespace(x).Some?
    ensures LastNonWhitespace(x).Some?
    ensures FirstNonWhitespace(x).value <= LastNonWhitespace(x).value
  {
  }

  /** Trimming an already trimmed slice changes nothing. */
  lemma TrimAsciiIdempotent(x: seq<uint8>)
    ensures TrimAsciiWhitespace(TrimAsciiWhitespace(x)) == TrimAsciiWhitespace(x)
  {
    var r := TrimAsciiWhitespace(x);
    if r != [] {
      assert FirstNonWhitespace(r) == Some(0);
      assert LastNonWhitespace(r) == Some(|r| - 1);
      assert r[0..|r| - 1 + 1] == r;
    }
  }

  lemma AsciiWhitespaceIsWhitespace(b: uint8)
    requires b < 0x80
    ensures IsAsciiWhitespace(b) ==> IsWhitespace(b as char)
    ensures b != 0x0B ==> (IsAsciiWhitespace(b) <==> IsWhitespace(b as char))
  {
  }

  lemma WhitespaceAgreesWithoutVerticalTab(x: seq<uint8>)
    requires IsAscii(x) && forall i :: 0 <= i < |x| ==> x[i] != 0x0B
    ensures forall i :: 0 <= i < |x| ==> (IsAsciiWhitespace(x[i]) <==> IsWhitespace(AsciiChars(x)[i]))
  {
    var s := AsciiChars(x);
    forall i | 0 <= i < |x| ensures IsAsciiWhitespace(x[i]) <==> IsWhitespace(s[i]) {
      AsciiWhitespaceIsWhitespace(x[i]);
      assert s[i] == x[i] as char;
    }
  }

  lemma AsciiCharsSlice(x: seq<uint8>, from: nat, to: nat)
    requires IsAscii(x) && from <= to <= |x|
    ensures IsAscii(x[from..to]) && AsciiChars(x[from..to]) == AsciiChars(x)[from..to]
  {
    var l, r := AsciiChars(x[from..to]), AsciiChars(x)[from..to];
    forall i | 0 <= i < |l| ensures l[i] == r[i] {
      assert l[i] as int == x[from..to][i] == x[from + i];
    }
  }

  /** `str::trim` removes exactly a whitespace prefix and suffix around a part that starts
      and ends with non-whitespace. */
  lemma TrimBetween(s: string, from: nat, to: nat)
    requires from < to <= |s|
    requires forall i :: 0 <= i < from ==> IsWhitespace(s[i])
    requires forall i :: to <= i < |s| ==> IsWhitespace(s[i])
    requires !IsWhitespace(s[from]) && !IsWhitespace(s[to - 1])
    ensures Trim(s) == s[from..to]
  {
    var lead, w, trail := s[..from], s[from..to], s[to..];
    assert s == lead + w + trail;
    assert AllWhitespace(lead) by {
      forall i | 0 <= i < |lead| ensures IsWhitespace(lead[i]) { assert lead[i] == s[i]; }
    }
    assert AllWhitespace(trail) by {
      forall i | 0 <= i < |trail| ensures IsWhitespace(trail[i]) { assert trail[i] == s[to + i]; }
    }
    TrimPadded(lead, w, trail);
  }

  /** The bytes kept by `trim_ascii_whitespace`, read as characters, are what `str::trim`
      keeps when the two whitespace sets agree on `x`. */
  lemma TrimsAgreeBetween(x: seq<uint8>, from: nat, to: nat)
    requires IsAscii(x) && from < to <= |x|
    requires forall i :: 0 <= i < |x| ==> (IsAsciiWhitespace(x[i]) <==> IsWhitespace(AsciiChars(x)[i]))
    requires forall i :: 0 <= i < from ==> IsAsciiWhitespace(x[i])
    requires forall i :: to <= i < |x| ==> IsAsciiWhitespace(x[i])
    requires !IsAsciiWhitespace(x[from]) && !IsAsciiWhitespace(x[to - 1])
    ensures AsciiChars(x[from..to]) == Trim(AsciiChars(x))
  {
    AsciiCharsSlice(x, from, to);
    TrimBetween(AsciiChars(x), from, to);
  }

  /** On ASCII bytes without a vertical tab, `trim_ascii_whitespace` and `str::trim` agree. */
  lemma TrimsAgreeWithoutVerticalTab(x: seq<uint8>)
    requires IsAscii(x) && forall i :: 0 <= i < |x| ==> x[i] != 0x0B
    ensures AsciiChars(TrimAsciiWhitespace(x)) == Trim(AsciiChars(x))
  {
    WhitespaceAgreesWithoutVerticalTab(x);
    match FirstNonWhitespace(x)
    case None =>
      assert AllWhitespace(AsciiChars(x));
    case Some(from) =>
      TrimAsciiUnwrapSucceeds(x);
      var to := LastNonWhitespace(x).value + 1;
      assert TrimAsciiWhitespace(x) == x[from..to];
      TrimsAgreeBetween(x, from, to);
  }

  /** The vertical tab separates the two trims: `trim_ascii_whitespace` keeps it, while
      `str::trim`, which `handle_data` uses, removes it. */
  lemma VerticalTabSeparatesTrims()
    ensures TrimAsciiWhitespace([0x0B]) == [0x0B]
    ensures Trim(AsciiChars([0x0B])) == []
  {
    assert FirstNonWhitespace([0x0B]) == Some(0);
    assert AsciiChars([0x0B]) == ['\U{000B}'];
    assert AllWhitespace(['\U{000B}']);
  }

  // ------------------------------------------------------------------ decoding

  /** A chunk that is not well-formed UTF-8 yields no command. */
  lemma InvalidUtf8Ignored(data: seq<uint8>)
    requires FromUtf8(data) == None
    ensures ParseCommand(data) == None
  {
  }

  /** A chunk that starts with a byte no well-formed UTF-8 sequence starts with (a
      continuation byte, an overlong lead 0xC0 or 0xC1, or a byte from 0xF5 up) yields no
      command, whatever follows. */
  lemma StrayLeadByteIgnored(data: seq<uint8>)
    requires data != [] && (0x80 <= data[0] < 0xC2 || 0xF5 <= data[0])
    ensures FromUtf8(data) == None && ParseCommand(data) == None
  {
  }

  lemma AsciiCharsAppend(a: seq<uint8>, b: seq<uint8>)
    requires IsAscii(a) && IsAscii(b)
    ensures IsAscii(a + b) && AsciiChars(a + b) == AsciiChars(a) + AsciiChars(b)
  {
    assert IsAscii(a + b) by {
      forall i | 0 <= i < |a + b| ensures (a + b)[i] < 0x80 {
        if i >= |a| { assert (a + b)[i] == b[i - |a|]; }
      }
    }
    var l, r := AsciiChars(a + b), AsciiChars(a) + AsciiChars(b);
    forall i | 0 <= i < |l| ensures l[i] == r[i] {
      assert l[i] as int == (a + b)[i];
      if i < |a| { assert r[i] as int == a[i]; } else { assert r[i] as int == b[i - |a|]; }
    }
  }

  /** An ASCII chunk is decided on the characters with the same codes. */
  lemma AsciiChunkDecided(data: seq<uint8>)
    requires IsAscii(data)
    ensures ParseCommand(data) == DecideLine(AsciiChars(data))
  {
    AsciiIsUtf8(data);
  }

  // ------------------------------------------------------------------ the decision

  predicate IsResetLine(line: string) {
    EqIgnoreAsciiCase(line, "q") || EqIgnoreAsciiCase(line, "elf2uf2-term")
  }

  lemma KeywordsStartDifferently(line: string, a: Servo, b: Servo)
    requires StartsWith(line, Keyword(a)) && StartsWith(line, Keyword(b))
    ensures a == b
  {
    assert line[0] == Keyword(a)[0] && line[0] == Keyword(b)[0];
  }

  lemma ResetLineHasNoKeyword(line: string, servo: Servo)
    requires IsResetLine(line)
    ensures !StartsWith(line, Keyword(servo))
  {
    var k := Keyword(servo);
    assert AsciiLower(line[0]) == 'q' || AsciiLower(line[0]) == 'e';
    assert k[0] == 'a' || k[0] == 't' || k[0] == 'f';
    assert |k| <= |line| ==> line[..|k|][0] == line[0];
  }

  /** A trimmed line resets exactly when it is "q" or "elf2uf2-term" ignoring ASCII case;
      so "Q" and "ELF2UF2-TERM" reset too. */
  lemma DecideReset(line: string)
    ensures DecideTrimmed(line) == Some(Reset) <==> IsResetLine(line)
  {
  }

  /** A trimmed line yields the move request `request` exactly when it starts with that
      servo's keyword (case-sensitive, any continuation allowed) and its second word parses
      as a `u8` equal to the requested degrees. The reset check coming first never hides a
      servo command, and the keywords exclude each other. */
  lemma DecideMove(line: string, request: ServoMoveRequest)
    ensures DecideTrimmed(line) == Some(Move(request)) <==>
      StartsWith(line, Keyword(request.servo)) && ParseDegrees(line) == Some(request.degrees)
  {
    if StartsWith(line, Keyword(request.servo)) {
      if IsResetLine(line) { ResetLineHasNoKeyword(line, request.servo); }
      forall s | StartsWith(line, Keyword(s)) ensures s == request.servo {
        KeywordsStartDifferently(line, s, request.servo);
      }
      assert StartsWith(line, "arm") ==> request.servo == Arm by {
        assert Keyword(Arm) == "arm";
      }
      assert StartsWith(line, "thumb") ==> request.servo == Thumb by {
        assert Keyword(Thumb) == "thumb";
      }
    }
  }

  /** A trimmed line yields nothing exactly when it is not a reset line and, whatever servo
      keyword it starts with, its second word is missing or does not parse as a `u8`. */
  lemma DecideNothing(line: string)
    ensures DecideTrimmed(line) == None <==>
      !IsResetLine(line) && forall s :: StartsWith(line, Keyword(s)) ==> ParseDegrees(line) == None
  {
    if DecideTrimmed(line) == None {
      forall s | StartsWith(line, Keyword(s)) ensures ParseDegrees(line) == None {
        if ParseDegrees(line).Some? {
          DecideMove(line, ServoMoveRequest(s, ParseDegrees(line).value));
        }
      }
    } else if !IsResetLine(line) {
      DecideMove(line, DecideTrimmed(line).value.request);
    }
  }

  /** A line that is one word, such as a keyword alone or a keyword glued to its number,
      has no second word and so no degrees. */
  lemma OneWordHasNoDegrees(line: string)
    requires line != [] && NoWhitespace(line)
    ensures ParseDegrees(line) == None
  {
    SplitWord(line, []);
    assert line + [] == line;
  }

  lemma DecimalHasNoWhitespace(n: nat)
    ensures NoWhitespace(NatToDecimal(n))
  {
    var d := NatToDecimal(n);
    forall i | 0 <= i < |d| ensures !IsWhitespace(d[i]) { assert IsAsciiDigit(d[i]); }
  }

  lemma KeywordHasNoWhitespace(servo: Servo, tail: string)
    requires NoWhitespace(tail)
    ensures NoWhitespace(Keyword(servo) + tail)
  {
    var w := Keyword(servo) + tail;
    forall i | 0 <= i < |w| ensures !IsWhitespace(w[i]) {
      if i >= |Keyword(servo)| { assert w[i] == tail[i - |Keyword(servo)|]; }
    }
  }

  /** The second word after a first word and a whitespace separator is what
      `parse_degrees!` parses; whatever follows it is ignored. */
  lemma ParseDegreesOfTwoWords(first: string, sep: string, second: string, rest: string)
    requires first != [] && NoWhitespace(first) && second != [] && NoWhitespace(second)
    requires sep != [] && AllWhitespace(sep)
    requires rest == [] || IsWhitespace(rest[0])
    ensures ParseDegrees(first + sep + second + rest) == ParseU8(second)
  {
    assert first + sep + second + rest == first + (sep + (second + rest));
    SplitWordThenSeparator(first, sep, second + rest);
    SplitWord(second, rest);
  }

  /** The shape of every servo line: a keyword, any whitespace-free continuation, whitespace,
      a degrees word, and optionally further words. Such a line yields a move of that servo
      exactly when the degrees word parses as a `u8`, and then with that value; the
      continuation and the further words are ignored, so the permissive prefix match lets
      "armrest 10" through as an arm command. */
  lemma ServoLineDecided(servo: Servo, tail: string, sep: string, word: string, rest: string)
    requires NoWhitespace(tail) && word != [] && NoWhitespace(word)
    requires sep != [] && AllWhitespace(sep)
    requires rest == [] || IsWhitespace(rest[0])
    ensures DecideTrimmed(Keyword(servo) + tail + sep + word + rest) ==
      match ParseU8(word)
      case Some(degrees) => Some(Move(ServoMoveRequest(servo, degrees)))
      case None => None
  {
    var k := Keyword(servo);
    var first := k + tail;
    var line := first + sep + word + rest;
    assert k + tail + sep + word + rest == line;
    KeywordHasNoWhitespace(servo, tail);
    ParseDegreesOfTwoWords(first, sep, word, rest);
    assert StartsWith(line, k) by { assert line[..|k|] == k; }
    match ParseU8(word)
    case Some(degrees) =>
      DecideMove(line, ServoMoveRequest(servo, degrees));
    case None =>
      if IsResetLine(line) { ResetLineHasNoKeyword(line, servo); }
      DecideNothing(line);
  }

  /** Whitespace around a line does not change the decision. */
  lemma PaddedLineDecided(lead: string, line: string, trail: string)
    requires AllWhitespace(lead) && AllWhitespace(trail)
    requires line != [] && !IsWhitespace(line[0]) && !IsWhitespace(line[|line| - 1])
    ensures DecideLine(lead + line + trail) == DecideTrimmed(line)
  {
    TrimPadded(lead, line, trail);
  }

  // ------------------------------------------------------------------ round trip

  /** The text the desktop UI writes when a slider moves: `${servo} ${degree}`, with no
      line terminator. The degrees are in plain decimal, as JavaScript writes integers
      below 10^21. */
  function UiText(servo: Servo, degrees: nat): (s: string)
    ensures IsAsciiString(s)
    ensures s != [] && !IsWhitespace(s[0]) && !IsWhitespace(s[|s| - 1])
  {
    var k, d := Keyword(servo), NatToDecimal(degrees);
    var s := k + " " + d;
    assert IsAsciiDigit(d[|d| - 1]) && s[|s| - 1] == d[|d| - 1];
    assert IsAsciiString(s) by {
      forall i | 0 <= i < |s| ensures s[i] < '\U{0080}' {
        if i >= |k| + 1 { assert s[i] == d[i - |k| - 1]; assert IsAsciiDigit(d[i - |k| - 1]); }
      }
    }
    s
  }

  /** The bytes of the UI's text. */
  function UiCommand(servo: Servo, degrees: nat): (b: seq<uint8>)
    ensures IsAscii(b) && AsciiChars(b) == UiText(servo, degrees)
  {
    AsciiCharsOfAsciiBytes(UiText(servo, degrees));
    AsciiBytes(UiText(servo, degrees))
  }

  /** The UI's text, once trimmed, yields a move exactly when the degrees fit in a `u8`. */
  lemma UiTextDecided(servo: Servo, degrees: nat)
    ensures DecideTrimmed(UiText(servo, degrees)) ==
      if degrees <= 0xFF then Some(Move(ServoMoveRequest(servo, degrees as uint8))) else None
  {
    var k, d := Keyword(servo), NatToDecimal(degrees);
    var sep := " ";
    assert AllWhitespace(sep);
    assert UiText(servo, degrees) == k + [] + sep + d + [];
    DecimalHasNoWhitespace(degrees);
    ParseU8OfDecimal(degrees);
    ServoLineDecided(servo, [], sep, d, []);
  }

  predicate AllAsciiWhitespace(b: seq<uint8>) {
    forall i :: 0 <= i < |b| ==> IsAsciiWhitespace(b[i])
  }

  lemma AsciiWhitespaceChars(b: seq<uint8>)
    requires AllAsciiWhitespace(b)
    ensures IsAscii(b) && AllWhitespace(AsciiChars(b))
  {
    var s := AsciiChars(b);
    forall i | 0 <= i < |s| ensures IsWhitespace(s[i]) {
      AsciiWhitespaceIsWhitespace(b[i]);
      assert s[i] == b[i] as char;
    }
  }

  /** A chunk made of ASCII whitespace, an ASCII line and ASCII whitespace is decided on
      the line alone. */
  lemma PaddedChunkDecided(lead: seq<uint8>, line: seq<uint8>, trail: seq<uint8>)
    requires AllAsciiWhitespace(lead) && AllAsciiWhitespace(trail) && IsAscii(line)
    requires line != [] && !IsWhitespace(AsciiChars(line)[0])
    requires !IsWhitespace(AsciiChars(line)[|line| - 1])
    ensures ParseCommand(lead + line + trail) == DecideTrimmed(AsciiChars(line))
  {
    AsciiWhitespaceChars(lead);
    AsciiWhitespaceChars(trail);
    AsciiCharsAppend(lead, line);
    AsciiCharsAppend(lead + line, trail);
    AsciiChunkDecided(lead + line + trail);
    PaddedLineDecided(AsciiChars(lead), AsciiChars(line), AsciiChars(trail));
  }

  /** Round trip: whatever servo and whatever degrees in 0..=255 the UI sends, with any ASCII
      whitespace before and after (a line terminator, say), the firmware decodes exactly
      that servo and that value; degrees above 255 yield nothing. */
  lemma UiCommandRoundTrip(servo: Servo, degrees: nat, lead: seq<uint8>, trail: seq<uint8>)
    requires AllAsciiWhitespace(lead) && AllAsciiWhitespace(trail)
    ensures ParseCommand(lead + UiCommand(servo, degrees) + trail) ==
      if degrees <= 0xFF then Some(Move(ServoMoveRequest(servo, degrees as uint8))) else None
  {
    var c := UiCommand(servo, degrees);
    PaddedChunkDecided(lead, c, trail);
    UiTextDecided(servo, degrees);
  }
}

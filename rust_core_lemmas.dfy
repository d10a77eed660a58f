/** Properties of the library functions in RustCore that the command parser depends on. */
module RustCoreLemmas {
  import opened Wrappers
  import opened RustCore

  // ------------------------------------------------------------------ u8 parsing

  lemma {:induction false} FoldDigitsGrows(acc: nat, digits: string)
    requires AllDigits(digits)
    ensures FoldDigits(acc, digits) >= acc
    decreases |digits|
  {
    if digits != [] {
      FoldDigitsGrows(acc * 10 + DigitValue(digits[0]), digits[1..]);
    }
  }

  /** The checked digit loop succeeds exactly when every character is a digit and the
      unbounded value fits in a `u8`, and then yields that value: checking the range at
      every step is the same as checking it once at the end. */
  lemma {:induction false} AccumulateU8Spec(acc: uint8, digits: string)
    ensures AccumulateU8(acc, digits) ==
      if AllDigits(digits) && FoldDigits(acc, digits) <= 0xFF
      then Some(FoldDigits(acc, digits) as uint8) else None
    decreases |digits|
  {
    if digits != [] {
      if !IsAsciiDigit(digits[0]) {
        assert !AllDigits(digits);
      } else {
        var next := acc * 10 + DigitValue(digits[0]);
        assert AllDigits(digits) <==> AllDigits(digits[1..]) by {
          if AllDigits(digits[1..]) {
            forall i | 0 <= i < |digits| ensures IsAsciiDigit(digits[i]) {
              if i > 0 { assert digits[i] == digits[1..][i - 1]; }
            }
          }
        }
        if next > 0xFF {
          if AllDigits(digits) { FoldDigitsGrows(next, digits[1..]); }
        } else {
          AccumulateU8Spec(next, digits[1..]);
        }
      }
    }
  }

  /** `u8::from_str` accepts exactly an optional '+' followed by one or more decimal digits
      whose value is at most 255 (leading zeros allowed), and yields that value. */
  lemma ParseU8Spec(s: string)
    ensures ParseU8(s) ==
      var digits := UnsignedDigits(s);
      if digits != [] && AllDigits(digits) && DecimalValue(digits) <= 0xFF
      then Some(DecimalValue(digits) as uint8) else None
  {
    if s != [] && !((s[0] == '+' || s[0] == '-') && |s| == 1) {
      AccumulateU8Spec(0, UnsignedDigits(s));
      if s[0] == '-' { assert !AllDigits(s); }
    }
  }

  lemma {:induction false} FoldDigitsSnoc(acc: nat, digits: string, c: char)
    requires AllDigits(digits) && IsAsciiDigit(c)
    ensures AllDigits(digits + [c])
    ensures FoldDigits(acc, digits + [c]) == FoldDigits(acc, digits) * 10 + DigitValue(c)
    decreases |digits|
  {
    if digits == [] {
      assert digits + [c] == [c];
    } else {
      assert (digits + [c])[1..] == digits[1..] + [c];
      FoldDigitsSnoc(acc * 10 + DigitValue(digits[0]), digits[1..], c);
    }
  }

  /** Reading back the decimal rendering of `n` gives `n`. */
  lemma {:induction false} DecimalRoundTrip(n: nat)
    ensures DecimalValue(NatToDecimal(n)) == n
  {
    if n < 10 {
      var c := DigitChar(n);
      assert NatToDecimal(n) == [c];
      assert [c][1..] == [];
      assert FoldDigits(0, [c]) == FoldDigits(DigitValue(c), []);
    } else {
      DecimalRoundTrip(n / 10);
      FoldDigitsSnoc(0, NatToDecimal(n / 10), DigitChar(n % 10));
    }
  }

  /** `u8::from_str` of the decimal rendering of `n` is `n` when `n` fits in a `u8`, and
      fails when it does not. */
  lemma ParseU8OfDecimal(n: nat)
    ensures ParseU8(NatToDecimal(n)) == if n <= 0xFF then Some(n as uint8) else None
  {
    var s := NatToDecimal(n);
    assert IsAsciiDigit(s[0]);
    DecimalRoundTrip(n);
    ParseU8Spec(s);
  }

  /** Leading zeros do not change the parsed value. */
  lemma LeadingZeroIgnored(digits: string)
    requires digits != [] && AllDigits(digits)
    ensures ParseU8("0" + digits) == ParseU8(digits)
  {
    var z := "0" + digits;
    assert AllDigits(z) by {
      forall i | 0 <= i < |z| ensures IsAsciiDigit(z[i]) {
        if i > 0 { assert z[i] == digits[i - 1]; }
      }
    }
    assert z[1..] == digits;
    assert FoldDigits(0, z) == FoldDigits(0, digits);
    ParseU8Spec(z);
    ParseU8Spec(digits);
  }

  /** A single explicit '+' in front of the digits does not change the parsed value. */
  lemma PlusSignIgnored(digits: string)
    requires digits != [] && AllDigits(digits)
    ensures ParseU8("+" + digits) == ParseU8(digits)
  {
    assert ("+" + digits)[1..] == digits;
    ParseU8Spec("+" + digits);
    ParseU8Spec(digits);
  }

  /** A minus sign is never accepted by the unsigned parser. */
  lemma MinusSignRejected(s: string)
    ensures ParseU8("-" + s) == None
  {
    var m := "-" + s;
    assert !IsAsciiDigit(m[0]);
    ParseU8Spec(m);
  }

  // ------------------------------------------------------------------ trimming

  /** Trimming a non-empty word between whitespace padding gives back the word. */
  lemma TrimPadded(lead: string, w: string, trail: string)
    requires AllWhitespace(lead) && AllWhitespace(trail)
    requires w != [] && !IsWhitespace(w[0]) && !IsWhitespace(w[|w| - 1])
    ensures Trim(lead + w + trail) == w
  {
    TrimStartPadded(lead, w, trail);
    TrimEndBeforeWhitespace(w, trail);
    assert TrimEnd(w) == w;
  }

  /** Trimming the start of whitespace + w + anything leaves w + the rest when w starts
      with non-whitespace. */
  lemma TrimStartPadded(lead: string, w: string, trail: string)
    requires AllWhitespace(lead)
    requires w != [] && !IsWhitespace(w[0])
    ensures TrimStart(lead + w + trail) == w + trail
  {
    assert lead + w + trail == lead + (w + trail);
    TrimStartAfterWhitespace(lead, w + trail);
    assert (w + trail)[0] == w[0];
  }

  /** Trimming is idempotent. */
  lemma TrimIdempotent(s: string)
    ensures Trim(Trim(s)) == Trim(s)
  {
    var r := Trim(s);
    if r != [] {
      TrimPadded([], r, []);
      assert [] + r + [] == r;
    }
  }

  // ------------------------------------------------------------------ splitting

  lemma SplitAllWhitespace(s: string)
    requires AllWhitespace(s)
    ensures SplitWhitespace(s) == []
  {
  }

  /** Leading whitespace does not change the words. */
  lemma SplitAfterWhitespace(ws: string, s: string)
    requires AllWhitespace(ws)
    ensures SplitWhitespace(ws + s) == SplitWhitespace(s)
  {
    assert TrimStart(ws + s) == TrimStart(s) by { TrimStartAfterWhitespace(ws, s); }
  }

  lemma {:induction false} TrimStartAfterWhitespace(ws: string, s: string)
    requires AllWhitespace(ws)
    ensures TrimStart(ws + s) == TrimStart(s)
    decreases |ws|
  {
    if ws != [] {
      assert (ws + s)[0] == ws[0];
      assert (ws + s)[1..] == ws[1..] + s;
      TrimStartAfterWhitespace(ws[1..], s);
    } else {
      assert ws + s == s;
    }
  }

  lemma {:induction false} TrimEndBeforeWhitespace(s: string, ws: string)
    requires AllWhitespace(ws)
    ensures TrimEnd(s + ws) == TrimEnd(s)
    decreases |ws|
  {
    if ws != [] {
      var s' := s + ws;
      assert s'[|s'| - 1] == ws[|ws| - 1];
      assert s'[..|s'| - 1] == s + ws[..|ws| - 1];
      TrimEndBeforeWhitespace(s, ws[..|ws| - 1]);
    } else {
      assert s + ws == s;
    }
  }

  lemma {:induction false} WordLengthOfWord(w: string, rest: string)
    requires NoWhitespace(w)
    requires rest == [] || IsWhitespace(rest[0])
    ensures WordLength(w + rest) == |w|
    decreases |w|
  {
    if w == [] {
      assert w + rest == rest;
    } else {
      assert (w + rest)[1..] == w[1..] + rest;
      WordLengthOfWord(w[1..], rest);
    }
  }

  /** A whitespace-free word followed by whitespace (or nothing) is the first word. */
  lemma SplitWord(w: string, rest: string)
    requires w != [] && NoWhitespace(w)
    requires rest == [] || IsWhitespace(rest[0])
    ensures SplitWhitespace(w + rest) == [w] + SplitWhitespace(rest)
  {
    var s := w + rest;
    assert s[0] == w[0];
    assert TrimStart(s) == s;
    WordLengthOfWord(w, rest);
    assert s[..|w|] == w;
    assert s[|w|..] == rest;
  }

  /** A word followed by a whitespace separator is the first word; the rest is split on. */
  lemma SplitWordThenSeparator(w: string, sep: string, rest: string)
    requires w != [] && NoWhitespace(w)
    requires sep != [] && AllWhitespace(sep)
    ensures SplitWhitespace(w + (sep + rest)) == [w] + SplitWhitespace(rest)
  {
    SplitWord(w, sep + rest);
    SplitAfterWhitespace(sep, rest);
  }

  /** Every entry of `words` is non-empty and free of whitespace. */
  ghost predicate AllWords(words: seq<string>) {
    forall k :: 0 <= k < |words| ==> words[k] != [] && NoWhitespace(words[k])
  }

  lemma AllWordsCons(w: string, words: seq<string>)
    requires w != [] && NoWhitespace(w) && AllWords(words)
    ensures AllWords([w] + words)
  {
    forall k | 0 <= k < |[w] + words| ensures ([w] + words)[k] != [] && NoWhitespace(([w] + words)[k]) {
      if k > 0 {
        assert ([w] + words)[k] == words[k - 1];
      }
    }
  }

  /** Every word `split_whitespace` yields is non-empty and free of whitespace. */
  lemma {:induction false} SplitYieldsWords(s: string)
    ensures AllWords(SplitWhitespace(s))
    decreases |s|
  {
    var t := TrimStart(s);
    if t != [] {
      var n := WordLength(t);
      SplitFirstWord(s);
      SplitYieldsWords(t[n..]);
      AllWordsCons(t[..n], SplitWhitespace(t[n..]));
    }
  }

  /** The concatenation of a list of words. */
  function Concat(words: seq<string>): string {
    if words == [] then [] else words[0] + Concat(words[1..])
  }

  /** `s` with every whitespace character removed. */
  function RemoveWhitespace(s: string): (r: string)
    ensures NoWhitespace(r)
  {
    if s == [] then []
    else if IsWhitespace(s[0]) then RemoveWhitespace(s[1..])
    else [s[0]] + RemoveWhitespace(s[1..])
  }

  lemma {:induction false} RemoveWhitespaceAppend(a: string, b: string)
    ensures RemoveWhitespace(a + b) == RemoveWhitespace(a) + RemoveWhitespace(b)
    decreases |a|
  {
    if a == [] {
      assert a + b == b;
    } else {
      assert (a + b)[0] == a[0];
      assert (a + b)[1..] == a[1..] + b;
      RemoveWhitespaceAppend(a[1..], b);
    }
  }

  lemma {:induction false} RemoveWhitespaceOfWord(w: string)
    requires NoWhitespace(w)
    ensures RemoveWhitespace(w) == w
    decreases |w|
  {
    if w != [] {
      assert NoWhitespace(w[1..]) by {
        forall i | 0 <= i < |w[1..]| ensures !IsWhitespace(w[1..][i]) { assert w[1..][i] == w[i + 1]; }
      }
      RemoveWhitespaceOfWord(w[1..]);
      assert w == [w[0]] + w[1..];
    }
  }

  /** Leading whitespace contributes nothing once whitespace is removed. */
  lemma RemoveLeadingWhitespace(s: string)
    ensures RemoveWhitespace(s) == RemoveWhitespace(TrimStart(s))
  {
    var t := TrimStart(s);
    var lead := s[..|s| - |t|];
    assert s == lead + t;
    assert AllWhitespace(lead) by {
      forall i | 0 <= i < |lead| ensures IsWhitespace(lead[i]) { assert lead[i] == s[i]; }
    }
    RemoveWhitespaceAppend(lead, t);
    AllWhitespaceRemoved(lead);
  }

  lemma ConcatCons(w: string, words: seq<string>)
    ensures Concat([w] + words) == w + Concat(words)
  {
    assert ([w] + words)[1..] == words;
  }

  /** Removing whitespace from a text that starts with a whitespace-free word keeps the
      word. */
  lemma RemoveWhitespaceAfterWord(t: string, n: nat)
    requires n <= |t| && NoWhitespace(t[..n])
    ensures RemoveWhitespace(t) == t[..n] + RemoveWhitespace(t[n..])
  {
    assert t == t[..n] + t[n..];
    RemoveWhitespaceAppend(t[..n], t[n..]);
    RemoveWhitespaceOfWord(t[..n]);
  }

  /** One step of `split_whitespace`: the first word is the first whitespace-free run
      after the leading whitespace. */
  lemma SplitFirstWord(s: string)
    requires TrimStart(s) != []
    ensures SplitWhitespace(s) ==
      [TrimStart(s)[..WordLength(TrimStart(s))]] + SplitWhitespace(TrimStart(s)[WordLength(TrimStart(s))..])
  {
  }

  /** Splitting loses only whitespace: gluing the words back together gives the input
      without its whitespace, in the original order. */
  lemma {:induction false} SplitLosesOnlyWhitespace(s: string)
    ensures Concat(SplitWhitespace(s)) == RemoveWhitespace(s)
    decreases |s|
  {
    var t := TrimStart(s);
    RemoveLeadingWhitespace(s);
    if t != [] {
      var n := WordLength(t);
      var w, rest := t[..n], t[n..];
      calc {
        Concat(SplitWhitespace(s));
        { SplitFirstWord(s); }
        Concat([w] + SplitWhitespace(rest));
        { ConcatCons(w, SplitWhitespace(rest)); }
        w + Concat(SplitWhitespace(rest));
        { SplitLosesOnlyWhitespace(rest); }
        w + RemoveWhitespace(rest);
        { RemoveWhitespaceAfterWord(t, n); }
        RemoveWhitespace(t);
      }
    }
  }

  lemma {:induction false} AllWhitespaceRemoved(s: string)
    requires AllWhitespace(s)
    ensures RemoveWhitespace(s) == []
    decreases |s|
  {
    if s != [] {
      assert AllWhitespace(s[1..]) by {
        forall i | 0 <= i < |s[1..]| ensures IsWhitespace(s[1..][i]) { assert s[1..][i] == s[i + 1]; }
      }
      AllWhitespaceRemoved(s[1..]);
    }
  }

  // ------------------------------------------------------------------ comparisons

  /** A line equals "q" ignoring ASCII case exactly when it is "q" or "Q". */
  lemma EqIgnoreCaseQ(t: string)
    ensures EqIgnoreAsciiCase(t, "q") <==> t == "q" || t == "Q"
  {
    if EqIgnoreAsciiCase(t, "q") {
      assert AsciiLower(t[0]) == 'q';
      assert t == [t[0]];
    }
  }
}

/** What `time_to_seconds` and the reference parsing compute, stated over the
    fields of a timestamp. */
module TimeProperties {
  import opened Results
  import opened Text
  import opened Decimal
  import opened AudioSplit

  lemma DigitsHaveNoColon(s: string)
    requires IsDigits(s)
    ensures ':' !in s
  {
    forall i | 0 <= i < |s|
      ensures s[i] != ':'
    {
      assert IsDigit(s[i]);
    }
  }

  /** The three fields of `H:M:S` are what splitting at colons gives back. */
  lemma SplitThreeFields(h: string, m: string, s: string)
    requires ':' !in h && ':' !in m && ':' !in s
    ensures Split(h + ":" + m + ":" + s, ':') == [h, m, s]
  {
    SplitNoSeparator(h, ':');
    SplitSnoc(h, ':', m);
    SplitSnoc(h + ":" + m, ':', s);
  }

  /** A time with more than three colon-separated fields matches no branch
      of `time_to_seconds` and counts as 0 seconds. */
  lemma TimeToSecondsManyFields(t: string)
    requires Count(t, ':') >= 3
    ensures TimeToSeconds(t) == Ok(0)
  {
    SplitCount(t, ':');
  }

  /** `time_to_seconds` raises ValueError exactly when one of at most three
      fields is not a number. */
  lemma TimeToSecondsFails(t: string)
    ensures var parts := Split(t, ':');
      TimeToSeconds(t) == Err(ValueError) <==> |parts| <= 3 && exists i :: 0 <= i < |parts| && !IsDigits(parts[i])
  {
  }

  /** The reference parses exactly when its first three fields are numbers
      of at most `timedelta`'s range; it raises IndexError exactly when the
      fields it has are numbers but fewer than three, OverflowError when the
      three numbers leave the range, and ValueError otherwise. */
  lemma ParseReferenceCases(ts: string)
    ensures var parts := Split(ts, ':');
      ParseReference(ts).Ok? <==>
        (|parts| >= 3 && IsDigits(parts[0]) && IsDigits(parts[1]) && IsDigits(parts[2])
         && 3600 * ValueOf(parts[0]) + 60 * ValueOf(parts[1]) + ValueOf(parts[2]) < TimedeltaLimit)
    ensures var parts := Split(ts, ':');
      ParseReference(ts) == Err(OverflowError) <==>
        (|parts| >= 3 && IsDigits(parts[0]) && IsDigits(parts[1]) && IsDigits(parts[2])
         && 3600 * ValueOf(parts[0]) + 60 * ValueOf(parts[1]) + ValueOf(parts[2]) >= TimedeltaLimit)
    ensures var parts := Split(ts, ':');
      ParseReference(ts) == Err(IndexError) <==> |parts| < 3 && forall i :: 0 <= i < |parts| ==> IsDigits(parts[i])
    ensures var parts := Split(ts, ':');
      ParseReference(ts).Ok? ==>
        ParseReference(ts).value == 3600 * ValueOf(parts[0]) + 60 * ValueOf(parts[1]) + ValueOf(parts[2])
  {
  }

  /** `H:M:S` is `3600*H + 60*M + S` seconds, or OverflowError beyond the
      range of `timedelta`. */
  lemma TimeToSecondsThreeFields(h: string, m: string, s: string)
    requires IsDigits(h) && IsDigits(m) && IsDigits(s)
    ensures var total := 3600 * ValueOf(h) + 60 * ValueOf(m) + ValueOf(s);
      TimeToSeconds(h + ":" + m + ":" + s) == if total < TimedeltaLimit then Ok(total) else Err(OverflowError)
  {
    DigitsHaveNoColon(h);
    DigitsHaveNoColon(m);
    DigitsHaveNoColon(s);
    SplitThreeFields(h, m, s);
    TimeToSecondsOfFields(h + ":" + m + ":" + s, h, m, s);
  }

  lemma TimeToSecondsOfFields(t: string, h: string, m: string, s: string)
    requires IsDigits(h) && IsDigits(m) && IsDigits(s)
    requires Split(t, ':') == [h, m, s]
    ensures var total := 3600 * ValueOf(h) + 60 * ValueOf(m) + ValueOf(s);
      TimeToSeconds(t) == if total < TimedeltaLimit then Ok(total) else Err(OverflowError)
  {
    assert TimeToSeconds(t) == Timedelta(ValueOf(h), ValueOf(m), ValueOf(s));
  }

  /** `M:S` is `60*M + S` seconds, or OverflowError beyond the range. */
  lemma TimeToSecondsTwoFields(m: string, s: string)
    requires IsDigits(m) && IsDigits(s)
    ensures var total := 60 * ValueOf(m) + ValueOf(s);
      TimeToSeconds(m + ":" + s) == if total < TimedeltaLimit then Ok(total) else Err(OverflowError)
  {
    DigitsHaveNoColon(m);
    DigitsHaveNoColon(s);
    SplitNoSeparator(m, ':');
    SplitSnoc(m, ':', s);
  }

  /** `S` is `S` seconds, or OverflowError beyond the range. */
  lemma TimeToSecondsOneField(s: string)
    requires IsDigits(s)
    ensures TimeToSeconds(s) == if ValueOf(s) < TimedeltaLimit then Ok(ValueOf(s)) else Err(OverflowError)
  {
    DigitsHaveNoColon(s);
    SplitNoSeparator(s, ':');
  }

  /** Rendering hours, minutes and seconds as `H:M:S` and reading it back
      gives the total number of seconds, while it is within range. */
  lemma TimeToSecondsClock(h: nat, m: nat, s: nat)
    ensures var total := 3600 * h + 60 * m + s;
      TimeToSeconds(NatToString(h) + ":" + NatToString(m) + ":" + NatToString(s))
        == if total < TimedeltaLimit then Ok(total) else Err(OverflowError)
  {
    ClockOfRenderings(h, m, s, NatToString(h), NatToString(m), NatToString(s));
  }

  lemma ClockOfRenderings(h: nat, m: nat, s: nat, hs: string, ms: string, ss: string)
    requires hs == NatToString(h) && ms == NatToString(m) && ss == NatToString(s)
    ensures var total := 3600 * h + 60 * m + s;
      TimeToSeconds(hs + ":" + ms + ":" + ss) == if total < TimedeltaLimit then Ok(total) else Err(OverflowError)
  {
    ParseNatToString(h);
    ParseNatToString(m);
    ParseNatToString(s);
    TimeToSecondsThreeFields(hs, ms, ss);
  }

  /** On a three-field stamp the reference parsing and `time_to_seconds` agree,
      failures included: both read the three fields in order, then build the
      same duration. */
  lemma ReferenceAgreesOnThreeFields(t: string)
    requires |Split(t, ':')| == 3
    ensures ParseReference(t) == TimeToSeconds(t)
  {
  }

  lemma SplitFourFields(h: string, m: string, s: string, x: string)
    requires ':' !in h && ':' !in m && ':' !in s && ':' !in x
    ensures Split(h + ":" + m + ":" + s + ":" + x, ':') == [h, m, s, x]
  {
    SplitNoSeparator(h, ':');
    SplitSnoc(h, ':', m);
    SplitSnoc(h + ":" + m, ':', s);
    SplitSnoc(h + ":" + m + ":" + s, ':', x);
  }

  lemma ParseReferenceOfFields(t: string, h: string, m: string, s: string)
    requires IsDigits(h) && IsDigits(m) && IsDigits(s)
    requires |Split(t, ':')| >= 3
    requires Split(t, ':')[0] == h && Split(t, ':')[1] == m && Split(t, ':')[2] == s
    ensures var total := 3600 * ValueOf(h) + 60 * ValueOf(m) + ValueOf(s);
      ParseReference(t) == if total < TimedeltaLimit then Ok(total) else Err(OverflowError)
  {
    ParseReferenceCases(t);
  }

  /** With a fourth field the two disagree: the reference keeps the first
      three fields, `time_to_seconds` falls through to 0. */
  lemma ReferenceAndTimeOnFourFields(h: string, m: string, s: string, x: string)
    requires IsDigits(h) && IsDigits(m) && IsDigits(s) && IsDigits(x)
    ensures var total := 3600 * ValueOf(h) + 60 * ValueOf(m) + ValueOf(s);
      ParseReference(h + ":" + m + ":" + s + ":" + x) == if total < TimedeltaLimit then Ok(total) else Err(OverflowError)
    ensures TimeToSeconds(h + ":" + m + ":" + s + ":" + x) == Ok(0)
  {
    DigitsHaveNoColon(h);
    DigitsHaveNoColon(m);
    DigitsHaveNoColon(s);
    DigitsHaveNoColon(x);
    var t := h + ":" + m + ":" + s + ":" + x;
    SplitFourFields(h, m, s, x);
    ParseReferenceOfFields(t, h, m, s);
  }

  /** `"invalid:timestamp"` raises ValueError (its first field is no number). */
  lemma InvalidReference()
    ensures ParseReference("invalid:timestamp") == Err(ValueError)
  {
    assert "invalid:timestamp" == "invalid" + [':'] + "timestamp";
    SplitFirst("invalid", ':', "timestamp");
    assert !IsDigit("invalid"[0]);
  }

  /** A well-formed but short reference such as `"12:30"` raises IndexError. */
  lemma ShortReference(h: string, m: string)
    requires IsDigits(h) && IsDigits(m)
    ensures ParseReference(h + ":" + m) == Err(IndexError)
  {
    DigitsHaveNoColon(h);
    DigitsHaveNoColon(m);
    SplitNoSeparator(h, ':');
    SplitSnoc(h, ':', m);
  }

  /** A time whose hours alone leave the range of `timedelta`, such as
      `99999999999:00:00`, raises OverflowError. */
  lemma TimeToSecondsOverflows(h: string, m: string, s: string)
    requires IsDigits(h) && IsDigits(m) && IsDigits(s)
    requires ValueOf(h) >= 24000000000
    ensures TimeToSeconds(h + ":" + m + ":" + s) == Err(OverflowError)
  {
    TimeToSecondsThreeFields(h, m, s);
  }
}

/** time_to_seconds: reads a duration "H:M:S" or "H:M:S.F" as seconds and
    falls back to zero on anything it cannot read. */
module Durations {
  import opened Text
  import opened Numerals
  import opened Records

  /** Hours, minutes and seconds separated by ':' (exactly three fields); the
      seconds field may carry a fraction after '.', read as decimal digits, and
      anything after a second '.' is ignored. A value that is not a string, a
      wrong number of fields or a field that is not a signed numeral gives 0. */
  function TimeToSeconds(t: TimeField): real
  {
    match t
    case NotAString => 0.0
    case TimeString(s) =>
      var fields := Split(s, ':');
      if |fields| != 3 then 0.0 else ReadFields(fields[0], fields[1], fields[2])
  }

  /** The arithmetic once the text is split into hours, minutes and seconds:
      the seconds field is split on '.', padded with "0", and its first two
      pieces are the whole seconds and the fraction. */
  function ReadFields(h: string, m: string, x: string): real
  {
    var parts := (Split(x, '.') + ["0"])[..2];
    var sec, frac := parts[0], parts[1];
    match (ParseInt(h), ParseInt(m), ParseInt(sec))
    case (Some(hours), Some(minutes), Some(seconds)) =>
      if AllDigits(frac) then (hours * 3600 + minutes * 60 + seconds) as real + Frac(frac) else 0.0
    case _ => 0.0
  }

  /** A duration text built from three fields; the third may carry '.'. */
  function Fields(h: string, m: string, s: string): string {
    h + ":" + m + ":" + s
  }

  lemma FieldsSplit(h: string, m: string, s: string)
    requires ':' !in h && ':' !in m && ':' !in s
    ensures Split(Fields(h, m, s), ':') == [h, m, s]
  {
    var parts := [h, m, s];
    assert Join(parts, ':') == Fields(h, m, s) by {
      assert Join(parts[2..], ':') == s;
      assert Join(parts[1..], ':') == m + ":" + s;
    }
    SplitJoin(parts, ':');
  }

  /** Three colon-free fields are read by ReadFields. */
  lemma FieldsRead(h: string, m: string, x: string)
    requires ':' !in h && ':' !in m && ':' !in x
    ensures TimeToSeconds(TimeString(Fields(h, m, x))) == ReadFields(h, m, x)
  {
    FieldsSplit(h, m, x);
  }

  lemma NumeralHasNoSeparator(s: string, sep: char)
    requires AllDigits(s) && !IsDigit(sep)
    ensures sep !in s
  {
  }

  /** "H:M:S" is H*3600 + M*60 + S seconds. */
  lemma WholeSeconds(h: string, m: string, s: string)
    requires IsNumeral(h) && IsNumeral(m) && IsNumeral(s)
    ensures TimeToSeconds(TimeString(Fields(h, m, s)))
            == (Num(h) * 3600 + Num(m) * 60 + Num(s)) as real
  {
    NumeralHasNoSeparator(h, ':');
    NumeralHasNoSeparator(m, ':');
    NumeralHasNoSeparator(s, ':');
    NumeralHasNoSeparator(s, '.');
    FieldsRead(h, m, s);
    SplitWithoutSeparator(s, '.');
    assert (Split(s, '.') + ["0"])[..2] == [s, "0"];
    assert Frac("0") == 0.0;
  }

  /** "H:M:S.F" adds the fraction 0.F to the whole seconds. */
  lemma FractionalSeconds(h: string, m: string, s: string, f: string)
    requires IsNumeral(h) && IsNumeral(m) && IsNumeral(s) && AllDigits(f)
    ensures TimeToSeconds(TimeString(Fields(h, m, s + "." + f)))
            == (Num(h) * 3600 + Num(m) * 60 + Num(s)) as real + Frac(f)
  {
    NumeralHasNoSeparator(h, ':');
    NumeralHasNoSeparator(m, ':');
    NumeralHasNoSeparator(s, ':');
    NumeralHasNoSeparator(f, ':');
    NumeralHasNoSeparator(s, '.');
    NumeralHasNoSeparator(f, '.');
    var x := s + "." + f;
    assert x == s + ['.'] + f;
    FieldsRead(h, m, x);
    SplitAtSeparator(s, f, '.');
    SplitWithoutSeparator(f, '.');
    assert (Split(x, '.') + ["0"])[..2] == [s, f];
    NumeralParses(h);
    NumeralParses(m);
    NumeralParses(s);
  }

  /** Segments after a second '.' in the seconds field are ignored. */
  lemma ExtraSegmentsIgnored(h: string, m: string, s: string, f: string, rest: string)
    requires ':' !in h && ':' !in m && ':' !in s && ':' !in f && ':' !in rest
    requires '.' !in s && '.' !in f
    ensures TimeToSeconds(TimeString(Fields(h, m, s + "." + f + "." + rest)))
            == TimeToSeconds(TimeString(Fields(h, m, s + "." + f)))
  {
    var x, y := s + "." + f + "." + rest, s + "." + f;
    assert x == s + ['.'] + (f + ['.'] + rest);
    assert y == s + ['.'] + f;
    assert ':' !in x && ':' !in y;
    FieldsRead(h, m, x);
    FieldsRead(h, m, y);
    SplitAtSeparator(s, f + ['.'] + rest, '.');
    SplitAtSeparator(f, rest, '.');
    SplitAtSeparator(s, f, '.');
    SplitWithoutSeparator(f, '.');
    assert (Split(x, '.') + ["0"])[..2] == [s, f];
    assert (Split(y, '.') + ["0"])[..2] == [s, f];
  }

  /** A sign is accepted: "-H:M:S" counts the hours backwards, so a duration
      can come out negative. */
  lemma NegativeHours(h: string, m: string, s: string)
    requires IsNumeral(h) && IsNumeral(m) && IsNumeral(s)
    ensures TimeToSeconds(TimeString(Fields("-" + h, m, s)))
            == (Num(m) * 60 + Num(s) - Num(h) * 3600) as real
  {
    NumeralHasNoSeparator(h, ':');
    NumeralHasNoSeparator(m, ':');
    NumeralHasNoSeparator(s, ':');
    NumeralHasNoSeparator(s, '.');
    assert ':' !in "-" + h;
    FieldsRead("-" + h, m, s);
    SplitWithoutSeparator(s, '.');
    assert (Split(s, '.') + ["0"])[..2] == [s, "0"];
    assert ("-" + h)[1..] == h;
    assert Frac("0") == 0.0;
  }

  /** A ComputationTime that is not a string gives 0. */
  lemma NotAStringIsZero()
    ensures TimeToSeconds(NotAString) == 0.0
  {
  }

  /** Anything but exactly two ':' gives 0 (Python's unpacking raises). */
  lemma WrongFieldCountIsZero(s: string)
    requires Count(s, ':') != 2
    ensures TimeToSeconds(TimeString(s)) == 0.0
  {
  }

  /** An hours, minutes or whole-seconds field that is not an optionally
      signed numeral gives 0 (int() or float() raises), with or without a
      fraction. */
  lemma NonNumericFieldIsZero(h: string, m: string, s: string, f: string)
    requires ':' !in h && ':' !in m && ':' !in s && ':' !in f
    requires '.' !in s && '.' !in f
    requires ParseInt(h).None? || ParseInt(m).None? || ParseInt(s).None?
    ensures TimeToSeconds(TimeString(Fields(h, m, s))) == 0.0
    ensures TimeToSeconds(TimeString(Fields(h, m, s + "." + f))) == 0.0
  {
    var y := s + "." + f;
    assert y == s + ['.'] + f;
    FieldsRead(h, m, s);
    FieldsRead(h, m, y);
    SplitWithoutSeparator(s, '.');
    SplitAtSeparator(s, f, '.');
    assert (Split(s, '.') + ["0"])[..2][0] == s;
    assert (Split(y, '.') + ["0"])[..2][0] == s;
  }

  /** An ASCII character that no text float() accepts can hold after "0.":
      not a digit, whitespace, '.', a sign, '_' or an exponent letter. */
  predicate NeverInFloat(c: char) {
    c < 128 as char && !IsDigit(c) && !IsSpace(c) && c !in "eE+-_."
  }

  /** A fraction holding such a character gives 0 even when the hours,
      minutes and whole seconds are numerals (float('0.' + ms) raises). */
  lemma BadFractionIsZero(h: string, m: string, s: string, f: string, i: nat)
    requires IsNumeral(h) && IsNumeral(m) && IsNumeral(s)
    requires ':' !in f && '.' !in f
    requires i < |f| && NeverInFloat(f[i])
    ensures TimeToSeconds(TimeString(Fields(h, m, s + "." + f))) == 0.0
  {
    NumeralHasNoSeparator(h, ':');
    NumeralHasNoSeparator(m, ':');
    NumeralHasNoSeparator(s, ':');
    NumeralHasNoSeparator(s, '.');
    var x := s + "." + f;
    assert x == s + ['.'] + f;
    FieldsRead(h, m, x);
    SplitAtSeparator(s, f, '.');
    SplitWithoutSeparator(f, '.');
    assert (Split(x, '.') + ["0"])[..2] == [s, f];
    assert !AllDigits(f);
    NumeralParses(h);
    NumeralParses(m);
    NumeralParses(s);
  }

  lemma SmallNumerals()
    ensures Num("1") == 1 && Num("02") == 2 && Num("03") == 3
    ensures Num("0") == 0 && Num("00") == 0 && Num("10") == 10
  {
    assert "02"[..1] == "0" && "03"[..1] == "0" && "00"[..1] == "0" && "10"[..1] == "1";
  }

  lemma HalfSecond()
    ensures Frac("500") == 0.5
  {
    FracTrailingZero("50");
    FracTrailingZero("5");
    assert "50" + "0" == "500" && "5" + "0" == "50";
  }

  /** "1:02:03.500" is 3723.5 seconds. */
  lemma ExampleWithFraction()
    ensures TimeToSeconds(TimeString("1:02:03.500")) == 3723.5
  {
    assert "1:02:03.500" == Fields("1", "02", "03" + "." + "500");
    FractionalSeconds("1", "02", "03", "500");
    SmallNumerals();
    HalfSecond();
  }

  /** "0:00:10" is 10 seconds. */
  lemma ExampleWholeSeconds()
    ensures TimeToSeconds(TimeString("0:00:10")) == 10.0
  {
    assert "0:00:10" == Fields("0", "00", "10");
    WholeSeconds("0", "00", "10");
    SmallNumerals();
  }
}

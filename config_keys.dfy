/** What the script reads out of a Configuration string "<words> <ordinal>: <name>":
    the ordinal token, its integer value (the sort key) and the display label. */
module ConfigKeys {
  import opened Wrappers
  import opened Text
  import opened Numerals

  /** Longest label name kept: name[:20]. */
  const NameWidth: nat := 20

  /** config.split(':')[0].split()[-1]: the last word before the first ':';
      None where Python raises IndexError because that text is blank. */
  function OrdinalToken(config: string): (r: Option<string>)
    ensures r.Some? ==> |r.value| > 0 && NoSpace(r.value)
    ensures r.None? <==> AllSpace(Split(config, ':')[0])
  {
    LastWord(Split(config, ':')[0])
  }

  /** int() of the ordinal token: the sort key of a configuration; None where
      Python raises IndexError or ValueError. */
  function Ordinal(config: string): (r: Option<int>)
    ensures r.Some? <==> OrdinalToken(config).Some? && IsSignedNumeral(OrdinalToken(config).value)
    ensures r.Some? ==> var t := OrdinalToken(config).value;
      r.value == if t[0] == '-' then -(Num(t[1..]) as int)
                 else if t[0] == '+' then Num(t[1..]) as int
                 else Num(t)
  {
    match OrdinalToken(config)
    case None => None
    case Some(token) => ParseInt(token)
  }

  /** f"{num}: {name}" with num the ordinal token as written and name the text
      after the first ':', stripped and cut to NameWidth characters; None where
      Python raises IndexError (no token, or no ':'). */
  function Label(config: string): (r: Option<string>)
    ensures r.Some? <==> OrdinalToken(config).Some? && ':' in config
    ensures r.Some? ==> |r.value| <= |OrdinalToken(config).value| + 2 + NameWidth
    ensures r.Some? ==> OrdinalToken(config).value + ": " <= r.value
  {
    match OrdinalToken(config)
    case None => None
    case Some(num) =>
      var pieces := SplitOnce(config, ':');
      if |pieces| == 1 then None
      else Some(num + ": " + Truncate(Strip(pieces[1]), NameWidth))
  }

  /** A configuration written as words, then the token w, optional blanks,
      ':' and any text: w is its ordinal token. */
  lemma TokenOfKey(p: string, w: string, q: string, rest: string)
    requires p == [] || IsSpace(p[|p| - 1])
    requires |w| > 0 && NoSpace(w) && AllSpace(q)
    requires ':' !in p + w + q
    ensures OrdinalToken(p + w + q + ":" + rest) == Some(w)
  {
    var head := p + w + q;
    assert p + w + q + ":" + rest == head + [':'] + rest;
    SplitAtSeparator(head, rest, ':');
    LastWordOf(p, w, q);
  }

  /** ... and its label is w, ": " and the stripped text after the first ':'
      cut to NameWidth characters, later colons included. */
  lemma LabelOfKey(p: string, w: string, q: string, rest: string)
    requires p == [] || IsSpace(p[|p| - 1])
    requires |w| > 0 && NoSpace(w) && AllSpace(q)
    requires ':' !in p + w + q
    ensures Label(p + w + q + ":" + rest) == Some(w + ": " + Truncate(Strip(rest), NameWidth))
  {
    var head := p + w + q;
    assert p + w + q + ":" + rest == head + [':'] + rest;
    TokenOfKey(p, w, q, rest);
    SplitOnceAt(head, rest, ':');
  }

  /** str(n) never holds whitespace or ':'. */
  lemma IntToStringIsToken(n: int)
    ensures |IntToString(n)| > 0 && NoSpace(IntToString(n)) && ':' !in IntToString(n)
  {
    var s := IntToString(n);
    var digits := NatToString(if n < 0 then -n else n);
    assert forall i :: 0 <= i < |digits| ==> IsDigit(digits[i]);
    if n < 0 {
      assert s == "-" + digits;
      assert forall i :: 1 <= i < |s| ==> s[i] == digits[i - 1];
    }
  }

  /** A configuration whose ordinal token is str(n) sorts under n. */
  lemma OrdinalOfKey(p: string, n: int, q: string, rest: string)
    requires p == [] || IsSpace(p[|p| - 1])
    requires AllSpace(q) && ':' !in p + q
    ensures Ordinal(p + IntToString(n) + q + ":" + rest) == Some(n)
  {
    var w := IntToString(n);
    IntToStringIsToken(n);
    assert ':' !in p + w + q;
    TokenOfKey(p, w, q, rest);
    ParseIntRoundTrip(n);
  }

  lemma OneIsToken()
    ensures IntToString(1) == "1"
  {
  }

  /** "1: Small" has ordinal 1. */
  lemma ExampleOrdinal()
    ensures Ordinal("1: Small") == Some(1)
  {
    OneIsToken();
    OrdinalOfKey([], 1, [], " Small");
    assert [] + IntToString(1) + [] + ":" + " Small" == "1: Small";
  }

}

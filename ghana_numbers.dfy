/** Classification and format conversion of Ghanaian mobile numbers
    (phonevalidator.py: is_valid_ghana_number and the string logic of
    convert_format).

    The two regular expressions of the classifier are written out as shape
    predicates. `\d` is taken to mean an ASCII digit '0'..'9' and `$` to mean
    the end of the string (Python's `re` would also accept non-ASCII digits
    and a single trailing newline; neither is modelled). */
module GhanaNumbers {

  datatype Option<+T> = None | Some(value: T)

  /** `s.replace(ch, "")`: every occurrence of `ch` removed, the other
      characters kept in their order. */
  function RemoveAll(s: string, ch: char): (r: string)
    ensures |r| <= |s|
    ensures ch !in r
    ensures forall c :: c != ch ==> (c in r <==> c in s)
    ensures ch !in s ==> r == s
  {
    if s == [] then []
    else if s[0] == ch then RemoveAll(s[1..], ch)
    else [s[0]] + RemoveAll(s[1..], ch)
  }

  /** The input with spaces, then hyphens, removed; nothing else is
      stripped or rejected at this stage. */
  function Clean(s: string): (r: string)
    ensures ' ' !in r && '-' !in r
    ensures forall c :: c != ' ' && c != '-' ==> (c in r <==> c in s)
    ensures ' ' !in s && '-' !in s ==> r == s
  {
    RemoveAll(RemoveAll(s, ' '), '-')
  }

  predicate IsDigit(c: char) {
    '0' <= c <= '9'
  }

  predicate AllDigits(s: string) {
    forall i | 0 <= i < |s| :: IsDigit(s[i])
  }

  const CountryCode: string := "+233"

  /** The pattern `^\+233\d{9}$`. */
  predicate IsInternationalForm(s: string) {
    |s| == 13 && s[..4] == CountryCode && AllDigits(s[4..])
  }

  /** The pattern `^0\d{9}$`. */
  predicate IsLocalForm(s: string) {
    |s| == 10 && s[0] == '0' && AllDigits(s[1..])
  }

  /** Which of the two patterns a cleaned number matches, with the 9-digit
      subscriber suffix that follows the `+233` or the leading `0`. */
  datatype Shape = International(suffix: string) | Local(suffix: string) | Unshaped

  function MatchShape(s: string): (m: Shape)
    ensures m.International? <==> IsInternationalForm(s)
    ensures m.Local? <==> IsLocalForm(s)
    ensures m.International? ==> s == CountryCode + m.suffix
    ensures m.Local? ==> s == "0" + m.suffix
    ensures !m.Unshaped? ==> |m.suffix| == 9 && AllDigits(m.suffix)
  {
    if IsInternationalForm(s) then International(s[4..])
    else if IsLocalForm(s) then Local(s[1..])
    else Unshaped
  }

  /** The fixed carrier table, keyed by three characters. */
  const Carriers: map<string, string> := map[
    "024" := "MTN", "025" := "MTN", "053" := "MTN", "054" := "MTN", "055" := "MTN", "059" := "MTN",
    "020" := "Vodafone", "050" := "Vodafone",
    "026" := "AirtelTigo", "027" := "AirtelTigo", "056" := "AirtelTigo", "057" := "AirtelTigo",
    "023" := "Glo",
    "028" := "Expresso"
  ]

  /** Every key of the carrier table is three digits beginning with '0'. */
  lemma CarrierKeysStartWithZero(key: string)
    requires key in Carriers
    ensures |key| == 3 && key[0] == '0' && AllDigits(key)
  {
  }

  /** The 4-tuple (valid, message, formatted, carrier) of the classifier;
      `carrier` is None where the source returns Python's None. */
  datatype Verdict = Verdict(valid: bool, message: string, formatted: string, carrier: Option<string>)

  /** The number in the other canonical shape, carrying the same suffix. */
  function Opposite(m: Shape): string
    requires !m.Unshaped?
  {
    if m.International? then "0" + m.suffix else CountryCode + m.suffix
  }

  /** is_valid_ghana_number. The table is consulted with the first three
      characters of the suffix, i.e. of what follows the `0` or the `+233`. */
  function Classify(number: string): (v: Verdict)
    ensures v.valid <==> v.carrier.Some?
    ensures v.valid ==> v.message == "Valid (" + v.carrier.value + ")"
    ensures !v.valid ==> v.formatted == Clean(number) && (v.message == "Invalid format" || v.message == "Invalid prefix")
  {
    var cleaned := Clean(number);
    var shape := MatchShape(cleaned);
    if shape.Unshaped? then
      Verdict(false, "Invalid format", cleaned, None)
    else
      var prefix := shape.suffix[..3];
      if prefix in Carriers then
        Verdict(true, "Valid (" + Carriers[prefix] + ")", Opposite(shape), Some(Carriers[prefix]))
      else
        Verdict(false, "Invalid prefix", cleaned, None)
  }

  /** convert_format without the entry widget: Some(converted text), or None
      where the source shows "Not a valid number to convert." and leaves the
      entry alone. Only the shape and the length are checked. */
  function Convert(raw: string): (r: Option<string>)
    ensures r.Some? <==>
      (|Clean(raw)| == 10 && Clean(raw)[0] == '0') ||
      (|Clean(raw)| == 13 && Clean(raw)[..4] == CountryCode)
  {
    var number := Clean(raw);
    if |number| > 0 && number[0] == '0' && |number| == 10 then
      Some(CountryCode + number[1..])
    else if |number| >= 4 && number[..4] == CountryCode && |number| == 13 then
      Some("0" + number[4..])
    else
      None
  }

  // ---------------------------------------------------------------------
  // Properties of the classifier

  lemma DigitsAreClean(s: string)
    requires AllDigits(s)
    ensures Clean(s) == s
  {
  }

  /** Cleaning works character by character: it distributes over
      concatenation ... */
  lemma {:induction false} RemoveAllAppend(a: string, b: string, ch: char)
    ensures RemoveAll(a + b, ch) == RemoveAll(a, ch) + RemoveAll(b, ch)
  {
    if a == [] {
      assert a + b == b;
    } else {
      assert (a + b)[1..] == a[1..] + b;
      RemoveAllAppend(a[1..], b, ch);
    }
  }

  lemma CleanAppend(a: string, b: string)
    ensures Clean(a + b) == Clean(a) + Clean(b)
  {
    RemoveAllAppend(a, b, ' ');
    RemoveAllAppend(RemoveAll(a, ' '), RemoveAll(b, ' '), '-');
  }

  /** ... and drops a single character exactly when it is a space or a
      hyphen. */
  lemma CleanChar(c: char)
    ensures Clean([c]) == if c == ' ' || c == '-' then [] else [c]
  {
  }

  /** A cleaned string of neither canonical shape is an "Invalid format",
      echoed cleaned; and that verdict arises in no other way. */
  lemma FormatErrorExactly(raw: string)
    ensures (!IsInternationalForm(Clean(raw)) && !IsLocalForm(Clean(raw))) <==>
            Classify(raw) == Verdict(false, "Invalid format", Clean(raw), None)
  {
  }

  /** A cleaned number of either canonical shape with 9-digit suffix `suffix`
      is accepted exactly when the first three characters of `suffix` are a
      table key; then the suffix starts with '0', the carrier is the table's,
      and `formatted` is the other shape with the same suffix. Otherwise it is
      an "Invalid prefix", echoing the cleaned input unconverted. */
  lemma ClassifyShaped(raw: string, suffix: string)
    requires |suffix| == 9 && AllDigits(suffix)
    requires Clean(raw) == "0" + suffix || Clean(raw) == CountryCode + suffix
    ensures Classify(raw).valid <==> suffix[..3] in Carriers
    ensures Classify(raw).valid ==>
      suffix[0] == '0' &&
      Classify(raw).carrier == Some(Carriers[suffix[..3]]) &&
      Classify(raw).formatted == (if Clean(raw)[0] == '0' then CountryCode else "0") + suffix
    ensures !Classify(raw).valid ==>
      Classify(raw) == Verdict(false, "Invalid prefix", Clean(raw), None)
  {
  }

  /** A local-shape number and its international counterpart classify alike:
      same validity and same carrier, each formatted as the other. */
  lemma ShapeSymmetry(suffix: string)
    requires |suffix| == 9 && AllDigits(suffix)
    ensures Classify("0" + suffix).valid == Classify(CountryCode + suffix).valid
    ensures Classify("0" + suffix).carrier == Classify(CountryCode + suffix).carrier
    ensures Classify("0" + suffix).valid ==>
      Classify("0" + suffix).formatted == CountryCode + suffix &&
      Classify(CountryCode + suffix).formatted == "0" + suffix
  {
  }

  /** Re-classifying the `formatted` output of an accepted number accepts it
      with the same carrier and formats it back to the cleaned input. */
  lemma ReclassifyFormatted(raw: string)
    requires Classify(raw).valid
    ensures Classify(Classify(raw).formatted).valid
    ensures Classify(Classify(raw).formatted).carrier == Classify(raw).carrier
    ensures Classify(Classify(raw).formatted).formatted == Clean(raw)
  {
  }

  /** For an accepted number, `formatted` is exactly what the format
      conversion makes of the same input. */
  lemma FormattedIsConversion(raw: string)
    requires Classify(raw).valid
    ensures Convert(raw) == Some(Classify(raw).formatted)
  {
  }

  // ---------------------------------------------------------------------
  // Properties of the conversion

  /** A conversion swaps the leading `0` and `+233` and keeps everything
      after them. */
  lemma ConvertSwapsPrefix(raw: string)
    requires Convert(raw).Some?
    ensures var c, x := Clean(raw), Convert(raw).value;
      (|c| == 10 && x == CountryCode + c[1..]) ||
      (|c| == 13 && c[..4] == CountryCode && x == "0" + c[4..])
  {
  }

  /** Converting a converted number gives back the cleaned input. */
  lemma ConvertRoundTrip(raw: string)
    requires Convert(raw).Some?
    ensures Convert(Convert(raw).value) == Some(Clean(raw))
  {
    var c, x := Clean(raw), Convert(raw).value;
    assert ' ' !in CountryCode && '-' !in CountryCode;
    assert forall ch :: ch in x ==> ch in CountryCode || ch in c || ch == '0';
    assert Clean(x) == x;
    if |c| == 10 && c[0] == '0' {
      assert x[..4] == CountryCode && x[4..] == c[1..];
      assert "0" + c[1..] == c;
    } else {
      assert x[1..] == c[4..];
      assert CountryCode + c[4..] == c;
    }
  }

  /** The conversion checks no digits: any ten characters after spaces and
      hyphens are dropped, the first of them '0', are converted. */
  lemma ConvertIgnoresDigits(rest: string)
    requires |rest| == 9 && ' ' !in rest && '-' !in rest
    ensures Convert("0" + rest) == Some(CountryCode + rest)
  {
  }

  /** The conversion checks no carrier prefix: a well-shaped number that the
      classifier rejects as "Invalid prefix" is still converted. */
  lemma ConvertIgnoresCarrier(suffix: string)
    requires |suffix| == 9 && AllDigits(suffix) && suffix[..3] !in Carriers
    ensures Convert("0" + suffix) == Some(CountryCode + suffix)
    ensures Classify("0" + suffix) == Verdict(false, "Invalid prefix", "0" + suffix, None)
  {
  }

  /** Because the lookup key is taken after the leading `0`, "0024123456" is
      the accepted MTN number ... */
  lemma ExampleAccepted(s: string)
    requires s == "0024123456"
    ensures Classify(s) == Verdict(true, "Valid (MTN)", "+233024123456", Some("MTN"))
  {
    var suffix := s[1..];
    assert AllDigits(s);
    DigitsAreClean(s);
    assert suffix[..3] == "024";
    ClassifyShaped(s, suffix);
  }

  /** ... and the everyday form "0244123456" is rejected. */
  lemma ExampleRejectedPrefix(s: string)
    requires s == "0244123456"
    ensures Classify(s) == Verdict(false, "Invalid prefix", s, None)
  {
    var suffix := s[1..];
    assert AllDigits(s);
    DigitsAreClean(s);
    assert suffix[..3] == "244";
    ClassifyShaped(s, suffix);
  }

  lemma ExampleBadFormat(s: string)
    requires s == "12345"
    ensures Classify(s) == Verdict(false, "Invalid format", s, None)
  {
    assert AllDigits(s);
    DigitsAreClean(s);
  }
}

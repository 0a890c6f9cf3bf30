/**
 * Postal-code rules per country (src/forms/zip-patterns.js).
 *
 * Every regular expression of the table is anchored (`^…$`, no `m` flag)
 * and is written here as an explicit predicate over the character
 * positions of the input. The `i` flag of the four case-insensitive
 * patterns lets `[A-Z]` match ASCII letters of either case and nothing
 * else (a regular expression without the `u` flag folds only ASCII).
 */
module ZipPatterns {
  import opened Strings

  predicate NonZeroDigit(c: char) { '1' <= c <= '9' }

  /** `[0-9]` at every position in `lo..hi`. */
  predicate DigitsIn(z: string, lo: nat, hi: nat)
    requires lo <= hi <= |z|
  {
    forall i :: lo <= i < hi ==> IsDigit(z[i])
  }

  /** `[A-Z0-9]` under the `i` flag at every position in `lo..hi`. */
  predicate AlnumIn(z: string, lo: nat, hi: nat)
    requires lo <= hi <= |z|
  {
    forall i :: lo <= i < hi ==> IsAlnum(z[i])
  }

  /** A pattern letter matched under the `i` flag. */
  predicate CaseFolded(c: char, d: char)
  {
    UpperChar(c) == d
  }

  /** The distinct regular expressions of the table. */
  datatype Pattern =
    | GermanPlz                 // ^(?:0[1-9]|[1-9][0-9])[0-9]{3}$
    | NonZeroFour               // ^[1-9][0-9]{3}$
    | UkPostcode                // ^([A-Z]{1,2}[0-9][A-Z0-9]? ?[0-9][A-Z]{2}|GIR ?0AA)$/i
    | FrenchCode                // ^(?:0[1-9]|[1-8][0-9]|9[0-8])[0-9]{3}$
    | SpanishCode               // ^(?:0[1-9]|[1-4][0-9]|5[0-2])[0-9]{3}$
    | DutchPostcode             // ^[1-9][0-9]{3} ?[A-Z]{2}$/i
    | Digits(count: nat)        // ^[0-9]{count}$
    | DigitGroups(before: nat, sep: char, optional: bool, after: nat)
                                // ^[0-9]{before}sep[0-9]{after}$, `sep?` when optional
    | PortugueseCode            // ^[1-9][0-9]{3}-[0-9]{3}$
    | Eircode                   // ^(?:[A-Z][0-9]{2} ?[A-Z0-9]{4}|[A-Z]{3} ?[A-Z0-9]{4})$/i
    | UsZip                     // ^[0-9]{5}(-[0-9]{4})?$
    | CanadianPostcode          // ^[A-Z][0-9][A-Z] ?[0-9][A-Z][0-9]$/i

  /** The patterns carrying the `i` flag. */
  predicate IgnoresCase(p: Pattern)
  {
    p.UkPostcode? || p.DutchPostcode? || p.Eircode? || p.CanadianPostcode?
  }

  /** `[A-Z]{1,2}[0-9][A-Z0-9]?` on the first `n` characters. */
  predicate UkOutward(z: string, n: nat)
    requires n <= |z|
  {
    (n == 2 && IsLetter(z[0]) && IsDigit(z[1]))
    || (n == 3 && IsLetter(z[0]) && ((IsDigit(z[1]) && IsAlnum(z[2])) || (IsLetter(z[1]) && IsDigit(z[2]))))
    || (n == 4 && IsLetter(z[0]) && IsLetter(z[1]) && IsDigit(z[2]) && IsAlnum(z[3]))
  }

  /** `[0-9][A-Z]{2}` at position `i`. */
  predicate UkInward(z: string, i: nat)
    requires i + 3 <= |z|
  {
    IsDigit(z[i]) && IsLetter(z[i + 1]) && IsLetter(z[i + 2])
  }

  /** The first alternative: outward code, optional space, inward code (which
      is always the last three characters). */
  predicate UkStandard(z: string)
  {
    |z| >= 3 && UkInward(z, |z| - 3)
    && (UkOutward(z, |z| - 3) || (|z| >= 4 && z[|z| - 4] == ' ' && UkOutward(z, |z| - 4)))
  }

  /** `0AA` at position `i`. */
  predicate GiroTail(z: string, i: nat)
    requires i + 3 <= |z|
  {
    z[i] == '0' && CaseFolded(z[i + 1], 'A') && CaseFolded(z[i + 2], 'A')
  }

  /** The second alternative, `GIR ?0AA`. */
  predicate UkGiro(z: string)
  {
    |z| >= 6 && CaseFolded(z[0], 'G') && CaseFolded(z[1], 'I') && CaseFolded(z[2], 'R')
    && ((|z| == 6 && GiroTail(z, 3)) || (|z| == 7 && z[3] == ' ' && GiroTail(z, 4)))
  }

  /** `[A-Z][0-9]{2}` or `[A-Z]{3}` at the start. */
  predicate IrishRouting(z: string)
    requires |z| >= 3
  {
    (IsLetter(z[0]) && IsDigit(z[1]) && IsDigit(z[2]))
    || (IsLetter(z[0]) && IsLetter(z[1]) && IsLetter(z[2]))
  }

  predicate LetterDigitLetter(z: string, i: nat)
    requires i + 3 <= |z|
  {
    IsLetter(z[i]) && IsDigit(z[i + 1]) && IsLetter(z[i + 2])
  }

  predicate DigitLetterDigit(z: string, i: nat)
    requires i + 3 <= |z|
  {
    IsDigit(z[i]) && IsLetter(z[i + 1]) && IsDigit(z[i + 2])
  }

  /** `pattern.test(z)` */
  predicate Matches(p: Pattern, z: string)
  {
    match p
    case GermanPlz =>
      |z| == 5 && ((z[0] == '0' && NonZeroDigit(z[1])) || (NonZeroDigit(z[0]) && IsDigit(z[1])))
      && DigitsIn(z, 2, 5)
    case NonZeroFour =>
      |z| == 4 && NonZeroDigit(z[0]) && DigitsIn(z, 1, 4)
    case UkPostcode =>
      UkStandard(z) || UkGiro(z)
    case FrenchCode =>
      |z| == 5
      && ((z[0] == '0' && NonZeroDigit(z[1])) || ('1' <= z[0] <= '8' && IsDigit(z[1])) || (z[0] == '9' && '0' <= z[1] <= '8'))
      && DigitsIn(z, 2, 5)
    case SpanishCode =>
      |z| == 5
      && ((z[0] == '0' && NonZeroDigit(z[1])) || ('1' <= z[0] <= '4' && IsDigit(z[1])) || (z[0] == '5' && '0' <= z[1] <= '2'))
      && DigitsIn(z, 2, 5)
    case DutchPostcode =>
      |z| >= 6 && NonZeroDigit(z[0]) && DigitsIn(z, 1, 4)
      && ((|z| == 6 && IsLetter(z[4]) && IsLetter(z[5]))
          || (|z| == 7 && z[4] == ' ' && IsLetter(z[5]) && IsLetter(z[6])))
    case Digits(n) =>
      |z| == n && DigitsIn(z, 0, n)
    case DigitGroups(a, sep, optional, b) =>
      (|z| == a + 1 + b && DigitsIn(z, 0, a) && z[a] == sep && DigitsIn(z, a + 1, |z|))
      || (optional && |z| == a + b && DigitsIn(z, 0, |z|))
    case PortugueseCode =>
      |z| == 8 && NonZeroDigit(z[0]) && DigitsIn(z, 1, 4) && z[4] == '-' && DigitsIn(z, 5, 8)
    case Eircode =>
      |z| >= 7 && IrishRouting(z)
      && ((|z| == 7 && AlnumIn(z, 3, 7)) || (|z| == 8 && z[3] == ' ' && AlnumIn(z, 4, 8)))
    case UsZip =>
      (|z| == 5 && DigitsIn(z, 0, 5))
      || (|z| == 10 && DigitsIn(z, 0, 5) && z[5] == '-' && DigitsIn(z, 6, 10))
    case CanadianPostcode =>
      (|z| == 6 && LetterDigitLetter(z, 0) && DigitLetterDigit(z, 3))
      || (|z| == 7 && LetterDigitLetter(z, 0) && z[3] == ' ' && DigitLetterDigit(z, 4))
  }

  /** A row of the table; `min`/`max` are absent except for Germany. */
  datatype ZipRule = ZipRule(pattern: Pattern, min: Option<int>, max: Option<int>, format: string)

  function Plain(p: Pattern, format: string): ZipRule
  {
    ZipRule(p, None, None, format)
  }

  /** `zipPatterns` */
  const ZIP_PATTERNS: map<string, ZipRule> := map[
    "Germany" := ZipRule(GermanPlz, Some(1001), Some(99998), "5 digits (01001-99998)"),
    "Austria" := Plain(NonZeroFour, "4 digits (1000-9999)"),
    "Switzerland" := Plain(NonZeroFour, "4 digits (1000-9999)"),
    "United Kingdom" := Plain(UkPostcode, "UK format (e.g., SW1A 1AA)"),
    "France" := Plain(FrenchCode, "5 digits (01000-98999)"),
    "Italy" := Plain(Digits(5), "5 digits (00010-99999)"),
    "Spain" := Plain(SpanishCode, "5 digits (01000-52999)"),
    "Netherlands" := Plain(DutchPostcode, "4 digits + 2 letters (e.g., 1234 AB)"),
    "Belgium" := Plain(NonZeroFour, "4 digits (1000-9999)"),
    "Poland" := Plain(DigitGroups(2, '-', false, 3), "2 digits-3 digits (e.g., 00-999)"),
    "Sweden" := Plain(DigitGroups(3, ' ', true, 2), "5 digits with optional space (e.g., 123 45)"),
    "Denmark" := Plain(NonZeroFour, "4 digits (1000-9999)"),
    "Norway" := Plain(Digits(4), "4 digits (0001-9999)"),
    "Finland" := Plain(Digits(5), "5 digits (00000-99999)"),
    "Portugal" := Plain(PortugueseCode, "4 digits-3 digits (e.g., 1000-999)"),
    "Czech Republic" := Plain(DigitGroups(3, ' ', true, 2), "5 digits with optional space (e.g., 123 45)"),
    "Hungary" := Plain(NonZeroFour, "4 digits (1000-9999)"),
    "Romania" := Plain(Digits(6), "6 digits"),
    "Greece" := Plain(DigitGroups(3, ' ', true, 2), "5 digits with optional space"),
    "Ireland" := Plain(Eircode, "Irish format (e.g., D02 AF30)"),
    "United States" := Plain(UsZip, "5 digits or 5+4 (e.g., 12345 or 12345-6789)"),
    "Canada" := Plain(CanadianPostcode, "A1A 1A1 format"),
    "Australia" := Plain(Digits(4), "4 digits (0200-9999)"),
    "New Zealand" := Plain(Digits(4), "4 digits (0110-9999)"),
    "Japan" := Plain(DigitGroups(3, '-', false, 4), "3 digits-4 digits (e.g., 100-0001)"),
    "South Korea" := Plain(Digits(5), "5 digits"),
    "China" := Plain(Digits(6), "6 digits"),
    "India" := Plain(Digits(6), "6 digits"),
    "Brazil" := Plain(DigitGroups(5, '-', true, 3), "5 digits-3 digits (e.g., 12345-678)"),
    "Mexico" := Plain(Digits(5), "5 digits"),
    "Russia" := Plain(Digits(6), "6 digits")
  ]

  // ---------------------------------------------------------------------------
  // parseInt(z, 10)
  // ---------------------------------------------------------------------------

  function DigitValue(c: char): int
  {
    c as int - '0' as int
  }

  /** The decimal value of the first `n` characters. */
  function PrefixValue(s: string, n: nat): int
    requires n <= |s|
  {
    if n == 0 then 0 else 10 * PrefixValue(s, n - 1) + DigitValue(s[n - 1])
  }

  /** The length of the run of digits at the start of `s`. */
  function DigitRun(s: string): (k: nat)
    ensures k <= |s| && DigitsIn(s, 0, k)
    ensures k == |s| || !IsDigit(s[k])
  {
    if s != [] && IsDigit(s[0]) then 1 + DigitRun(s[1..]) else 0
  }

  /** `parseInt(s, 10)`: leading whitespace skipped, an optional sign, then
      the longest run of digits; `None` stands for NaN. */
  function ParseInt(s: string): Option<int>
  {
    var t := TrimStart(s);
    var negative := t != [] && t[0] == '-';
    var u := if t != [] && (t[0] == '-' || t[0] == '+') then t[1..] else t;
    var k := DigitRun(u);
    if k == 0 then None
    else Some(if negative then -PrefixValue(u, k) else PrefixValue(u, k))
  }

  /** A non-empty string of digits parses to its decimal value. */
  lemma ParseIntDigits(s: string)
    requires s != [] && DigitsIn(s, 0, |s|)
    ensures ParseInt(s) == Some(PrefixValue(s, |s|))
  {
    assert IsDigit(s[0]) && !IsJsWhitespace(s[0]);
    assert TrimStart(s) == s;
    assert s[0] != '-' && s[0] != '+';
    DigitRunAll(s);
  }

  lemma {:induction false} DigitRunAll(s: string)
    requires DigitsIn(s, 0, |s|)
    ensures DigitRun(s) == |s|
  {
    if s != [] {
      assert DigitsIn(s[1..], 0, |s[1..]|) by {
        forall i | 0 <= i < |s[1..]| ensures IsDigit(s[1..][i]) {
          assert s[1..][i] == s[i + 1];
        }
      }
      DigitRunAll(s[1..]);
    }
  }

  // ---------------------------------------------------------------------------
  // validateZipCode / getZipFormat
  // ---------------------------------------------------------------------------

  /** `{ valid, format? }` */
  datatype ZipResult = ZipResult(valid: bool, format: Option<string>)

  /** The range check: only when both bounds are present, and NaN fails it. */
  predicate InRange(rule: ZipRule, zip: string)
  {
    rule.min.Some? && rule.max.Some? ==>
      ParseInt(zip).Some? && rule.min.value <= ParseInt(zip).value <= rule.max.value
  }

  /** `validateZipCode(zipCode, country)` against a rules table. */
  function ValidateIn(table: map<string, ZipRule>, zip: string, country: string): (r: ZipResult)
    ensures zip == [] || country == [] ==> r == ZipResult(false, None)
    ensures zip != [] && country != [] && country !in table ==> r == ZipResult(true, None)
    ensures zip != [] && country != [] && country in table ==>
      r.format == Some(table[country].format)
      && (r.valid <==> Matches(table[country].pattern, zip) && InRange(table[country], zip))
  {
    if zip == [] || country == [] then ZipResult(false, None)
    else if country !in table then ZipResult(true, None)
    else
      var rules := table[country];
      var isValid := Matches(rules.pattern, zip);
      var isValid' := if isValid && rules.min.Some? && rules.max.Some? then
          (match ParseInt(zip)
           case None => false
           case Some(n) => rules.min.value <= n && n <= rules.max.value)
        else isValid;
      ZipResult(isValid', Some(rules.format))
  }

  /** `validateZipCode(zipCode, country)`: the check against `zipPatterns`. */
  function ValidateZipCode(zip: string, country: string): (r: ZipResult)
    ensures zip == [] || country == [] ==> r == ZipResult(false, None)
    ensures zip != [] && country != [] && country !in ZIP_PATTERNS ==> r == ZipResult(true, None)
    ensures zip != [] && country in ZIP_PATTERNS ==>
      r.format == Some(ZIP_PATTERNS[country].format)
      && (r.valid <==> Matches(ZIP_PATTERNS[country].pattern, zip) && InRange(ZIP_PATTERNS[country], zip))
  {
    ValidateIn(ZIP_PATTERNS, zip, country)
  }

  /** `getZipFormat(country)`; `None` stands for `null`. */
  function GetZipFormat(country: string): (r: Option<string>)
    ensures country !in ZIP_PATTERNS ==> r == None
  {
    if country in ZIP_PATTERNS && ZIP_PATTERNS[country].format != [] then Some(ZIP_PATTERNS[country].format)
    else None
  }

  // ---------------------------------------------------------------------------
  // Properties of the table
  // ---------------------------------------------------------------------------

  /** Germany is the only country with a numeric range. */
  lemma OnlyGermanyHasRange(country: string)
    requires country in ZIP_PATTERNS && country != "Germany"
    ensures ZIP_PATTERNS[country].min == None && ZIP_PATTERNS[country].max == None
  {
  }

  /** Every listed country has a non-empty format, so `getZipFormat` and
      `validateZipCode` report the same one. */
  lemma FormatAgrees(country: string, zip: string)
    requires zip != []
    ensures GetZipFormat(country) == ValidateZipCode(zip, country).format
  {
    if country in ZIP_PATTERNS {
      assert ZIP_PATTERNS[country].format != [];
    }
  }

  /** Outside Germany a listed country's ZIP is valid exactly when the
      pattern matches. */
  lemma PatternDecides(zip: string, country: string)
    requires zip != [] && country in ZIP_PATTERNS && country != "Germany"
    ensures ValidateZipCode(zip, country).valid <==> Matches(ZIP_PATTERNS[country].pattern, zip)
  {
    OnlyGermanyHasRange(country);
  }

  /** The value of five digits. */
  lemma FiveDigitValue(z: string)
    requires |z| == 5 && DigitsIn(z, 0, 5)
    ensures PrefixValue(z, 5) == 10000 * DigitValue(z[0]) + 1000 * DigitValue(z[1])
      + 100 * DigitValue(z[2]) + 10 * DigitValue(z[3]) + DigitValue(z[4])
    ensures 0 <= PrefixValue(z, 5) <= 99999
  {
    assert PrefixValue(z, 1) == DigitValue(z[0]);
    assert PrefixValue(z, 2) == 10 * DigitValue(z[0]) + DigitValue(z[1]);
    assert PrefixValue(z, 3) == 100 * DigitValue(z[0]) + 10 * DigitValue(z[1]) + DigitValue(z[2]);
    assert PrefixValue(z, 4) == 1000 * DigitValue(z[0]) + 100 * DigitValue(z[1]) + 10 * DigitValue(z[2]) + DigitValue(z[3]);
    assert IsDigit(z[0]) && IsDigit(z[1]) && IsDigit(z[2]) && IsDigit(z[3]) && IsDigit(z[4]);
  }

  lemma GermanyRule()
    ensures "Germany" in ZIP_PATTERNS
    ensures ZIP_PATTERNS["Germany"] == ZipRule(GermanPlz, Some(1001), Some(99998), "5 digits (01001-99998)")
  {
  }

  /** Five digits match the German pattern exactly when their value is at
      least 1000, that is, when they do not start with "00". */
  lemma GermanPlzValue(z: string)
    requires |z| == 5 && DigitsIn(z, 0, 5)
    ensures Matches(GermanPlz, z) <==> PrefixValue(z, 5) >= 1000
    ensures 0 <= PrefixValue(z, 5) <= 99999
  {
    FiveDigitValue(z);
  }

  lemma GermanyChecks(zip: string)
    requires zip != []
    ensures ValidateZipCode(zip, "Germany").valid <==> Matches(GermanPlz, zip) && InRange(ZIP_PATTERNS["Germany"], zip)
  {
    GermanyRule();
  }

  lemma GermanyRange(zip: string)
    requires |zip| == 5 && DigitsIn(zip, 0, 5)
    ensures InRange(ZipRule(GermanPlz, Some(1001), Some(99998), "5 digits (01001-99998)"), zip)
      <==> 1001 <= PrefixValue(zip, 5) <= 99998
  {
    ParseIntDigits(zip);
  }

  lemma GermanyFiveDigits(zip: string)
    requires |zip| == 5 && DigitsIn(zip, 0, 5)
    ensures ValidateZipCode(zip, "Germany").valid <==> 1001 <= PrefixValue(zip, 5) <= 99998
  {
    GermanyRule();
    GermanyChecks(zip);
    GermanPlzValue(zip);
    GermanyRange(zip);
  }

  lemma GermanyMalformed(zip: string)
    requires !(|zip| == 5 && DigitsIn(zip, 0, 5))
    ensures !ValidateZipCode(zip, "Germany").valid
  {
    if zip != [] {
      GermanyChecks(zip);
    }
  }

  /** A German ZIP is valid exactly when it is five digits whose value lies
      in 1001..99998: the pattern already rules out a leading "00", the
      range adds the two ends. */
  lemma {:induction false} GermanyExact(zip: string)
    ensures ValidateZipCode(zip, "Germany").valid <==>
      |zip| == 5 && DigitsIn(zip, 0, 5) && 1001 <= PrefixValue(zip, 5) <= 99998
  {
    if |zip| == 5 && DigitsIn(zip, 0, 5) {
      GermanyFiveDigits(zip);
    } else {
      GermanyMalformed(zip);
    }
  }

  /** "01000" and "99999" match the German pattern but fall outside the
      range. */
  lemma GermanyEndsRejected()
    ensures Matches(GermanPlz, "01000") && !ValidateZipCode("01000", "Germany").valid
    ensures Matches(GermanPlz, "99999") && !ValidateZipCode("99999", "Germany").valid
  {
    assert DigitsIn("01000", 0, 5) && DigitsIn("99999", 0, 5);
    FiveDigitValue("01000");
    GermanyFiveDigits("01000");
    FiveDigitValue("99999");
    GermanyFiveDigits("99999");
  }

  /** "01001" and "99998", the ends of the range, are accepted. */
  lemma GermanyEndsAccepted()
    ensures ValidateZipCode("01001", "Germany").valid
    ensures ValidateZipCode("99998", "Germany").valid
  {
    assert DigitsIn("01001", 0, 5) && DigitsIn("99998", 0, 5);
    FiveDigitValue("01001");
    GermanyFiveDigits("01001");
    FiveDigitValue("99998");
    GermanyFiveDigits("99998");
  }

  /** Changing the case of a character changes none of the classes the
      case-insensitive patterns use. */
  lemma CaseClasses(c: char)
    ensures IsLetter(UpperChar(c)) == IsLetter(c) && IsLetter(LowerChar(c)) == IsLetter(c)
    ensures IsDigit(UpperChar(c)) == IsDigit(c) && IsDigit(LowerChar(c)) == IsDigit(c)
    ensures IsAlnum(UpperChar(c)) == IsAlnum(c) && IsAlnum(LowerChar(c)) == IsAlnum(c)
    ensures (UpperChar(c) == ' ') == (c == ' ') && (LowerChar(c) == ' ') == (c == ' ')
    ensures UpperChar(UpperChar(c)) == UpperChar(c) && UpperChar(LowerChar(c)) == UpperChar(c)
  {
  }

  /** `y` and `z` agree position by position on every class a
      case-insensitive pattern can test. */
  predicate SameClasses(y: string, z: string)
  {
    |y| == |z| &&
    forall i :: 0 <= i < |z| ==>
      IsLetter(y[i]) == IsLetter(z[i]) && IsDigit(y[i]) == IsDigit(z[i]) && IsAlnum(y[i]) == IsAlnum(z[i])
      && (y[i] == ' ') == (z[i] == ' ') && UpperChar(y[i]) == UpperChar(z[i])
  }

  lemma UkSameClasses(y: string, z: string)
    requires SameClasses(y, z)
    ensures Matches(UkPostcode, y) <==> Matches(UkPostcode, z)
  {
    if |z| >= 3 {
      var n := |z|;
      assert UkInward(y, n - 3) == UkInward(z, n - 3);
      assert UkOutward(y, n - 3) == UkOutward(z, n - 3);
      if n >= 4 {
        assert UkOutward(y, n - 4) == UkOutward(z, n - 4);
      }
      if n >= 6 {
        assert GiroTail(y, 3) == GiroTail(z, 3);
      }
      if n >= 7 {
        assert GiroTail(y, 4) == GiroTail(z, 4);
      }
    }
  }

  lemma DutchSameClasses(y: string, z: string)
    requires SameClasses(y, z)
    ensures Matches(DutchPostcode, y) <==> Matches(DutchPostcode, z)
  {
    if |z| >= 6 {
      assert DigitsIn(y, 1, 4) == DigitsIn(z, 1, 4);
    }
  }

  lemma IrishSameClasses(y: string, z: string)
    requires SameClasses(y, z)
    ensures Matches(Eircode, y) <==> Matches(Eircode, z)
  {
    if |z| == 7 {
      assert AlnumIn(y, 3, 7) == AlnumIn(z, 3, 7);
    }
    if |z| == 8 {
      assert AlnumIn(y, 4, 8) == AlnumIn(z, 4, 8);
    }
  }

  lemma CanadianSameClasses(y: string, z: string)
    requires SameClasses(y, z)
    ensures Matches(CanadianPostcode, y) <==> Matches(CanadianPostcode, z)
  {
  }

  /** The four case-insensitive patterns accept a ZIP exactly when they accept
      its upper-case or lower-case form. */
  lemma IgnoresCaseSound(p: Pattern, z: string)
    requires IgnoresCase(p)
    ensures Matches(p, ToUpper(z)) <==> Matches(p, z)
    ensures Matches(p, ToLower(z)) <==> Matches(p, z)
  {
    forall i | 0 <= i < |z| {
      CaseClasses(z[i]);
    }
    assert SameClasses(ToUpper(z), z);
    assert SameClasses(ToLower(z), z);
    match p
    case UkPostcode =>
      UkSameClasses(ToUpper(z), z);
      UkSameClasses(ToLower(z), z);
    case DutchPostcode =>
      DutchSameClasses(ToUpper(z), z);
      DutchSameClasses(ToLower(z), z);
    case Eircode =>
      IrishSameClasses(ToUpper(z), z);
      IrishSameClasses(ToLower(z), z);
    case CanadianPostcode =>
      CanadianSameClasses(ToUpper(z), z);
      CanadianSameClasses(ToLower(z), z);
  }

  /** Hence lower-case input is accepted in the United Kingdom, the
      Netherlands, Ireland and Canada whenever its upper case is, and the
      other way round. */
  lemma LowerCaseAccepted(zip: string, country: string)
    requires country == "United Kingdom" || country == "Netherlands" || country == "Ireland" || country == "Canada"
    ensures ValidateZipCode(ToLower(zip), country) == ValidateZipCode(zip, country)
    ensures ValidateZipCode(ToUpper(zip), country) == ValidateZipCode(zip, country)
  {
    var p := ZIP_PATTERNS[country].pattern;
    assert IgnoresCase(p);
    IgnoresCaseSound(p, zip);
    OnlyGermanyHasRange(country);
  }

  lemma UkExamples()
    ensures ValidateZipCode("SW1A 1AA", "United Kingdom").valid
    ensures ValidateZipCode("sw1a 1aa", "United Kingdom").valid
    ensures ValidateZipCode("gir 0aa", "United Kingdom").valid
    ensures !ValidateZipCode("SW1A-1AA", "United Kingdom").valid
  {
    OnlyGermanyHasRange("United Kingdom");
    assert UkInward("SW1A 1AA", 5) && UkOutward("SW1A 1AA", 4);
    assert UkInward("sw1a 1aa", 5) && UkOutward("sw1a 1aa", 4);
    assert GiroTail("gir 0aa", 4);
    assert !UkOutward("SW1A-1AA", 5);
  }

  /** United States: five digits, optionally a dash and four more. Poland:
      exactly two digits, a dash, three digits. */
  lemma UsAndPolandShapes(zip: string)
    ensures zip != [] ==> (ValidateZipCode(zip, "United States").valid <==>
      (|zip| == 5 && DigitsIn(zip, 0, 5)) || (|zip| == 10 && DigitsIn(zip, 0, 5) && zip[5] == '-' && DigitsIn(zip, 6, 10)))
    ensures zip != [] ==> (ValidateZipCode(zip, "Poland").valid <==>
      |zip| == 6 && DigitsIn(zip, 0, 2) && zip[2] == '-' && DigitsIn(zip, 3, 6))
  {
    OnlyGermanyHasRange("United States");
    OnlyGermanyHasRange("Poland");
  }
}

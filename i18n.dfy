/**
 * Message lookup and placeholder substitution (src/core/i18n.js).
 *
 * The language is a parameter; `Config.GetLanguage` computes it from the
 * page path. Replacements are the entries of the replacements object in
 * insertion order. `String.prototype.replace` with a string pattern replaces
 * the first occurrence only and expands `$$`, `$&`, `` $` `` and `$'` in the
 * replacement text; the global regular-expression replacements of
 * `translateZipFormat` are modelled by a left-to-right scanner.
 */
module I18n {
  import opened Strings
  import opened Config

  datatype Translation = Translation(de: string, en: string)

  function In(t: Translation, lang: Lang): string
  {
    match lang
    case De => t.de
    case En => t.en
  }

  /** The text of `zip_invalid` in front of `{country}`, and between
      `{country}` and `{format}`. */
  function ZipInvalidLead(lang: Lang): string
  {
    if lang == De then "Ungültige Postleitzahl für " else "Invalid ZIP code for "
  }

  function ZipInvalidMiddle(lang: Lang): string
  {
    if lang == De then ". Erwartetes Format: " else ". Expected format: "
  }

  /** The `zip_invalid` text with its two placeholders. */
  function ZipInvalidTemplate(lang: Lang): string
  {
    ZipInvalidLead(lang) + "{country}" + (ZipInvalidMiddle(lang) + "{format}")
  }

  /** The `country_first` text. */
  function CountryFirst(lang: Lang): string
  {
    if lang == De then "Bitte wählen Sie zuerst ein Land aus" else "Please select a country first"
  }

  /** `errorMessages`; the `zip_invalid` and `country_first` texts are the
      functions above, which the ZIP field uses directly. */
  const ERROR_MESSAGES: map<string, Translation> := map[
    "zip_required" := Translation(
      "Bitte geben Sie eine gültige Postleitzahl ein",
      "Please enter a valid ZIP code"),
    "zip_invalid" := Translation(ZipInvalidTemplate(De), ZipInvalidTemplate(En)),
    "email_required" := Translation(
      "Bitte geben Sie eine E-Mail-Adresse ein",
      "Please enter an email address"),
    "email_invalid" := Translation(
      "Bitte geben Sie eine gültige E-Mail-Adresse ein",
      "Please enter a valid email address"),
    "gender_required" := Translation(
      "Bitte wählen Sie ein Geschlecht aus",
      "Please select a gender"),
    "country_required" := Translation(
      "Bitte wählen Sie ein Land aus",
      "Please select a country"),
    "country_first" := Translation(CountryFirst(De), CountryFirst(En)),
    "gdpr_required" := Translation(
      "Bitte akzeptieren Sie die Datenschutzerklärung",
      "Please accept the privacy policy"),
    "email_exists" := Translation(
      "Diese E-Mail-Adresse ist bereits registriert. Bitte verwenden Sie eine andere E-Mail-Adresse.",
      "This email is already registered. Please use a different email address."),
    "signup_error" := Translation(
      "Bei der Verarbeitung Ihrer Anmeldung ist ein Problem aufgetreten. Bitte versuchen Sie es in einem Moment erneut.",
      "There was a problem processing your signup. Please try again in a moment."),
    "network_error" := Translation(
      "Verbindungsfehler. Bitte überprüfen Sie Ihre Internetverbindung und versuchen Sie es erneut.",
      "Connection error. Please check your internet and try again."),
    "generic_error" := Translation(
      "Etwas ist schiefgelaufen. Bitte versuchen Sie es erneut.",
      "Something went wrong. Please try again.")
  ]

  /** `uiStrings` */
  const UI_STRINGS: map<string, Translation> := map[
    "please_wait" := Translation("Bitte warten...", "Please wait...")
  ]

  /** `errorMessages.generic_error[lang]` */
  function GenericError(lang: Lang): string
  {
    if lang == De then "Etwas ist schiefgelaufen. Bitte versuchen Sie es erneut."
    else "Something went wrong. Please try again."
  }

  /** `errorMessages[key]?.[lang] || errorMessages.generic_error[lang]`:
      an unknown key, or an empty text, falls back to the generic error. */
  function BaseMessage(key: string, lang: Lang): (m: string)
    ensures key !in ERROR_MESSAGES ==> m == GenericError(lang)
    ensures key in ERROR_MESSAGES && In(ERROR_MESSAGES[key], lang) != "" ==> m == In(ERROR_MESSAGES[key], lang)
    ensures m != ""
  {
    assert "generic_error" in ERROR_MESSAGES;
    var found := if key in ERROR_MESSAGES then In(ERROR_MESSAGES[key], lang) else "";
    if found != "" then found else In(ERROR_MESSAGES["generic_error"], lang)
  }

  // ---------------------------------------------------------------------------
  // String.prototype.replace with a string pattern
  // ---------------------------------------------------------------------------

  /** The text `replace` inserts for the replacement `v` when the match
      `matched` has `before` in front of it and `after` behind it. */
  function Expand(v: string, before: string, matched: string, after: string): (r: string)
    ensures '$' !in v ==> r == v
    decreases |v|
  {
    if v == [] then []
    else if v[0] == '$' && |v| >= 2 && (v[1] == '$' || v[1] == '&' || v[1] == '`' || v[1] == '\'') then
      var ins := if v[1] == '$' then "$" else if v[1] == '&' then matched else if v[1] == '`' then before else after;
      ins + Expand(v[2..], before, matched, after)
    else
      assert forall c :: c in v[1..] ==> c in v;
      [v[0]] + Expand(v[1..], before, matched, after)
  }

  /** The replacement patterns of `replace` with a string pattern: `$$` is a
      dollar sign, `$&` the match, `` $` `` the text before it and `$'` the
      text after it. A string pattern has no groups, so `$1` and a lone `$`
      stay as written. */
  lemma ExpandPatterns(w: string, before: string, matched: string, after: string)
    ensures Expand("$$" + w, before, matched, after) == "$" + Expand(w, before, matched, after)
    ensures Expand("$&" + w, before, matched, after) == matched + Expand(w, before, matched, after)
    ensures Expand("$`" + w, before, matched, after) == before + Expand(w, before, matched, after)
    ensures Expand("$'" + w, before, matched, after) == after + Expand(w, before, matched, after)
    ensures Expand("$1" + w, before, matched, after) == "$1" + Expand(w, before, matched, after)
    ensures Expand("$", before, matched, after) == "$"
  {
    ExpandPair('$', w, before, matched, after);
    ExpandPair('&', w, before, matched, after);
    ExpandPair('`', w, before, matched, after);
    ExpandPair('\'', w, before, matched, after);
    ExpandDollarOne(w, before, matched, after);
  }

  /** One two-character pattern `$c` at the front of the replacement. */
  lemma ExpandPair(c: char, w: string, before: string, matched: string, after: string)
    requires c == '$' || c == '&' || c == '`' || c == '\''
    ensures Expand(['$', c] + w, before, matched, after)
      == (if c == '$' then "$" else if c == '&' then matched else if c == '`' then before else after)
         + Expand(w, before, matched, after)
  {
    assert (['$', c] + w)[2..] == w;
  }

  /** `$1` is copied: the dollar sign, then the digit. */
  lemma ExpandDollarOne(w: string, before: string, matched: string, after: string)
    ensures Expand("$1" + w, before, matched, after) == "$1" + Expand(w, before, matched, after)
  {
    var one := "$1" + w;
    assert one[0] == '$' && one[1] == '1';
    assert one[1..] == "1" + w && ("1" + w)[1..] == w;
  }

  /** `s.replace(p, v)`: the first occurrence of `p` is replaced. */
  function ReplaceFirst(s: string, p: string, v: string): (r: string)
    ensures !Contains(s, p) ==> r == s
    ensures IndexOf(s, p).Some? && '$' !in v ==>
      var i := IndexOf(s, p).value;
      r == s[..i] + v + s[i + |p|..]
  {
    match IndexOf(s, p)
    case None => s
    case Some(i) => s[..i] + Expand(v, s[..i], p, s[i + |p|..]) + s[i + |p|..]
  }

  /** `s.replace(p, "$&")` puts the match back where it was. */
  lemma ReplaceWithMatch(s: string, p: string)
    ensures ReplaceFirst(s, p, "$&") == s
  {
    match IndexOf(s, p)
    case None =>
    case Some(i) =>
      ExpandMatch(s[..i], p, s[i + |p|..]);
      assert s == s[..i] + s[i..i + |p|] + s[i + |p|..];
  }

  /** `$&` alone inserts exactly the match. */
  lemma ExpandMatch(before: string, matched: string, after: string)
    ensures Expand("$&", before, matched, after) == matched
  {
    ExpandPair('&', [], before, matched, after);
    assert ['$', '&'] + [] == "$&";
  }

  /** The placeholder `{k}`. */
  function Placeholder(k: string): string
  {
    "{" + k + "}"
  }

  /** The two placeholders of `zip_invalid`. */
  lemma PlaceholderTexts()
    ensures Placeholder("country") == "{country}"
    ensures Placeholder("format") == "{format}"
  {
    assert "{" + "country" + "}" == "{country}";
    assert "{" + "format" + "}" == "{format}";
  }

  /** The message after the replacements, applied in order. */
  function Substitute(message: string, reps: seq<(string, string)>): string
  {
    if reps == [] then message
    else
      var last := reps[|reps| - 1];
      ReplaceFirst(Substitute(message, reps[..|reps| - 1]), Placeholder(last.0), last.1)
  }

  /** `getErrorMessage(key, replacements)` as a value. */
  function ErrorMessage(key: string, reps: seq<(string, string)>, lang: Lang): string
  {
    Substitute(BaseMessage(key, lang), reps)
  }

  /** `getErrorMessage`: look up the message, then replace each placeholder
      in turn. */
  method GetErrorMessage(key: string, replacements: seq<(string, string)>, lang: Lang) returns (message: string)
    ensures message == ErrorMessage(key, replacements, lang)
    ensures key !in ERROR_MESSAGES && replacements == [] ==> message == GenericError(lang)
  {
    message := BaseMessage(key, lang);
    for i := 0 to |replacements|
      invariant message == Substitute(BaseMessage(key, lang), replacements[..i])
    {
      assert replacements[..i + 1][..i] == replacements[..i];
      var (placeholder, value) := replacements[i];
      message := ReplaceFirst(message, "{" + placeholder + "}", value);
    }
    assert replacements[..|replacements|] == replacements;
  }

  /** `getUIString`: the translation, or the key itself. */
  function GetUIString(key: string, lang: Lang): (r: string)
    ensures key in UI_STRINGS && In(UI_STRINGS[key], lang) != "" ==> r == In(UI_STRINGS[key], lang)
    ensures key !in UI_STRINGS ==> r == key
    ensures key == "please_wait" ==> r == (if lang == De then "Bitte warten..." else "Please wait...")
  {
    var found := if key in UI_STRINGS then In(UI_STRINGS[key], lang) else "";
    if found != "" then found else key
  }

  // ---------------------------------------------------------------------------
  // Facts about substitution
  // ---------------------------------------------------------------------------

  /** A replacement whose placeholder does not occur leaves the message as it
      was. */
  lemma UnmatchedReplacement(message: string, reps: seq<(string, string)>, k: string, v: string)
    requires !Contains(Substitute(message, reps), Placeholder(k))
    ensures Substitute(message, reps + [(k, v)]) == Substitute(message, reps)
  {
    assert (reps + [(k, v)])[..|reps|] == reps;
  }

  /** When nothing in front of the placeholder can start it, `replace` puts
      the expansion exactly where the placeholder was. */
  lemma ReplaceFirstAt(a: string, p: string, b: string, v: string)
    requires p != [] && p[0] !in a
    ensures ReplaceFirst(a + p + b, p, v) == a + Expand(v, a, p, b) + b
  {
    var s := a + p + b;
    assert s[|a|..][..|p|] == p;
    ContainsAt(s, p, |a|);
    var j := IndexOf(s, p).value;
    assert s[j..j + |p|][0] == s[j] == p[0];
    assert forall k :: 0 <= k < |a| ==> s[k] == a[k];
    assert j == |a|;
    assert s[..j] == a;
    assert s[j + |p|..] == b;
  }

  /** A text with no '{' has no placeholder. */
  lemma NoBraceNoPlaceholder(s: string, k: string)
    requires '{' !in s
    ensures !Contains(s, Placeholder(k))
  {
    NoContains(s, Placeholder(k));
  }

  lemma ZipInvalidBraces(lang: Lang)
    ensures '{' !in ZipInvalidLead(lang) && '{' !in ZipInvalidMiddle(lang)
  {
  }

  lemma ZipInvalidBase(lang: Lang)
    ensures BaseMessage("zip_invalid", lang) == ZipInvalidTemplate(lang)
    ensures BaseMessage("zip_invalid", lang) == ZipInvalidLead(lang) + "{country}" + (ZipInvalidMiddle(lang) + "{format}")
  {
    assert "zip_invalid" in ERROR_MESSAGES;
    var t := ERROR_MESSAGES["zip_invalid"];
    assert t == Translation(ZipInvalidTemplate(De), ZipInvalidTemplate(En));
  }

  /** The `zip_invalid` message filled with a country and a format. */
  function ZipInvalidText(lang: Lang, country: string, format: string): string
  {
    Substitute(ZipInvalidTemplate(lang), [("country", country), ("format", format)])
  }

  /** `getErrorMessage('zip_invalid', {country, format})` is that text. */
  lemma ZipInvalidIsMessage(lang: Lang, country: string, format: string)
    ensures ErrorMessage("zip_invalid", [("country", country), ("format", format)], lang) == ZipInvalidText(lang, country, format)
  {
    ZipInvalidBase(lang);
  }

  /** `getErrorMessage('country_first')` is the `country_first` text. */
  lemma CountryFirstIsMessage(lang: Lang)
    ensures ErrorMessage("country_first", [], lang) == CountryFirst(lang)
    ensures CountryFirst(lang) != []
  {
    assert "country_first" in ERROR_MESSAGES;
    assert ERROR_MESSAGES["country_first"] == Translation(CountryFirst(De), CountryFirst(En));
  }

  /** One replacement whose placeholder has no brace in front of it puts
      the value in its place. */
  lemma OnePlaceholder(lead: string, k: string, rest: string, v: string)
    requires '{' !in lead && '$' !in v
    ensures Substitute(lead + Placeholder(k) + rest, [(k, v)]) == lead + v + rest
  {
    var reps := [(k, v)];
    assert reps[..0] == [];
    assert Substitute(lead + Placeholder(k) + rest, reps[..0]) == lead + Placeholder(k) + rest;
    ReplaceFirstAt(lead, Placeholder(k), rest, v);
  }

  /** A message with a `{country}` and a later `{format}`, and no brace
      before either, receives the two values in their places. */
  lemma TwoPlaceholders(lead: string, middle: string, country: string, format: string)
    requires '{' !in lead && '{' !in middle && '{' !in country && '$' !in country && '$' !in format
    ensures Substitute(lead + "{country}" + (middle + "{format}"), [("country", country), ("format", format)])
      == lead + country + middle + format
  {
    var base := lead + "{country}" + (middle + "{format}");
    PlaceholderTexts();
    var reps := [("country", country), ("format", format)];
    assert reps[..1] == [("country", country)];
    OnePlaceholder(lead, "country", middle + "{format}", country);
    var first := lead + country + middle;
    assert lead + country + (middle + "{format}") == first + "{format}" + [];
    assert Substitute(base, reps) == ReplaceFirst(first + "{format}" + [], "{format}", format);
    ReplaceFirstAt(first, "{format}", [], format);
  }

  /** `zip_invalid` with a country and a format (no '{' in the country, no
      '$' in either) reads the country and the format in place of the two
      placeholders, in both languages. */
  lemma ZipInvalidFilled(lang: Lang, country: string, format: string)
    requires '{' !in country && '$' !in country && '$' !in format
    ensures ErrorMessage("zip_invalid", [("country", country), ("format", format)], lang)
      == (if lang == De then "Ungültige Postleitzahl für " + country + ". Erwartetes Format: " + format
          else "Invalid ZIP code for " + country + ". Expected format: " + format)
  {
    ZipInvalidBase(lang);
    ZipInvalidBraces(lang);
    TwoPlaceholders(ZipInvalidLead(lang), ZipInvalidMiddle(lang), country, format);
  }

  /** `replace` keeps a prefix in which the pattern cannot start. */
  lemma ReplaceFirstKeepsPrefix(s: string, p: string, v: string, a: string)
    requires p != [] && IsPrefix(a, s) && p[0] !in a
    ensures IsPrefix(a, ReplaceFirst(s, p, v))
  {
    match IndexOf(s, p)
    case None =>
    case Some(i) =>
      assert s[i..i + |p|][0] == s[i] == p[0];
      assert forall k :: 0 <= k < |a| ==> s[k] == a[k] && a[k] != p[0];
      assert |a| <= i;
      assert ReplaceFirst(s, p, v)[..|a|] == s[..i][..|a|];
  }

  /** Whatever the country and the format, the filled `zip_invalid` text
      opens with its fixed lead, so it is never empty. */
  lemma ZipInvalidOpensWithLead(lang: Lang, country: string, format: string)
    ensures IsPrefix(ZipInvalidLead(lang), ZipInvalidText(lang, country, format))
    ensures ZipInvalidText(lang, country, format) != []
  {
    ZipInvalidBraces(lang);
    var lead := ZipInvalidLead(lang);
    var base := ZipInvalidTemplate(lang);
    var reps := [("country", country), ("format", format)];
    PlaceholderTexts();
    assert reps[..1] == [("country", country)] && reps[..1][..0] == [];
    assert base[..|lead|] == lead;
    ReplaceFirstKeepsPrefix(base, "{country}", country, lead);
    var first := Substitute(base, reps[..1]);
    assert Substitute(base, reps[..1][..0]) == base;
    assert reps[..1][0] == ("country", country);
    assert first == ReplaceFirst(base, "{country}", country);
    ReplaceFirstKeepsPrefix(first, "{format}", format, lead);
    assert lead != [];
  }

  /** Hence no placeholder is left when the values contain no braces. */
  lemma ZipInvalidNoPlaceholders(lang: Lang, country: string, format: string)
    requires '{' !in country && '{' !in format && '$' !in country && '$' !in format
    ensures !Contains(ZipInvalidText(lang, country, format), "{country}")
    ensures !Contains(ZipInvalidText(lang, country, format), "{format}")
  {
    ZipInvalidBraces(lang);
    TwoPlaceholders(ZipInvalidLead(lang), ZipInvalidMiddle(lang), country, format);
    var m := ZipInvalidLead(lang) + country + ZipInvalidMiddle(lang) + format;
    assert '{' !in m;
    NoBraceNoPlaceholder(m, "country");
    NoBraceNoPlaceholder(m, "format");
    PlaceholderTexts();
  }

  // ---------------------------------------------------------------------------
  // Global regular-expression replacement
  // ---------------------------------------------------------------------------

  /** The regular expressions of `translateZipFormat`: a literal text, or a
      word between `\b` assertions, optionally matched ignoring ASCII case. */
  datatype Matcher = Literal(pat: string) | Word(pat: string, ignoreCase: bool)

  predicate SameChar(c: char, d: char, ignoreCase: bool)
  {
    if ignoreCase then LowerChar(c) == LowerChar(d) else c == d
  }

  /** The expression matches the input at position `i`. The `\b` checks
      look at the characters next to the match, which for these words are
      word characters at both ends. */
  predicate MatchAt(m: Matcher, s: string, i: nat)
  {
    i + |m.pat| <= |s| &&
    match m
    case Literal(p) => s[i..i + |p|] == p
    case Word(p, ci) =>
      (forall j :: 0 <= j < |p| ==> SameChar(s[i + j], p[j], ci))
      && (i == 0 || !IsWordChar(s[i - 1]))
      && (i + |p| == |s| || !IsWordChar(s[i + |p|]))
  }

  /** The output of a global replacement from position `i` on: a match is
      replaced and scanning resumes behind it, any other character is
      copied. */
  function Scan(s: string, i: nat, m: Matcher, r: string): string
    requires m.pat != [] && i <= |s|
    decreases |s| - i
  {
    if i == |s| then []
    else if MatchAt(m, s, i) then r + Scan(s, i + |m.pat|, m, r)
    else [s[i]] + Scan(s, i + 1, m, r)
  }

  /** `s.replace(/m/g, r)` where `r` holds no `$`. */
  function ReplaceAll(s: string, m: Matcher, r: string): string
    requires m.pat != []
  {
    Scan(s, 0, m, r)
  }

  /** Whether the expression carries the `i` flag. */
  predicate IgnoresCase(m: Matcher)
  {
    m.Word? && m.ignoreCase
  }

  /** Positions with no match are copied as they are. */
  lemma {:induction false} ScanCopies(s: string, i: nat, k: nat, m: Matcher, r: string)
    requires m.pat != [] && i <= k <= |s|
    requires forall j :: i <= j < k ==> !MatchAt(m, s, j)
    ensures Scan(s, i, m, r) == s[i..k] + Scan(s, k, m, r)
    decreases k - i
  {
    if i < k {
      assert !MatchAt(m, s, i);
      ScanCopyOne(s, i, m, r);
      ScanCopies(s, i + 1, k, m, r);
      ConsSlice(s, i, k, Scan(s, k, m, r));
    }
  }

  /** A position without a match copies its character. */
  lemma ScanCopyOne(s: string, i: nat, m: Matcher, r: string)
    requires m.pat != [] && i < |s| && !MatchAt(m, s, i)
    ensures Scan(s, i, m, r) == [s[i]] + Scan(s, i + 1, m, r)
  {
  }

  /** A match is replaced and scanning resumes behind it. */
  lemma ScanMatchOne(s: string, i: nat, m: Matcher, r: string)
    requires m.pat != [] && i < |s| && MatchAt(m, s, i)
    ensures Scan(s, i, m, r) == r + Scan(s, i + |m.pat|, m, r)
  {
  }

  /** A literal matches at `n + j` exactly when it matches the suffix from
      `n` at `j`, and the character there is the same. */
  lemma MatchShift(s: string, n: nat, j: nat, p: string)
    requires n + j < |s|
    ensures MatchAt(Literal(p), s, n + j) <==> MatchAt(Literal(p), s[n..], j)
    ensures s[n..][j] == s[n + j]
  {
    if n + j + |p| <= |s| {
      assert s[n..][j..j + |p|] == s[n + j..n + j + |p|];
    }
  }

  /** One character in front of a slice extends the slice. */
  lemma ConsSlice(s: string, i: nat, k: nat, t: string)
    requires i < k <= |s|
    ensures [s[i]] + (s[i + 1..k] + t) == s[i..k] + t
  {
    assert s[i..k] == [s[i]] + s[i + 1..k];
  }

  /** A character of the pattern that matches nowhere in `s` rules out
      every match. */
  lemma NoMatchByChar(s: string, m: Matcher, k: nat)
    requires k < |m.pat|
    requires forall j :: 0 <= j < |s| ==> !SameChar(s[j], m.pat[k], IgnoresCase(m))
    ensures forall j :: 0 <= j <= |s| ==> !MatchAt(m, s, j)
  {
    forall j | 0 <= j <= |s|
      ensures !MatchAt(m, s, j)
    {
      if j + |m.pat| <= |s| {
        var c := s[j + k];
        assert !SameChar(c, m.pat[k], IgnoresCase(m));
        if m.Literal? {
          assert s[j..j + |m.pat|][k] == c;
        }
      }
    }
  }

  /** A pattern with a character that `s` lacks, up to case under the `i`
      flag, leaves `s` unchanged. */
  lemma ReplaceAllAbsent(s: string, m: Matcher, r: string, k: nat)
    requires m.pat != [] && k < |m.pat|
    requires forall j :: 0 <= j < |s| ==> !SameChar(s[j], m.pat[k], IgnoresCase(m))
    ensures ReplaceAll(s, m, r) == s
  {
    NoMatchByChar(s, m, k);
    ScanCopies(s, 0, |s|, m, r);
  }

  /** A literal scan does not depend on the text before `n`. */
  lemma {:induction false} ScanShift(s: string, n: nat, j: nat, p: string, r: string)
    requires p != [] && n + j <= |s|
    ensures Scan(s, n + j, Literal(p), r) == Scan(s[n..], j, Literal(p), r)
    decreases |s| - n - j
  {
    if n + j < |s| {
      MatchShift(s, n, j, p);
      var k, lead := StepBoth(s, n + j, s[n..], j, p, r);
      assert ScanStep(s, n + j, k, lead, p, r);
      assert ScanStep(s[n..], j, k, lead, p, r);
      assert n + j + k == n + (j + k);
      ScanShift(s, n, j + k, p, r);
    }
  }

  /** From `i` the scan emits `lead` and resumes at `i + k`. */
  predicate ScanStep(s: string, i: nat, k: nat, lead: string, p: string, r: string)
    requires p != []
  {
    i + k <= |s| && Scan(s, i, Literal(p), r) == lead + Scan(s, i + k, Literal(p), r)
  }

  /** Two literal scans at positions that agree on the character and on
      whether the pattern matches take the same step. */
  lemma StepBoth(s1: string, i1: nat, s2: string, i2: nat, p: string, r: string)
    returns (k: nat, lead: string)
    requires p != [] && i1 < |s1| && i2 < |s2| && s1[i1] == s2[i2]
    requires MatchAt(Literal(p), s1, i1) <==> MatchAt(Literal(p), s2, i2)
    ensures 1 <= k
    ensures ScanStep(s1, i1, k, lead, p, r) && ScanStep(s2, i2, k, lead, p, r)
  {
    if MatchAt(Literal(p), s1, i1) {
      k, lead := |p|, r;
      ScanMatchOne(s1, i1, Literal(p), r);
      ScanMatchOne(s2, i2, Literal(p), r);
    } else {
      k, lead := 1, [s1[i1]];
      ScanCopyOne(s1, i1, Literal(p), r);
      ScanCopyOne(s2, i2, Literal(p), r);
    }
  }

  /** `s.replace(/p/g, r)` for a literal `p`: the text before the first
      occurrence, then `r`, then the replacement applied to the rest; and
      `s` itself when `p` does not occur. */
  lemma ReplaceAllFirst(s: string, p: string, r: string)
    requires p != []
    ensures !Contains(s, p) ==> ReplaceAll(s, Literal(p), r) == s
    ensures IndexOf(s, p).Some? ==>
      var i := IndexOf(s, p).value;
      ReplaceAll(s, Literal(p), r) == s[..i] + r + ReplaceAll(s[i + |p|..], Literal(p), r)
  {
    match IndexOf(s, p)
    case None =>
      NoMatchWithout(s, p);
      ScanCopies(s, 0, |s|, Literal(p), r);
      assert s[0..|s|] == s;
    case Some(i) =>
      NoMatchBeforeFirst(s, p, i);
      ReplaceAtFirst(s, i, p, r);
  }

  /** A literal that does not occur matches nowhere. */
  lemma NoMatchWithout(s: string, p: string)
    requires !Contains(s, p)
    ensures forall j :: 0 <= j < |s| ==> !MatchAt(Literal(p), s, j)
  {
    forall j | 0 <= j < |s|
      ensures !MatchAt(Literal(p), s, j)
    {
      LiteralMatch(s, p, j);
      if IsPrefix(p, s[j..]) {
        ContainsAt(s, p, j);
      }
    }
  }

  /** Before its first occurrence a literal matches nowhere. */
  lemma NoMatchBeforeFirst(s: string, p: string, i: nat)
    requires i <= |s|
    requires forall k :: 0 <= k < i ==> !IsPrefix(p, s[k..])
    ensures forall j :: 0 <= j < i ==> !MatchAt(Literal(p), s, j)
  {
    forall j | 0 <= j < i
      ensures !MatchAt(Literal(p), s, j)
    {
      LiteralMatch(s, p, j);
    }
  }

  /** The step of `ReplaceAllFirst` once the first match `i` is known. */
  lemma ReplaceAtFirst(s: string, i: nat, p: string, r: string)
    requires p != [] && i + |p| <= |s| && s[i..i + |p|] == p
    requires forall j :: 0 <= j < i ==> !MatchAt(Literal(p), s, j)
    ensures ReplaceAll(s, Literal(p), r) == s[..i] + r + ReplaceAll(s[i + |p|..], Literal(p), r)
  {
    ScanCopies(s, 0, i, Literal(p), r);
    ScanMatchOne(s, i, Literal(p), r);
    ScanShift(s, i + |p|, 0, p, r);
    assert s[0..i] == s[..i];
    Glue(Scan(s, 0, Literal(p), r), Scan(s, i, Literal(p), r), Scan(s, i + |p|, Literal(p), r),
         ReplaceAll(s[i + |p|..], Literal(p), r), s[..i], r);
  }

  /** Two steps of a scan joined: a front, then `r`, then the rest. */
  lemma Glue(x0: string, x1: string, x2: string, x3: string, front: string, r: string)
    requires x0 == front + x1 && x1 == r + x2 && x2 == x3
    ensures x0 == front + r + x3
  {
    assert front + (r + x3) == front + r + x3;
  }

  /** A literal matches exactly where it is a prefix of the rest. */
  lemma LiteralMatch(s: string, p: string, j: nat)
    requires j <= |s|
    ensures MatchAt(Literal(p), s, j) <==> IsPrefix(p, s[j..])
  {
    if j + |p| <= |s| {
      assert s[j..][..|p|] == s[j..j + |p|];
    }
  }

  /** One occurrence of a literal `p` in `a + p + b` is replaced and the
      rest stays, when no earlier match can start because character `k0` of
      `p` is missing from `a + p[..k0]`, and no later one because `b` lacks
      character `k` of `p`. */
  lemma ReplaceOnce(a: string, p: string, b: string, r: string, k0: nat, k: nat)
    requires k0 < |p| && p[k0] !in a + p[..k0] && k < |p| && p[k] !in b
    ensures ReplaceAll(a + p + b, Literal(p), r) == a + r + b
  {
    NoMatchInFront(a, p, b, k0);
    PiecesAt(a, p, b);
    ReplaceAtFirst(a + p + b, |a|, p, r);
    ReplaceAllAbsent(b, Literal(p), r, k);
  }

  /** Where the pieces of `a + p + b` sit. */
  lemma PiecesAt(a: string, p: string, b: string)
    ensures var s := a + p + b;
      s[..|a|] == a && s[|a|..|a| + |p|] == p && s[|a| + |p|..] == b
  { }

  /** No match of `p` starts inside a front `a` when character `k0` of `p`
      is missing from `a + p[..k0]`. */
  lemma NoMatchInFront(a: string, p: string, b: string, k0: nat)
    requires k0 < |p| && p[k0] !in a + p[..k0]
    ensures forall j :: 0 <= j < |a| ==> !MatchAt(Literal(p), a + p + b, j)
  {
    var s := a + p + b;
    var f := a + p[..k0];
    assert s[..|a| + k0] == f;
    forall j | 0 <= j < |a|
      ensures !MatchAt(Literal(p), s, j)
    {
      if j + |p| <= |s| {
        assert s[j..j + |p|][k0] == f[j + k0];
      }
    }
  }

  /** A case-sensitive pattern with a character missing from `s` leaves it
      unchanged. */
  lemma ReplaceAllMissing(s: string, m: Matcher, r: string, k: nat)
    requires m.pat != [] && k < |m.pat| && !IgnoresCase(m) && m.pat[k] !in s
    ensures ReplaceAll(s, m, r) == s
  {
    ReplaceAllAbsent(s, m, r, k);
  }

  /** `/\bformat\b/gi` leaves a text without `o` or `O` unchanged. */
  lemma FormatWordMissing(s: string, r: string)
    requires 'o' !in s && 'O' !in s
    ensures ReplaceAll(s, Word("format", true), r) == s
  {
    forall j | 0 <= j < |s|
      ensures !SameChar(s[j], 'o', true)
    {
      assert s[j] != 'o' && s[j] != 'O';
    }
    ReplaceAllAbsent(s, Word("format", true), r, 1);
  }

  /** The replacements `translateZipFormat` applies for the German site, in
      order. */
  const GERMAN_REPLACEMENTS: seq<(Matcher, string)> := [
    (Literal("Numeric (no standard format)"), "Numerisch (kein Standardformat)"),
    (Literal("digits"), "Ziffern"),
    (Literal("letters"), "Buchstaben"),
    (Literal("with optional space"), "mit optionalem Leerzeichen"),
    (Word("format", true), "Format"),
    (Literal("e.g."), "z.B."),
    (Word("or", false), "oder")
  ]

  predicate NonEmptyPatterns(steps: seq<(Matcher, string)>)
  {
    forall u :: 0 <= u < |steps| ==> steps[u].0.pat != []
  }

  /** A chain of global replacements, applied in order. */
  function ReplaceEach(s: string, steps: seq<(Matcher, string)>): string
    requires NonEmptyPatterns(steps)
  {
    if steps == [] then s
    else
      var last := steps[|steps| - 1];
      ReplaceAll(ReplaceEach(s, steps[..|steps| - 1]), last.0, last.1)
  }

  /** `translateZipFormat`: the English description, translated step by
      step for the German site. */
  function TranslateZipFormat(format: string, lang: Lang): (r: string)
    ensures lang == En ==> r == format
  {
    if lang == De then
      var s1 := ReplaceAll(format, Literal("Numeric (no standard format)"), "Numerisch (kein Standardformat)");
      var s2 := ReplaceAll(s1, Literal("digits"), "Ziffern");
      var s3 := ReplaceAll(s2, Literal("letters"), "Buchstaben");
      var s4 := ReplaceAll(s3, Literal("with optional space"), "mit optionalem Leerzeichen");
      var s5 := ReplaceAll(s4, Word("format", true), "Format");
      var s6 := ReplaceAll(s5, Literal("e.g."), "z.B.");
      ReplaceAll(s6, Word("or", false), "oder")
    else format
  }

  /** The German translation is the chain `GERMAN_REPLACEMENTS`. */
  lemma GermanChain(format: string)
    ensures TranslateZipFormat(format, De) == ReplaceEach(format, GERMAN_REPLACEMENTS)
  {
    ChainHead(format);
    ChainTail(format);
  }

  /** The first three steps of the German chain. */
  lemma ChainHead(format: string)
    ensures ReplaceEach(format, GERMAN_REPLACEMENTS[..3])
         == ReplaceAll(ReplaceAll(ReplaceAll(format, Literal("Numeric (no standard format)"), "Numerisch (kein Standardformat)"),
                                  Literal("digits"), "Ziffern"),
                       Literal("letters"), "Buchstaben")
  {
    var g := GERMAN_REPLACEMENTS;
    assert ReplaceEach(format, g[..0]) == format;
    EachSnoc(format, g, 0);
    EachSnoc(format, g, 1);
    EachSnoc(format, g, 2);
  }

  /** The last four steps of the German chain. */
  lemma ChainTail(format: string)
    ensures ReplaceEach(format, GERMAN_REPLACEMENTS)
         == ReplaceAll(ReplaceAll(ReplaceAll(ReplaceAll(ReplaceEach(format, GERMAN_REPLACEMENTS[..3]),
                                                        Literal("with optional space"), "mit optionalem Leerzeichen"),
                                             Word("format", true), "Format"),
                                  Literal("e.g."), "z.B."),
                       Word("or", false), "oder")
  {
    ChainMiddle(format);
    ChainLast(format);
  }

  /** Steps four and five of the German chain. */
  lemma ChainMiddle(format: string)
    ensures ReplaceEach(format, GERMAN_REPLACEMENTS[..5])
         == ReplaceAll(ReplaceAll(ReplaceEach(format, GERMAN_REPLACEMENTS[..3]),
                                  Literal("with optional space"), "mit optionalem Leerzeichen"),
                       Word("format", true), "Format")
  {
    var g := GERMAN_REPLACEMENTS;
    EachSnoc(format, g, 3);
    EachSnoc(format, g, 4);
  }

  /** The last two steps of the German chain. */
  lemma ChainLast(format: string)
    ensures ReplaceEach(format, GERMAN_REPLACEMENTS)
         == ReplaceAll(ReplaceAll(ReplaceEach(format, GERMAN_REPLACEMENTS[..5]),
                                  Literal("e.g."), "z.B."),
                       Word("or", false), "oder")
  {
    var g := GERMAN_REPLACEMENTS;
    assert g[..7] == g;
    EachSnoc(format, g, 5);
    EachSnoc(format, g, 6);
  }

  /** The chain up to step `n + 1` is step `n` applied after the chain up
      to `n`. */
  lemma EachSnoc(s: string, steps: seq<(Matcher, string)>, n: nat)
    requires NonEmptyPatterns(steps) && n < |steps|
    ensures NonEmptyPatterns(steps[..n]) && NonEmptyPatterns(steps[..n + 1])
    ensures ReplaceEach(s, steps[..n + 1]) == ReplaceAll(ReplaceEach(s, steps[..n]), steps[n].0, steps[n].1)
  {
    assert steps[..n + 1][..n] == steps[..n];
    assert steps[..n + 1][n] == steps[n];
  }

  // ---------------------------------------------------------------------------
  // No replaced word survives the German chain
  // ---------------------------------------------------------------------------

  predicate Compatible(a: string, b: string)
  {
    IsPrefix(a, b) || IsPrefix(b, a)
  }

  /** No suffix of `r` can be the start of an occurrence of `q`, nor hold
      one. */
  predicate SafeAll(r: string, q: string)
  {
    forall k :: 0 <= k < |r| ==> !Compatible(r[k..], q)
  }

  /** A prefix of `a + t` and `a` are compatible. */
  lemma PrefixOfConcat(q: string, a: string, t: string)
    ensures IsPrefix(q, a + t) ==> Compatible(a, q)
  {
    if IsPrefix(q, a + t) {
      if |q| <= |a| {
        assert q == (a + t)[..|q|] == a[..|q|];
      } else {
        assert a == (a + t)[..|a|] == q[..|a|];
      }
    }
  }

  /** A prefix of `[s[i]] + rest` is `s[i]` followed by a prefix of `rest`. */
  lemma PrefixStep(q: string, s: string, i: nat, rest: string)
    requires i < |s|
    ensures q != [] && IsPrefix(q, [s[i]] + rest) ==> IsPrefix(q[1..], rest)
    ensures q != [] && IsPrefix(q, [s[i]] + rest) && IsPrefix(q[1..], s[i + 1..]) ==>
      IsPrefix(q, s[i..]) && s[i..i + |q|] == q
  {
    var out := [s[i]] + rest;
    if q != [] && IsPrefix(q, out) {
      assert q[0] == out[0] == s[i];
      assert q[1..] == out[1..|q|] == rest[..|q| - 1];
      if IsPrefix(q[1..], s[i + 1..]) {
        assert s[i..i + |q|] == [s[i]] + s[i + 1..][..|q| - 1] == q;
        assert s[i..][..|q|] == s[i..i + |q|];
      }
    }
  }

  /** A prefix of the output that never runs into a replacement text is a
      prefix of the input. */
  lemma {:induction false} PrefixOfScan(s: string, i: nat, m: Matcher, r: string, w: string)
    requires m.pat != [] && i <= |s|
    requires IsPrefix(w, Scan(s, i, m, r)) && SafeAll(w, r)
    ensures IsPrefix(w, s[i..])
    decreases |s| - i
  {
    if w != [] && i < |s| {
      assert w[0..] == w;
      var n := if MatchAt(m, s, i) then i + |m.pat| else i + 1;
      PrefixOfConcat(w, r, Scan(s, n, m, r));
      if MatchAt(m, s, i) {
        assert false;
      } else {
        var rest := Scan(s, i + 1, m, r);
        assert IsPrefix(w[1..], rest);
        forall k | 0 <= k < |w[1..]|
          ensures !Compatible(w[1..][k..], r)
        {
          assert w[1..][k..] == w[k + 1..];
        }
        PrefixOfScan(s, i + 1, m, r, w[1..]);
        assert s[i..][1..] == s[i + 1..];
      }
    }
  }

  /** An occurrence in `a + b` cannot start inside a safe `a`. */
  lemma {:induction false} ContainsPastSafe(a: string, b: string, q: string)
    requires q != [] && SafeAll(a, q) && Contains(a + b, q)
    ensures Contains(b, q)
    decreases |a|
  {
    if a == [] {
      assert a + b == b;
    } else {
      assert a[0..] == a;
      PrefixOfConcat(q, a, b);
      assert (a + b)[1..] == a[1..] + b;
      forall k | 0 <= k < |a[1..]|
        ensures !Compatible(a[1..][k..], q)
      {
        assert a[1..][k..] == a[k + 1..];
      }
      ContainsPastSafe(a[1..], b, q);
    }
  }

  /** A replaced match puts the safe text `r` in front of an output that
      holds no `q`, which therefore still holds none. */
  lemma ScanMatchStep(s: string, i: nat, m: Matcher, r: string, q: string)
    requires m.pat != [] && i < |s| && q != [] && MatchAt(m, s, i)
    requires SafeAll(r, q) && !Contains(Scan(s, i + |m.pat|, m, r), q)
    ensures !Contains(Scan(s, i, m, r), q)
  {
    var rest := Scan(s, i + |m.pat|, m, r);
    assert Scan(s, i, m, r) == r + rest;
    if Contains(r + rest, q) {
      ContainsPastSafe(r, rest, q);
    }
  }

  /** A copied character cannot start an occurrence of `q`: one would be an
      occurrence in the input, or a match of `Literal(q)` left unreplaced. */
  lemma ScanCopyStep(s: string, i: nat, m: Matcher, r: string, q: string)
    requires m.pat != [] && i < |s| && q != [] && !MatchAt(m, s, i)
    requires SafeAll(q[1..], r) && !Contains(Scan(s, i + 1, m, r), q)
    requires !Contains(s[i..], q) || m == Literal(q)
    ensures !Contains(Scan(s, i, m, r), q)
  {
    var rest := Scan(s, i + 1, m, r);
    var out := [s[i]] + rest;
    assert Scan(s, i, m, r) == out;
    PrefixStep(q, s, i, rest);
    if IsPrefix(q, out) {
      PrefixOfScan(s, i + 1, m, r, q[1..]);
      assert false;
    }
    assert out[1..] == rest;
  }

  /** A global replacement whose replacement text cannot take part in an
      occurrence of `q` never creates one; and when it replaces `q` itself,
      none is left. */
  lemma {:induction false} ScanAvoids(s: string, i: nat, m: Matcher, r: string, q: string)
    requires m.pat != [] && i <= |s| && q != []
    requires SafeAll(r, q) && SafeAll(q[1..], r)
    requires !Contains(s[i..], q) || m == Literal(q)
    ensures !Contains(Scan(s, i, m, r), q)
    decreases |s| - i
  {
    if i < |s| {
      if MatchAt(m, s, i) {
        var n := i + |m.pat|;
        if !Contains(s[i..], q) && Contains(s[n..], q) {
          assert s[i..][n - i..] == s[n..];
          ContainsSuffix(s[i..], q, n - i);
        }
        ScanAvoids(s, n, m, r, q);
        ScanMatchStep(s, i, m, r, q);
      } else {
        assert s[i..][1..] == s[i + 1..];
        ScanAvoids(s, i + 1, m, r, q);
        ScanCopyStep(s, i, m, r, q);
      }
    }
  }

  /** When `b` starts with a character that `a` does not hold, no suffix of
      `a` is compatible with `b`. */
  lemma FirstCharSafe(a: string, b: string)
    requires b != [] && b[0] !in a
    ensures SafeAll(a, b)
  {
    forall k | 0 <= k < |a|
      ensures !Compatible(a[k..], b)
    {
      assert a[k..][0] == a[k];
    }
  }

  /** A character-by-character check that `r[k..]` and `q` disagree
      somewhere within both. */
  predicate Clash(r: string, k: nat, q: string, j: nat)
    decreases |q| - j
  {
    k + j < |r| && j < |q| && (r[k + j] != q[j] || Clash(r, k, q, j + 1))
  }

  /** `Clash` for every suffix of `r` from `k` on. */
  predicate SafeFrom(r: string, q: string, k: nat)
    decreases |r| - k
  {
    k >= |r| || (Clash(r, k, q, 0) && SafeFrom(r, q, k + 1))
  }

  lemma {:induction false} ClashDisagrees(r: string, k: nat, q: string, j: nat)
    requires k <= |r| && j <= |q| && Clash(r, k, q, j)
    requires forall t :: 0 <= t < j ==> r[k + t] == q[t]
    ensures !Compatible(r[k..], q)
    decreases |q| - j
  {
    if r[k + j] == q[j] {
      ClashDisagrees(r, k, q, j + 1);
    } else {
      assert r[k..][j] != q[j];
    }
  }

  lemma {:induction false} SafeFromAll(r: string, q: string, k: nat)
    requires k <= |r| && SafeFrom(r, q, k)
    ensures forall t :: k <= t < |r| ==> !Compatible(r[t..], q)
    decreases |r| - k
  {
    if k < |r| {
      ClashDisagrees(r, k, q, 0);
      SafeFromAll(r, q, k + 1);
    }
  }

  lemma OderSafe()
    ensures SafeAll("oder", "digits") && SafeAll("oder", "e.g.")
  {
    assert SafeFrom("oder", "digits", 0);
    assert SafeFrom("oder", "e.g.", 0);
    SafeFromAll("oder", "digits", 0);
    SafeFromAll("oder", "e.g.", 0);
  }

  /** When `b[0]` occurs in `a` only at `k0` and the suffix there is not
      compatible with `b`, no suffix of `a` is. */
  lemma SafeExcept(a: string, b: string, k0: nat)
    requires b != [] && k0 < |a| && !Compatible(a[k0..], b)
    requires b[0] !in a[..k0] && b[0] !in a[k0 + 1..]
    ensures SafeAll(a, b)
  {
    forall k | 0 <= k < |a|
      ensures !Compatible(a[k..], b)
    {
      if k < k0 {
        assert a[k..][0] == a[..k0][k];
      } else if k > k0 {
        assert a[k..][0] == a[k0 + 1..][k - k0 - 1];
      }
    }
  }

  lemma LeerzeichenSafe()
    ensures SafeAll("mit optionalem Leerzeichen", "letters")
  {
    var a := "mit optionalem Leerzeichen";
    assert a[..11] == "mit optiona" && a[12..] == "em Leerzeichen";
    assert a[11..][2] != "letters"[2];
    SafeExcept(a, "letters", 11);
  }

  /** Once a step of the chain has replaced every `q`, no later step whose
      replacement text cannot take part in an occurrence brings one back. */
  lemma {:induction false} ReplaceEachRemoves(s: string, steps: seq<(Matcher, string)>, t: nat, q: string)
    requires NonEmptyPatterns(steps) && q != []
    requires t < |steps| && steps[t].0 == Literal(q)
    requires forall u :: t <= u < |steps| ==> SafeAll(steps[u].1, q) && SafeAll(q[1..], steps[u].1)
    ensures !Contains(ReplaceEach(s, steps), q)
    decreases |steps|
  {
    var n := |steps| - 1;
    var init := steps[..n];
    assert forall u :: 0 <= u < n ==> init[u] == steps[u];
    var prev := ReplaceEach(s, init);
    assert prev[0..] == prev;
    if t < n {
      ReplaceEachRemoves(s, init, t, q);
    }
    ScanAvoids(prev, 0, steps[n].0, steps[n].1, q);
  }

  /** The replacement text of each step. */
  lemma ReplacementTexts()
    ensures |GERMAN_REPLACEMENTS| == 7
    ensures GERMAN_REPLACEMENTS[1].1 == "Ziffern" && GERMAN_REPLACEMENTS[2].1 == "Buchstaben"
    ensures GERMAN_REPLACEMENTS[3].1 == "mit optionalem Leerzeichen" && GERMAN_REPLACEMENTS[4].1 == "Format"
    ensures GERMAN_REPLACEMENTS[5].1 == "z.B." && GERMAN_REPLACEMENTS[6].1 == "oder"
  {
  }

  lemma DigitsSafe()
    ensures forall u :: 1 <= u < |GERMAN_REPLACEMENTS| ==>
      SafeAll(GERMAN_REPLACEMENTS[u].1, "digits") && SafeAll("digits"[1..], GERMAN_REPLACEMENTS[u].1)
  {
    ReplacementTexts();
    assert "digits"[1..] == "igits";
    forall u | 1 <= u < 7
      ensures SafeAll(GERMAN_REPLACEMENTS[u].1, "digits") && SafeAll("igits", GERMAN_REPLACEMENTS[u].1)
    {
      var r := GERMAN_REPLACEMENTS[u].1;
      if u == 6 {
        OderSafe();
      } else {
        assert 'd' !in r;
        FirstCharSafe(r, "digits");
      }
      assert r[0] !in "igits";
      FirstCharSafe("igits", r);
    }
  }

  lemma LettersSafe()
    ensures forall u :: 2 <= u < |GERMAN_REPLACEMENTS| ==>
      SafeAll(GERMAN_REPLACEMENTS[u].1, "letters") && SafeAll("letters"[1..], GERMAN_REPLACEMENTS[u].1)
  {
    ReplacementTexts();
    assert "letters"[1..] == "etters";
    forall u | 2 <= u < 7
      ensures SafeAll(GERMAN_REPLACEMENTS[u].1, "letters") && SafeAll("etters", GERMAN_REPLACEMENTS[u].1)
    {
      var r := GERMAN_REPLACEMENTS[u].1;
      if u == 3 {
        LeerzeichenSafe();
      } else {
        assert 'l' !in r;
        FirstCharSafe(r, "letters");
      }
      assert r[0] !in "etters";
      FirstCharSafe("etters", r);
    }
  }

  lemma ExampleSafe()
    ensures forall u :: 5 <= u < |GERMAN_REPLACEMENTS| ==>
      SafeAll(GERMAN_REPLACEMENTS[u].1, "e.g.") && SafeAll("e.g."[1..], GERMAN_REPLACEMENTS[u].1)
  {
    ReplacementTexts();
    assert "e.g."[1..] == ".g.";
    FirstCharSafe("z.B.", "e.g.");
    FirstCharSafe(".g.", "z.B.");
    OderSafe();
    FirstCharSafe(".g.", "oder");
  }

  /** On the German site every "digits", "letters" and "e.g." of the format
      description is translated: none is left in the result. */
  lemma GermanFormatTranslated(format: string)
    ensures !Contains(TranslateZipFormat(format, De), "digits")
    ensures !Contains(TranslateZipFormat(format, De), "letters")
    ensures !Contains(TranslateZipFormat(format, De), "e.g.")
  {
    GermanChain(format);
    DigitsSafe();
    ReplaceEachRemoves(format, GERMAN_REPLACEMENTS, 1, "digits");
    LettersSafe();
    ReplaceEachRemoves(format, GERMAN_REPLACEMENTS, 2, "letters");
    ExampleSafe();
    ReplaceEachRemoves(format, GERMAN_REPLACEMENTS, 5, "e.g.");
  }
}

/**
 * Field normalisation and the checks before a waitlist submission
 * (src/forms/submission.js).
 *
 * The form's entries come in as the sequence of (name, value) pairs that
 * `FormData.entries()` yields, in document order; the presence of the form's
 * controls is a parameter, and what the checks do to the page (blur events
 * dispatched, messages shown) is returned as a list of prompts.
 */
module Submission {
  import opened Strings
  import opened Config
  import opened I18n
  import opened ZipPatterns

  // ---------------------------------------------------------------------------
  // mapGender
  // ---------------------------------------------------------------------------

  /** `mapGender`: the German select values, in any case, become the API's
      values; anything else is kept as it was. */
  function MapGender(raw: string): string
  {
    if raw == [] then []
    else
      var lower := ToLower(raw);
      if lower == "divers" || lower == "diverse" then "other"
      else if lower == "männlich" then "male"
      else if lower == "weiblich" then "female"
      else raw
  }

  /** The result is empty exactly for an empty value, and is one of the
      three API values or the value itself. */
  lemma MapGenderRange(raw: string)
    ensures MapGender(raw) == [] <==> raw == []
    ensures MapGender(raw) in {"other", "male", "female"} || MapGender(raw) == raw
  {
  }

  /** Mapping twice is mapping once: the API values are not German select
      values in any case. */
  lemma MapGenderIdempotent(raw: string)
    ensures MapGender(MapGender(raw)) == MapGender(raw)
  {
    ToLowerAsciiFixed("other");
    ToLowerAsciiFixed("male");
    ToLowerAsciiFixed("female");
  }

  /** Two values that agree ignoring case are mapped alike, unless both are
      kept as they were. */
  lemma MapGenderIgnoresCase(a: string, b: string)
    requires a != [] && b != [] && ToLower(a) == ToLower(b)
    ensures MapGender(a) == MapGender(b) || (MapGender(a) == a && MapGender(b) == b)
  {
  }

  lemma MapGenderExamples()
    ensures MapGender("Divers") == "other"
    ensures MapGender("MÄNNLICH") == "male"
    ensures MapGender("Weiblich") == "female"
    ensures MapGender("Female") == "Female"
  {
    assert ToLower("Divers") == "divers";
    assert ToLower("MÄNNLICH") == "männlich";
    assert ToLower("Weiblich") == "weiblich";
    assert ToLower("Female") == "female";
  }

  // ---------------------------------------------------------------------------
  // normalizeFormFields
  // ---------------------------------------------------------------------------

  /** The object the entries are copied into: a later entry with the same
      name overwrites an earlier one. */
  function Collected(entries: seq<(string, string)>): map<string, string>
  {
    if entries == [] then map[]
    else
      var last := entries[|entries| - 1];
      Collected(entries[..|entries| - 1])[last.0 := last.1]
  }

  /** Every entry's name is a key, and nothing else is. */
  lemma {:induction false} CollectedKeys(entries: seq<(string, string)>)
    ensures forall k :: k in Collected(entries) <==> exists i :: 0 <= i < |entries| && entries[i].0 == k
  {
    if entries != [] {
      var init := entries[..|entries| - 1];
      CollectedKeys(init);
      assert forall i :: 0 <= i < |init| ==> init[i] == entries[i];
    }
  }

  /** The value of a name is that of its last entry. */
  lemma {:induction false} CollectedLastWins(entries: seq<(string, string)>, j: nat)
    requires j < |entries|
    requires forall t :: j < t < |entries| ==> entries[t].0 != entries[j].0
    ensures entries[j].0 in Collected(entries) && Collected(entries)[entries[j].0] == entries[j].1
  {
    if j < |entries| - 1 {
      var init := entries[..|entries| - 1];
      assert forall t :: 0 <= t < |init| ==> init[t] == entries[t];
      CollectedLastWins(init, j);
    }
  }

  /** A key whose value counts in an `a || b || …` chain: present and not
      empty. */
  predicate Filled(fields: map<string, string>, key: string)
  {
    key in fields && fields[key] != []
  }

  /** The position of the first filled key. */
  function FirstFilled(fields: map<string, string>, keys: seq<string>): (r: Option<nat>)
    ensures r.Some? ==> r.value < |keys| && Filled(fields, keys[r.value])
    ensures r.Some? ==> forall j :: 0 <= j < r.value ==> !Filled(fields, keys[j])
    ensures r.None? ==> forall j :: 0 <= j < |keys| ==> !Filled(fields, keys[j])
  {
    if keys == [] then None
    else if Filled(fields, keys[0]) then Some(0)
    else
      match FirstFilled(fields, keys[1..])
      case None => None
      case Some(k) => Some(k + 1)
  }

  /** `fields[k1] || fields[k2] || … || ''` */
  function Pick(fields: map<string, string>, keys: seq<string>): string
  {
    match FirstFilled(fields, keys)
    case None => []
    case Some(i) => fields[keys[i]]
  }

  /** Whatever `Pick` returns is the value of the first filled key, or empty
      when no key is filled. */
  lemma PickFirstFilled(fields: map<string, string>, keys: seq<string>, i: nat)
    requires i < |keys| && Filled(fields, keys[i])
    requires forall j :: 0 <= j < i ==> !Filled(fields, keys[j])
    ensures Pick(fields, keys) == fields[keys[i]]
  {
  }

  lemma PickNoneFilled(fields: map<string, string>, keys: seq<string>)
    requires forall j :: 0 <= j < |keys| ==> !Filled(fields, keys[j])
    ensures Pick(fields, keys) == []
  {
  }

  const EMAIL_KEYS := ["email", "Email"]
  const FIRST_NAME_KEYS := ["first-name", "First-Name", "firstName", "FirstName"]
  const LAST_NAME_KEYS := ["last-name", "Last-Name", "lastName", "LastName"]
  const NAME_KEYS := ["name", "Name"]
  const GENDER_KEYS := ["gender", "Gender", "Geschlecht"]
  const CITY_KEYS := ["city", "City", "Stadt"]
  const COUNTRY_KEYS := ["country", "Country", "Land"]
  const ZIP_KEYS := ["Postleitzahl", "zip", "Zip", "ZIP"]

  datatype NormalizedFields = NormalizedFields(email: string, name: string, gender: string, city: string, country: string,
                                               zipCode: string)

  /** The first and the last name joined by a space, trimmed. */
  function FullName(fields: map<string, string>): string
  {
    Trim(Pick(fields, FIRST_NAME_KEYS) + " " + Pick(fields, LAST_NAME_KEYS))
  }

  /** The normalised fields of the collected entries. */
  function Normalize(fields: map<string, string>): NormalizedFields
  {
    var full := FullName(fields);
    NormalizedFields(
      Pick(fields, EMAIL_KEYS),
      if full != [] then full else Pick(fields, NAME_KEYS),
      MapGender(Pick(fields, GENDER_KEYS)),
      Pick(fields, CITY_KEYS),
      Pick(fields, COUNTRY_KEYS),
      Pick(fields, ZIP_KEYS))
  }

  /** `normalizeFormFields(formData)`: copy the entries into an object, then
      pick each field from its aliases. */
  method NormalizeFormFields(entries: seq<(string, string)>) returns (n: NormalizedFields)
    ensures n == Normalize(Collected(entries))
  {
    var fields: map<string, string> := map[];
    for i := 0 to |entries|
      invariant fields == Collected(entries[..i])
    {
      assert entries[..i + 1][..i] == entries[..i];
      fields := fields[entries[i].0 := entries[i].1];
    }
    assert entries[..|entries|] == entries;
    n := Normalize(fields);
  }

  /** A first or last name with a visible character makes the name the two
      joined and trimmed; `name`/`Name` are only the fallback. */
  lemma NameFromParts(fields: map<string, string>, i: nat)
    requires var joined := Pick(fields, FIRST_NAME_KEYS) + " " + Pick(fields, LAST_NAME_KEYS);
      i < |joined| && !IsJsWhitespace(joined[i])
    ensures Normalize(fields).name == FullName(fields)
    ensures FullName(fields) != [] && !IsJsWhitespace(FullName(fields)[0])
  {
  }

  /** Without such a character the name is the first filled of `name` and
      `Name`. */
  lemma NameFallback(fields: map<string, string>)
    requires forall i :: 0 <= i < |Pick(fields, FIRST_NAME_KEYS)| ==> IsJsWhitespace(Pick(fields, FIRST_NAME_KEYS)[i])
    requires forall i :: 0 <= i < |Pick(fields, LAST_NAME_KEYS)| ==> IsJsWhitespace(Pick(fields, LAST_NAME_KEYS)[i])
    ensures Normalize(fields).name == Pick(fields, NAME_KEYS)
  {
    var first := Pick(fields, FIRST_NAME_KEYS);
    var last := Pick(fields, LAST_NAME_KEYS);
    var joined := first + " " + last;
    forall i | 0 <= i < |joined|
      ensures IsJsWhitespace(joined[i])
    {
      if i < |first| {
        assert joined[i] == first[i];
      } else if i > |first| {
        assert joined[i] == last[i - |first| - 1];
      }
    }
  }

  /** Repeated names: the last entry's value is the one that is picked. */
  lemma RepeatedEmailLastWins(a: string, b: string)
    requires b != []
    ensures Normalize(Collected([("email", a), ("email", b)])).email == b
  {
    var entries := [("email", a), ("email", b)];
    CollectedLastWins(entries, 1);
    PickFirstFilled(Collected(entries), EMAIL_KEYS, 0);
  }

  // ---------------------------------------------------------------------------
  // validateRequiredFields
  // ---------------------------------------------------------------------------

  /** The controls the required-field check looks for: an email input, the
      message elements of the gender and country selects, the GDPR checkbox
      (its checked state) with its message element, and a ZIP input. */
  datatype Controls = Controls(emailInput: bool, genderMessage: bool, countryMessage: bool, gdprCheckbox: Option<bool>,
                               gdprMessage: bool, zipInput: bool)

  /** What the check does to the page: a blur event on the email or ZIP
      input (which runs that field's own validation), or a message element
      shown. */
  datatype Prompt = BlurEmail | ShowGenderMessage | ShowCountryMessage | ShowGdprMessage | BlurZip

  /** The text a shown message carries: the gender and country messages
      are set to their `*_required` texts, the GDPR message keeps the text
      the page gives it. */
  function PromptText(p: Prompt, lang: Lang): (r: Option<string>)
    ensures r.Some? <==> p == ShowGenderMessage || p == ShowCountryMessage
    ensures p == ShowGenderMessage ==> r == Some(ErrorMessage("gender_required", [], lang))
    ensures p == ShowCountryMessage ==> r == Some(ErrorMessage("country_required", [], lang))
  {
    match p
    case ShowGenderMessage => Some(ErrorMessage("gender_required", [], lang))
    case ShowCountryMessage => Some(ErrorMessage("country_required", [], lang))
    case _ => None
  }

  /** One prompt when its condition holds, none otherwise. */
  function PromptIf(cond: bool, p: Prompt): (r: seq<Prompt>)
    ensures forall x :: x in r <==> cond && x == p
  {
    if cond then [p] else []
  }

  /** `validateRequiredFields(form, normalizedFields)`: each missing value
      (and an unticked GDPR box) is an error, and prompts its field when the
      form has the control for it. */
  method ValidateRequiredFields(n: NormalizedFields, c: Controls) returns (ok: bool, prompts: seq<Prompt>)
    ensures ok <==> n.email != [] && n.gender != [] && n.country != [] && n.zipCode != [] && c.gdprCheckbox != Some(false)
    ensures BlurEmail in prompts <==> n.email == [] && c.emailInput
    ensures ShowGenderMessage in prompts <==> n.gender == [] && c.genderMessage
    ensures ShowCountryMessage in prompts <==> n.country == [] && c.countryMessage
    ensures ShowGdprMessage in prompts <==> c.gdprCheckbox == Some(false) && c.gdprMessage
    ensures BlurZip in prompts <==> n.zipCode == [] && c.zipInput
  {
    var email := PromptIf(n.email == [] && c.emailInput, BlurEmail);
    var gender := PromptIf(n.gender == [] && c.genderMessage, ShowGenderMessage);
    var country := PromptIf(n.country == [] && c.countryMessage, ShowCountryMessage);
    var gdpr := PromptIf(c.gdprCheckbox == Some(false) && c.gdprMessage, ShowGdprMessage);
    var zip := PromptIf(n.zipCode == [] && c.zipInput, BlurZip);
    prompts := email + gender + country + gdpr + zip;
    ok := !(n.email == [] || n.gender == [] || n.country == [] || c.gdprCheckbox == Some(false) || n.zipCode == []);
  }

  // ---------------------------------------------------------------------------
  // validateZipFormat
  // ---------------------------------------------------------------------------

  /** The verdict of the ZIP format check and the message it shows. */
  datatype ZipCheck = ZipCheck(ok: bool, error: Option<string>)

  /** A bound that JavaScript's `&&` lets through: present and not 0. */
  predicate Truthy(bound: Option<int>)
  {
    bound.Some? && bound.value != 0
  }

  /** `validateZipFormat(form, normalizedFields)`: the untrimmed ZIP against
      the country's rules, the range taken only when both bounds are truthy
      (NaN fails the comparison); a failure shows the `zip_invalid` text. */
  function ValidateZipFormat(n: NormalizedFields, lang: Lang): ZipCheck
  {
    if n.zipCode == [] || n.country == [] || n.country !in ZIP_PATTERNS then ZipCheck(true, None)
    else
      var rules := ZIP_PATTERNS[n.country];
      var matched := Matches(rules.pattern, n.zipCode);
      var valid := if Truthy(rules.min) && Truthy(rules.max) then
          matched && ParseInt(n.zipCode).Some? && rules.min.value <= ParseInt(n.zipCode).value <= rules.max.value
        else matched;
      if valid then ZipCheck(true, None)
      else ZipCheck(false, Some(ZipInvalidText(lang, n.country, TranslateZipFormat(rules.format, lang))))
  }

  /** The pre-submit check agrees with `validateZipCode` (the one range in
      the table has no zero bound), passes what the required-field check
      catches, and explains each failure with the `zip_invalid` text. */
  lemma ZipFormatAgrees(n: NormalizedFields, lang: Lang)
    ensures ValidateZipFormat(n, lang).ok <==> n.zipCode == [] || n.country == [] || ValidateZipCode(n.zipCode, n.country).valid
    ensures ValidateZipFormat(n, lang).ok <==> ValidateZipFormat(n, lang).error.None?
    ensures !ValidateZipFormat(n, lang).ok ==>
      ValidateZipFormat(n, lang).error == Some(ZipInvalidText(lang, n.country, TranslateZipFormat(ZIP_PATTERNS[n.country].format, lang)))
  {
    if n.zipCode != [] && n.country != [] && n.country in ZIP_PATTERNS {
      if n.country == "Germany" {
        GermanyRule();
      } else {
        OnlyGermanyHasRange(n.country);
      }
    }
  }

  // ---------------------------------------------------------------------------
  // The payload of submitToApi
  // ---------------------------------------------------------------------------

  /** `x || undefined` */
  function OrUndefined(x: string): Option<string>
  {
    if x != [] then Some(x) else None
  }

  /** The payload as built, in key order, before the clean-up. */
  function PayloadDraft(n: NormalizedFields, lang: Lang): seq<(string, Option<string>)>
  {
    [("email", Some(n.email)), ("name", OrUndefined(n.name)), ("gender", OrUndefined(n.gender)),
     ("city", OrUndefined(n.city)), ("country", OrUndefined(n.country)), ("zip_code", OrUndefined(n.zipCode)),
     ("language", Some(LangCode(lang)))]
  }

  /** The entries that survive the clean-up: neither undefined nor empty. */
  function Kept(draft: seq<(string, Option<string>)>): seq<(string, string)>
  {
    if draft == [] then []
    else
      var last := draft[|draft| - 1];
      Kept(draft[..|draft| - 1]) + (if last.1.Some? && last.1.value != [] then [(last.0, last.1.value)] else [])
  }

  /** An entry is kept exactly when its value is defined and not empty. */
  lemma {:induction false} KeptMember(draft: seq<(string, Option<string>)>, k: string, v: string)
    ensures (k, v) in Kept(draft) <==> v != [] && (k, Some(v)) in draft
  {
    if draft != [] {
      var init := draft[..|draft| - 1];
      KeptMember(init, k, v);
      assert draft == init + [draft[|draft| - 1]];
    }
  }

  /** The clean-up of `submitToApi`: every key whose value is undefined or
      empty is deleted, the others keep their order. */
  method BuildPayload(n: NormalizedFields, lang: Lang) returns (payload: seq<(string, string)>)
    ensures payload == Kept(PayloadDraft(n, lang))
  {
    var draft := PayloadDraft(n, lang);
    payload := [];
    for i := 0 to |draft|
      invariant payload == Kept(draft[..i])
    {
      assert draft[..i + 1][..i] == draft[..i];
      var (key, value) := draft[i];
      if value.Some? && value.value != [] {
        payload := payload + [(key, value.value)];
      }
    }
    assert draft[..|draft|] == draft;
  }

  /** The payload always carries the language, carries every other field
      exactly when it is not empty, and no empty value. */
  lemma PayloadContents(n: NormalizedFields, lang: Lang)
    ensures ("language", LangCode(lang)) in Kept(PayloadDraft(n, lang))
    ensures ("email", n.email) in Kept(PayloadDraft(n, lang)) <==> n.email != []
    ensures ("name", n.name) in Kept(PayloadDraft(n, lang)) <==> n.name != []
    ensures ("gender", n.gender) in Kept(PayloadDraft(n, lang)) <==> n.gender != []
    ensures ("city", n.city) in Kept(PayloadDraft(n, lang)) <==> n.city != []
    ensures ("country", n.country) in Kept(PayloadDraft(n, lang)) <==> n.country != []
    ensures ("zip_code", n.zipCode) in Kept(PayloadDraft(n, lang)) <==> n.zipCode != []
    ensures forall e :: e in Kept(PayloadDraft(n, lang)) ==> e.1 != []
  {
    var draft := PayloadDraft(n, lang);
    KeptMember(draft, "language", LangCode(lang));
    KeptMember(draft, "email", n.email);
    KeptMember(draft, "name", n.name);
    KeptMember(draft, "gender", n.gender);
    KeptMember(draft, "city", n.city);
    KeptMember(draft, "country", n.country);
    KeptMember(draft, "zip_code", n.zipCode);
    forall e | e in Kept(draft)
      ensures e.1 != []
    {
      KeptMember(draft, e.0, e.1);
    }
  }
}

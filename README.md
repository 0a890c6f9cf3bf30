# bluesphere storefront core, modelled in Dafny

This project models the logic of the bluesphere storefront scripts and proves
properties of it. The scripts are the browser code of a Webflow site that
sells blood-panel packages and runs a waitlist and a registration flow. The
modelled parts are:

- **Cart** (`src/global-cart-modal.js`). This covers:
  - the static package catalog `PACKAGES`;
  - the pricing pass `calculateCart`. It charges each package its base price
    minus the price of every biomarker that an earlier package in the cart
    has already claimed;
  - the stored cart list: `readCart`, `writeCart`, `clearCart`, `addToCart`
    and `removeFromCart`.

  Prices are integer cents. The catalog is a map from SKU to package. A
  package's biomarkers are a sequence in declaration order, because the pass
  depends on that order. The stored list is a `CartStore` object. Its field
  says whether the storage key is absent, holds unparseable text, or holds a
  list of entries.
- **Waitlist form state** (`src/forms/validation.js`). `FormState` and its
  five validity flags are a class. The submit gate `checkFormValidity`
  rewrites the submit button of every waitlist form that has a ZIP, gender or
  country field. The email, GDPR, gender and country handlers, with their
  message elements, are modelled too.
- **ZIP field** (`src/forms/zip-validator.js`). This covers:
  - the visual states that `updateFieldState` applies;
  - `performZipValidation`;
  - the input, debounce, blur and country-change handlers;
  - the loops over the ZIP inputs in `initZipValidation`.

  The page is a `ZipPage` object. It holds the inputs as records and shares
  the `FormState`.
- **ZIP rules** (`src/forms/zip-patterns.js`). This covers the table of 31
  countries with each country's regular expression written out as a
  predicate, `validateZipCode` with its German numeric range check through
  `parseInt`, and `getZipFormat`.
- **Messages** (`src/core/i18n.js`). This covers:
  - the German and English message tables;
  - `getErrorMessage` with its `{key}` placeholders. They are substituted
    with the semantics of `String.prototype.replace` for a string pattern,
    including its `$` replacement patterns;
  - `getUIString`;
  - `translateZipFormat`.
- **Configuration** (`src/core/config.js`). This covers the staging flag,
  the language of the page, the CDN base path and the page-script URL.
- **Submission helpers** (`src/forms/submission.js`). This covers
  `mapGender`, `normalizeFormFields`, `validateRequiredFields`,
  `validateZipFormat` and the fields of the submitted payload.
- **Authentication helpers** (`src/global-auth.js`). This covers:
  - `SecureStorage` with its expiring entries, `isAuthenticated` and
    `logout`, as a `Session` object;
  - the password, confirmation and email rules, and the first-step check
    with its messages;
  - the date-of-birth check and its ISO conversion;
  - the gender code map;
  - the initials of the navigation badge;
  - `showStep`.
- **Country selector** (`src/components/country-selector.js`). This covers
  `createCountryOptions`. Germany, Austria and Switzerland come first, in
  that order, followed by the rest sorted by name.

Browser state is modelled as explicit state:
- `localStorage` is a map, or a record of what is stored under one key;
- the location is the path;
- the clock is a `now` parameter;
- the DOM elements are records of the attributes the code reads and writes.

Event wiring is left to the caller: each handler is a method that takes the
event's value.

### Where the model follows the code

- For men's plus women's health the catalog and `calculateCart` give a
  deduction of 9743 cents, because LH (1457 cents) is shared as well as the
  other common biomarkers. `CartProperties.MensThenWomens` and
  `CartProperties.WomensThenMens` state the figures the code computes.
- `performZipValidation` takes an `isFinalValidation` argument that it never
  reads. The model has no such parameter.
- `updateFieldState` looks up the country select on its own to build the
  invalid message. The model passes it the country that the caller has
  already read, which is the same element.
- An invalid ZIP while typing, with errors not shown, removes no state
  class. The field keeps `zip-validating` from the input event
  (`ZipValidator.TypingThenQuietFailure`).
- `validateZipFormat` in `submission.js` applies the range check when
  `rules.min && rules.max` are truthy. `validateZipCode` uses
  `!== undefined` instead. Both behave the same on the shipped table, whose
  only bounds (Germany's) are non-zero. The model keeps both forms
  (`Submission.Truthy`, `ZipPatterns.InRange`).

## Model

| member | source | states |
|---|---|---|
| Config.IsStaging | src/core/config.js:7-12 | staging holds only when storage exists and `isStagingForMe` is exactly `"true"` |
| Config.IsProduction | src/core/config.js:14 | production is always the negation of staging |
| Config.IsEnglishSite | src/core/config.js:16-21 | English exactly when a path exists and contains `/en` |
| Config.GetLanguage | src/core/config.js:23 | the language is English iff the site is English, German otherwise |
| Config.LangCode | src/core/config.js:23 | the code is `"de"` or `"en"`, and `"en"` exactly for English |
| Config.GetBasePath | src/core/config.js:30-32 | the local server on staging, otherwise the jsDelivr URL of version 1.7 with `/dist/` |
| Config.PageScriptUrl | src/core/config.js:58-61 | the page-script URL is the base path followed by exactly the script name |
| Config.EntdeckenIsEnglish | src/core/config.js:16-23 | a German path that contains `/en` (`/entdecken`) counts as English; `/produkte` and no location are German |
| I18n.BaseMessage | src/core/i18n.js:74-78 | an unknown key gives the generic error; a known key gives its text in the language; the result is never empty |
| I18n.GetErrorMessage | src/core/i18n.js:74-84 | the loop over the replacements computes `ErrorMessage`; an unknown key without replacements gives the generic error |
| I18n.ReplaceFirst | src/core/i18n.js:79-81 | without an occurrence the text is unchanged; otherwise the first occurrence is replaced, by the replacement itself when it holds no `$` |
| I18n.ExpandPatterns | src/core/i18n.js:79-81 | the `$` patterns of JavaScript's `replace` with a string pattern: `$$` gives `$`, `$&` the match, `` $` `` the text before it, `$'` the text after it; `$1` and a lone `$` stay as written |
| I18n.ReplaceWithMatch | src/core/i18n.js:79-81 | replacing with `$&` gives back the original text |
| I18n.Expand | src/core/i18n.js:79-81 | a replacement without `$` is inserted literally |
| I18n.ReplaceFirstAt | src/core/i18n.js:79-81 | when the placeholder's first character does not occur before it, that occurrence is the one replaced |
| I18n.UnmatchedReplacement | src/core/i18n.js:79-81 | a replacement whose placeholder is absent changes nothing |
| I18n.OnePlaceholder | src/core/i18n.js:79-81 | a single placeholder after brace-free text is replaced by the value |
| I18n.TwoPlaceholders | src/core/i18n.js:79-81 | `{country}` and then `{format}` are both replaced by their values |
| I18n.ZipInvalidBase | src/core/i18n.js:14-17 | the `zip_invalid` template is lead + `{country}` + middle + `{format}` in both languages |
| I18n.ZipInvalidIsMessage | src/core/i18n.js:74-84 | the `zip_invalid` message with country and format is the filled template |
| I18n.ZipInvalidFilled | src/core/i18n.js:74-84 | for plain country and format texts, the message is lead + country + middle + format |
| I18n.ZipInvalidOpensWithLead | src/core/i18n.js:14-17 | the filled ZIP message starts with the template's lead and is never empty |
| I18n.ZipInvalidNoPlaceholders | src/core/i18n.js:74-84 | with brace- and dollar-free values no `{country}` or `{format}` is left in the message |
| I18n.CountryFirstIsMessage | src/core/i18n.js:34-37 | `country_first` has no placeholders and its message is the non-empty table text |
| I18n.GetUIString | src/core/i18n.js:91-94 | a known key gives its text, an unknown key is returned as is; `please_wait` in both languages |
| I18n.TranslateZipFormat | src/core/i18n.js:101-113 | English formats are returned unchanged |
| I18n.GermanChain | src/core/i18n.js:103-110 | the German translation is the seven replacements applied in order |
| I18n.ReplacementTexts | src/core/i18n.js:103-110 | the German words of the seven replacements |
| I18n.ReplaceEachRemoves | src/core/i18n.js:103-110 | once a literal English word is replaced, no later replacement brings it back |
| I18n.GermanFormatTranslated | src/core/i18n.js:103-110 | a German format text contains no `digits`, `letters` or `e.g.` |
| I18n.ReplaceAllFirst | src/core/i18n.js:104-106 | a global literal replacement keeps the text before the first occurrence, puts the replacement there and goes on behind it; a text without the word is unchanged |
| I18n.ReplaceOnce | src/core/i18n.js:104-106 | in `a + p + b`, when no other occurrence of `p` can start, `p` becomes the replacement and `a` and `b` stay |
| I18n.ReplaceAllAbsent | src/core/i18n.js:104-110 | a literal or word pattern with a character that the text lacks, up to case for the `i` flag, leaves the text unchanged |
| I18nExamples.TranslateFiveDigits | src/core/i18n.js:103-110 | on the German site Germany's format `5 digits (01001-99998)` (src/forms/zip-patterns.js line 12) becomes `5 Ziffern (01001-99998)` |
| I18nExamples.TranslateDigitsAndLetters | src/core/i18n.js:103-110 | on the German site the Dutch format `4 digits + 2 letters (e.g., 1234 AB)` (src/forms/zip-patterns.js line 42) becomes `4 Ziffern + 2 Buchstaben (z.B., 1234 AB)` |
| Strings.Trim | src/forms/zip-validator.js:199 | the trimmed text has visible ends and is empty iff the input is all whitespace |
| Strings.TrimSpan | src/forms/zip-validator.js:199 | the trimmed text is the piece of the input between its leading and its trailing whitespace, and everything cut off is whitespace |
| Strings.IndexOf | src/core/i18n.js:79-81 | the first occurrence: it matches, no earlier position matches, none iff absent |
| Strings.ToLower | src/forms/submission.js:93 | each character is lowered |
| ZipPatterns.ValidateZipCode | src/forms/zip-patterns.js:146-170 | empty ZIP or country is invalid without a format; an unknown country is valid without a format; otherwise the pattern, and Germany's range, decide, and the format is returned |
| ZipPatterns.ValidateIn | src/forms/zip-patterns.js:146-170 | the same over any rules table |
| ZipPatterns.GetZipFormat | src/forms/zip-patterns.js:177-179 | no format for an unknown country |
| ZipPatterns.FormatAgrees | src/forms/zip-patterns.js:146-179 | for a non-empty ZIP, `getZipFormat` gives the format `validateZipCode` reports |
| ZipPatterns.OnlyGermanyHasRange | src/forms/zip-patterns.js:6-138 | every country other than Germany has no numeric bounds |
| ZipPatterns.PatternDecides | src/forms/zip-patterns.js:152-164 | outside Germany validity is exactly the country's pattern |
| ZipPatterns.GermanyRule | src/forms/zip-patterns.js:8-13 | Germany's rule: its pattern, bounds 1001 and 99998, its format text |
| ZipPatterns.GermanPlzValue | src/forms/zip-patterns.js:9 | a five-digit text matches Germany's pattern iff its value is at least 1000 |
| ZipPatterns.ParseIntDigits | src/forms/zip-patterns.js:162 | `parseInt` of a digit string is its decimal value |
| ZipPatterns.GermanyChecks | src/forms/zip-patterns.js:158-164 | a German ZIP is valid iff it matches the pattern and passes the range check |
| ZipPatterns.GermanyFiveDigits | src/forms/zip-patterns.js:158-164 | a five-digit German ZIP is valid iff its value lies in 1001..99998 |
| ZipPatterns.GermanyMalformed | src/forms/zip-patterns.js:9 | anything other than five digits is an invalid German ZIP |
| ZipPatterns.GermanyExact | src/forms/zip-patterns.js:146-170 | a German ZIP is valid exactly when it is five digits valued 1001..99998 |
| ZipPatterns.GermanyEndsRejected | src/forms/zip-patterns.js:8-13 | 01000 and 99999 match the pattern but fail the range check |
| ZipPatterns.GermanyEndsAccepted | src/forms/zip-patterns.js:8-13 | 01001 and 99998 are valid |
| ZipPatterns.IgnoresCaseSound | src/forms/zip-patterns.js:24-101 | the `i` patterns accept a text iff they accept its upper- or lower-case form |
| ZipPatterns.LowerCaseAccepted | src/forms/zip-patterns.js:24-101 | for the UK, the Netherlands, Ireland and Canada the verdict ignores case |
| ZipPatterns.UkExamples | src/forms/zip-patterns.js:24-27 | `SW1A 1AA`, `sw1a 1aa` and `gir 0aa` are valid UK postcodes, `SW1A-1AA` is not |
| ZipPatterns.UsAndPolandShapes | src/forms/zip-patterns.js:48-97 | a US ZIP is five digits with an optional `-` and four digits; a Polish one is two digits, `-`, three digits |
| FormValidation.Refresh | src/forms/validation.js:23-50 | only an actual waitlist form with a button changes: disabled, opacity `1` and cursor `pointer` each iff the form may be submitted |
| FormValidation.RefreshAll | src/forms/validation.js:23-50 | every form is refreshed in place, none added or removed |
| FormValidation.RefreshLatestWins | src/forms/validation.js:23-50 | running the gate twice leaves what the last run alone would |
| FormValidation.EmailBlurMessage | src/forms/validation.js:74-92 | no message iff the email is valid; the required message for an empty value, the invalid message for one without `@` |
| FormValidation.FormState.constructor | src/forms/validation.js:13-18 | all five flags start false |
| FormValidation.FormState.CheckFormValidity | src/forms/validation.js:23-50 | the forms after the gate are the refresh of the old forms with `canSubmit` |
| FormValidation.FormState.OnEmailInput | src/forms/validation.js:68-71 | the email flag is the email rule of the value and the gate runs |
| FormValidation.FormState.OnEmailBlur | src/forms/validation.js:74-92 | with a message element, it is shown iff the email is invalid, with the blur message; nothing else changes |
| FormValidation.FormState.OnGdprChange | src/forms/validation.js:106-123 | the GDPR flag is the box's state, its message shows iff unticked, and the gate runs |
| FormValidation.FormState.OnGenderChange | src/forms/validation.js:139-156 | the gender flag is whether a value is chosen, its message shows iff not, and the gate runs |
| FormValidation.FormState.OnCountryChange | src/forms/validation.js:183-186 | the country flag is whether a value is chosen and the gate runs |
| FormValidation.FormState.InitEmailValidation | src/forms/validation.js:62-66 | the last email input decides the flag; without inputs nothing changes |
| FormValidation.FormState.InitFieldValidation | src/forms/validation.js:194-200 | each present control sets its flag from its initial value, a missing one leaves it, and the gate reflects the final flags |
| ZipValidator.UpdatedViewShows | src/forms/zip-validator.js:18-72 | exactly the new state's class among the ZIP classes, other classes kept; aria-invalid, the error class and the message follow the state |
| ZipValidator.ZipPage.UpdateFieldState | src/forms/zip-validator.js:18-72 | only input `i`'s view changes, to the updated view |
| ZipValidator.ZipPage.PerformZipValidation | src/forms/zip-validator.js:81-122 | the view, the ZIP flag and the buttons after one validation; the gate runs iff the ZIP is non-empty and a country is selected |
| ZipValidator.BlankClears | src/forms/zip-validator.js:82-85 | an empty ZIP clears the state class and leaves the flag and the buttons alone |
| ZipValidator.CountryFirstShown | src/forms/zip-validator.js:92-97 | without a country the flag is untouched, and the `country_first` message shows only when errors are shown |
| ZipValidator.VerdictShown | src/forms/zip-validator.js:99-121 | with a ZIP and a country the flag is the rules' verdict (an unknown country passes), shown as valid or, with errors shown, invalid |
| ZipValidator.FlagIsValidateZipCode | src/forms/zip-validator.js:110-118 | against `zipPatterns` the flag is `validateZipCode(zip, country).valid` |
| ZipValidator.TypingThenQuietFailure | src/forms/zip-validator.js:198-209 | a quiet failure after typing leaves the `zip-validating` class on the field |
| ZipValidator.ZipPage.OnInput | src/forms/zip-validator.js:198-209 | the typed value is stored; a non-blank value shows the typing state and leaves flag and buttons alone; a blank one clears the ZIP flag, refreshes the buttons and shows the empty state; other inputs are unchanged |
| ZipValidator.ZipPage.OnDebounceElapsed | src/forms/zip-validator.js:193-195 | the debounced check validates the trimmed current value without showing errors; the buttons are refreshed iff that value is non-empty and a country is selected |
| ZipValidator.ZipPage.OnBlur | src/forms/zip-validator.js:212-220 | a non-blank trimmed value gets a final check with errors shown, and the buttons are refreshed iff a country is selected; a blank one clears the ZIP flag and refreshes the buttons, leaving the field as it is |
| ZipValidator.ZipPage.ResetAria | src/forms/zip-validator.js:222 | only input `i`'s aria-invalid becomes `false` |
| ZipValidator.ZipPage.CheckInput | src/forms/zip-validator.js:184-190 | during set-up an empty input leaves its field as it was, clears the ZIP flag and refreshes the buttons; on a country change it is skipped; any other input is validated |
| ZipValidator.ZipPage.Step | src/forms/zip-validator.js:184-190 | one input's step in the loop: its field, the flag's verdict and the buttons |
| ZipValidator.ZipPage.RunInputs | src/forms/zip-validator.js:184-190 | every input takes its step in document order, and the flag and buttons are those of the steps in order |
| ZipValidator.NoDecision | src/forms/zip-validator.js:184-190 | when no input's step decides the flag, the loop leaves it and the buttons alone |
| ZipValidator.LastDecision | src/forms/zip-validator.js:184-190 | otherwise the last deciding input's verdict is the flag and the buttons were refreshed |
| ZipValidator.ZipPage.InitZipValidation | src/forms/zip-validator.js:161-262 | the two country defaults and the loop over the inputs with the defaulted country |
| ZipValidator.ZipPage.OnCountryChange | src/forms/zip-validator.js:254-260 | the new country is selected and every non-empty input is validated again with it |
| ZipValidator.FirstDefault | src/forms/zip-validator.js:168-172 | an empty `#country` select becomes Germany exactly when it offers that option; otherwise the select is unchanged |
| ZipValidator.SecondDefault | src/forms/zip-validator.js:230-234 | any empty country select becomes Germany exactly when it offers that option; otherwise the select is unchanged |
| ZipValidator.DefaultsNeedGermanyOption | src/forms/zip-validator.js:168-234 | a blank select without a Germany option (as `initCountrySelector` leaves it when no countries are loaded) stays blank through both defaults; with the option it ends on Germany |
| Cart.CalculateCart | src/global-cart-modal.js:152-182 | the nested loops compute the pricing pass `Calculate` |
| Cart.NewEntry | src/global-cart-modal.js:338-340 | the entry holds the SKU and the time, and an image only when one is given and non-empty |
| Cart.AddEntry | src/global-cart-modal.js:335-346 | the list is extended at most by one entry at the end; the SKU is then present; a SKU-unique list stays unique |
| Cart.RemoveSku | src/global-cart-modal.js:328 | exactly the entries with other SKUs remain |
| Cart.View | src/global-cart-modal.js:134-140 | the stored list, or `[]` when nothing or unparseable text is stored |
| Cart.CartStore.ReadCart | src/global-cart-modal.js:134-140 | reading gives the view of what is stored |
| Cart.CartStore.WriteCart | src/global-cart-modal.js:142-145 | the list is stored and one update is announced |
| Cart.CartStore.ClearCart | src/global-cart-modal.js:147-150 | the key is removed, so reading gives `[]` |
| Cart.CartStore.AddToCart | src/global-cart-modal.js:335-346 | a present SKU writes nothing; otherwise the list gains one entry at the end |
| Cart.CartStore.RemoveFromCart | src/global-cart-modal.js:327-333 | the list without that SKU's entries is written back |
| CartProperties.SumInvariant | src/global-cart-modal.js:152-181 | total plus deductions equals the sum of base prices for any list |
| CartProperties.RunBalance | src/global-cart-modal.js:158-175 | the pass keeps total plus deductions equal to the base-price sum |
| CartProperties.EmptyCart | src/global-cart-modal.js:152-181 | the empty cart gives zeros and no price lines |
| CartProperties.UnknownSkipped | src/global-cart-modal.js:159-160 | an unknown SKU anywhere in the list changes nothing |
| CartProperties.OnlyUnknown | src/global-cart-modal.js:159-160 | a list of unknown SKUs gives zeros and no price lines |
| CartProperties.PricesAre | src/global-cart-modal.js:161-173 | one price line per known item, in order, with the base price as original and the base price minus the already-claimed biomarkers as final |
| CartProperties.FirstResolvedPaysBase | src/global-cart-modal.js:161-173 | the first known item's final price is its base price |
| CartProperties.AppendKeepsEarlierLines | src/global-cart-modal.js:158-174 | appending keeps the earlier price lines and, with non-negative prices, cannot lower the deductions |
| CartProperties.SavingsNonNegative | src/biomarker-packages.js:109-112 | the savings computed on adding a package are never negative |
| CartProperties.DeductionsFormula | src/global-cart-modal.js:163-170 | with one price per biomarker, deductions are all biomarker prices minus those of the distinct biomarkers |
| CartProperties.OrderIndependent | src/global-cart-modal.js:163-170 | with one price per biomarker, total, deductions and original do not depend on the order of the items |
| CartProperties.PackagesConsistent | src/global-cart-modal.js:26-121 | the shipped catalog has one price per biomarker, no repeated key in a package and no negative price |
| CartProperties.PackagesOrderIndependent | src/global-cart-modal.js:26-121 | for the shipped catalog the three sums ignore the order of the cart |
| CartProperties.RemoveSkuIdempotent | src/global-cart-modal.js:328 | removing twice is removing once |
| CartProperties.RemoveSkuKeepsUnique | src/global-cart-modal.js:328 | removal keeps a SKU-unique list unique |
| CartProperties.RemoveSkuAbsent | src/global-cart-modal.js:328 | removing an absent SKU leaves the list unchanged |
| CartProperties.AddThenRemove | src/global-cart-modal.js:327-346 | adding a new SKU and removing it restores the list |
| CartProperties.AddIdempotent | src/global-cart-modal.js:335-346 | adding the same SKU again changes nothing |
| CartProperties.VitaminDAlone | src/global-cart-modal.js:101-108 | a single vitamin D package costs its base price of 1865 |
| CartProperties.MensThenWomens | src/global-cart-modal.js:26-58 | men's then women's health: total 11143, deductions 9743, women's line 2400 |
| CartProperties.WomensThenMens | src/global-cart-modal.js:26-58 | the reverse order: the same sums, and the men's line is -1000, not clamped |
| Submission.MapGenderRange | src/forms/submission.js:90-104 | the result is empty iff the input is, and otherwise a code or the raw value unchanged |
| Submission.MapGenderIdempotent | src/forms/submission.js:90-104 | mapping a mapped value changes nothing |
| Submission.MapGenderExamples | src/forms/submission.js:90-104 | the German labels map to codes whatever their case; an English label such as `Female` is passed through |
| Submission.CollectedKeys | src/forms/submission.js:112-115 | the collected fields have exactly the keys of the entries |
| Submission.CollectedLastWins | src/forms/submission.js:112-115 | a key's value is that of its last entry |
| Submission.FirstFilled | src/forms/submission.js:117-129 | the first alias with a non-empty value, or none when every alias is empty |
| Submission.NormalizeFormFields | src/forms/submission.js:111-130 | the loop collects the entries, last value winning, and picks each normalised field from its aliases |
| Submission.NameFromParts | src/forms/submission.js:124 | first and last name, when present, make the name |
| Submission.NameFallback | src/forms/submission.js:124 | otherwise the name falls back to the name aliases |
| Submission.RepeatedEmailLastWins | src/forms/submission.js:112-115 | of two email entries the second is kept |
| Submission.PromptText | src/forms/submission.js:138-200 | only the gender and country prompts carry a message, their required texts |
| Submission.ValidateRequiredFields | src/forms/submission.js:138-200 | valid iff email, gender, country and ZIP are filled and the GDPR box is not unticked; each prompt is raised iff its field is missing and its control exists |
| Submission.ZipFormatAgrees | src/forms/submission.js:209-255 | valid iff the ZIP or country is empty or `validateZipCode` accepts it; an error iff invalid, with the translated `zip_invalid` text |
| Submission.KeptMember | src/forms/submission.js:278-293 | a key and value are in the payload iff the draft has them with a defined value |
| Submission.BuildPayload | src/forms/submission.js:278-293 | the loop keeps the defined fields of the draft, in order |
| Submission.PayloadContents | src/forms/submission.js:278-293 | the payload always holds the language code, and each normalised field iff that field is non-empty |
| Auth.Lookup | src/global-auth.js:43-60 | a missing key, unparseable text or an expired entry read as nothing |
| Auth.SetThenGet | src/global-auth.js:31-60 | a value that is set is read back until it expires, and other keys are unaffected |
| Auth.DefaultExpiryIsAnHour | src/global-auth.js:31-41 | the default expiry is 60 minutes after the write |
| Auth.PurgeUnobservable | src/global-auth.js:43-60 | purging an expired entry changes no later read |
| Auth.LogoutEndsSession | src/global-auth.js:262-281 | after logout nobody is authenticated |
| Auth.Session.constructor | src/global-auth.js:30-65 | the storage starts from the given items |
| Auth.Session.Set | src/global-auth.js:31-41 | the key holds the value and its expiry, nothing else changes |
| Auth.Session.Get | src/global-auth.js:43-60 | the read value is the lookup; an expired entry is removed, while unparseable text is left in storage |
| Auth.Session.Remove | src/global-auth.js:62-64 | only that key is removed |
| Auth.Session.IsAuthenticated | src/global-auth.js:262-266 | authenticated iff either a non-empty, unexpired token or non-empty, unexpired user data is present; expired entries read on the way are removed |
| Auth.Session.Logout | src/global-auth.js:272-281 | the three auth keys and the three local user keys are removed |
| Auth.ClassOf | src/global-auth.js:605-606 | each character has exactly one of the four classes |
| Auth.ClassesMember | src/global-auth.js:605-606 | a class is among a password's classes iff one of its characters has it |
| Auth.StrongPasswordIsAllClasses | src/global-auth.js:605-606 | strong iff at least 8 long and all four classes present |
| Auth.PasswordExamples | src/global-auth.js:605-606 | example passwords on both sides of each rule |
| Auth.PasswordFeedback | src/global-auth.js:601-612 | empty keeps the field, a weak password shows the hint, a strong one clears it |
| Auth.ConfirmFeedback | src/global-auth.js:614-623 | empty keeps the field, a mismatch shows the mismatch text, a match clears it |
| Auth.EmailOneAt | src/global-auth.js:627 | an address of the registration shape has exactly one `@` |
| Auth.EmailShapeHasAt | src/global-auth.js:627 | such an address also passes the waitlist's weaker rule |
| Auth.EmailExamples | src/global-auth.js:627 | `a@b.de` passes, `a@b` and `@b.de` fail |
| Auth.Step1ErrorIffInvalid | src/global-auth.js:624-633 | the next button reports an error iff step one is invalid, with the mismatch and name messages in their cases |
| Auth.ParseDobIff | src/global-auth.js:762-765 | a birth date parses iff it is 1-2 digits, dot, 1-2 digits, dot, 4 digits |
| Auth.Pad2 | src/global-auth.js:870-872 | one digit gains a leading zero, two stay as they are |
| Auth.DobToIsoFields | src/global-auth.js:866-875 | a parsed date converts to year-month-day with padded fields |
| Auth.DobExampleSingleDigits | src/global-auth.js:866-875 | `1.2.1990` becomes `1990-02-01` |
| Auth.DobNoCalendarCheck | src/global-auth.js:762-765 | the check is textual only: `99.99.0000` passes |
| Auth.DobShortYearRejected | src/global-auth.js:762-765 | a two-digit year fails |
| Auth.GenderCodeIsCode | src/global-auth.js:110-132 | a mapped label is one of the API's gender codes, and mapping it again keeps it |
| Auth.GenderCodeIgnoresCase | src/global-auth.js:110-132 | labels are matched after lowering |
| Auth.GenderExamples | src/global-auth.js:110-132 | the English labels `Diverse` and `non-binary` map to `OTHER` and `NON_BINARY`, and the empty label to `UNKNOWN` (the map has no German labels) |
| Auth.SplitWhitespace | src/global-auth.js:1112 | every piece is whitespace-free and the first is the text up to the first whitespace |
| Auth.InitialsShape | src/global-auth.js:1112-1113 | no initials iff the name is blank, at most two, the first is the model's upper case of the first character (see Left out on ß); a one-word name gives exactly one |
| Auth.InitialsSecondWord | src/global-auth.js:1112-1113 | a name with a second word has two initials, the second from that word |
| Auth.StepDisplayOneShown | src/global-auth.js:301-308 | after `showStep(i)` at most one step is shown, and one is iff `i` is a step's index |
| Auth.RegisterSteps.ShowStep | src/global-auth.js:301-308 | the loop hides every step but `i` and records `i` as current |
| CountrySelector.Rank | src/components/country-selector.js:12 | below 3 exactly for the three priority countries, and then their position in the list |
| CountrySelector.SortBy | src/components/country-selector.js:14-20 | the sort is a permutation of its input |
| CountrySelector.SortBySorted | src/components/country-selector.js:14-20 | with a total order the sort is sorted |
| CountrySelector.PriorityPart | src/components/country-selector.js:14-16 | only priority countries, and as a multiset exactly the input's priority countries |
| CountrySelector.RemainingPart | src/components/country-selector.js:18-20 | only the other countries, and as a multiset exactly the input's other countries |
| CountrySelector.Ordered | src/components/country-selector.js:22 | the concatenation is a permutation of the countries |
| CountrySelector.CreateCountryOptions | src/components/country-selector.js:24-33 | one option per country, in the ordered sequence |
| CountrySelector.PriorityFront | src/components/country-selector.js:22 | the options begin with all priority countries |
| CountrySelector.PriorityFirst | src/components/country-selector.js:14-22 | a priority country comes before every other country |
| CountrySelector.PriorityInOrder | src/components/country-selector.js:14-16 | priority countries follow the list's fixed order |
| CountrySelector.RemainingSorted | src/components/country-selector.js:18-20 | the remaining countries are ordered by the name comparison |
| CountrySelector.OptionFields | src/components/country-selector.js:26-31 | an option's value and text are the name, its code the code, selected exactly for Germany |
| CountrySelector.GermanyFirstAndSelected | src/components/country-selector.js:12-31 | when Germany is present, the first option is Germany and it is selected |

## Left out

- DOM rendering, event wiring, timers, modals, notifications, scroll lock and styling. These are not logic the scripts state; each handler is a method taking the event's value instead.
- The network, analytics events and the API calls of registration and login. Their effects come from outside; only the values the scripts compute before and after them are modelled.
- `setupZipField` and `removeAllValidationMessages` in the ZIP field, and the nice-select mirror of the gender select. They only rearrange DOM elements.
- The legacy copies `src/global-form-validation.js` and `src/global-form-submission.js`. They duplicate the modelled modules.
- `localStorage` errors, JSON encoding and the UTF-16 length of texts. Stored values are modelled as text, and an object stored as user data is modelled as non-empty text.
- Keys inherited from `Object.prototype` (such as `constructor`) in object lookups. A lookup of such a key returns a value in JavaScript that the model does not have.
- Strings.ToUpper: JavaScript's `toUpperCase` maps ß (U+00DF) to "SS", ÿ (U+00FF) to Ÿ (U+0178) and µ (U+00B5) to Μ (U+039C); the model leaves these three characters as they are. It is exact on ASCII and on the Latin-1 letters whose upper case is one Latin-1 character. Full Unicode case mapping is outside the model.
- Strings.ToLower: exact on ASCII and Latin-1 only. Full Unicode case mapping is outside the model.
- Auth.InitialsShape: `|Initials(name)| <= 2` holds of the model only. In the source a name starting with ß has three initials ("SSX" for "ßa xy"), because `toUpperCase` lengthens ß.
- I18n.GetErrorMessage: the replacements are applied in the order of the given sequence. JavaScript's `Object.entries` lists integer-like keys first, in ascending order. The callers pass only `country` and `format`, whose order is as given.
- FormValidation.FormState: the page has one message record for all email inputs. In the source each email input shows its message in the `.form_validation` element of its own field wrap.
- Auth.DobToIsoFields: the `Date` fallback for texts that fail the pattern is left out, since it depends on the host's date parser.
- The GDPR message's text in `validateRequiredFields`. It is whatever the page shows; the model records only whether it shows.
- `getStep1Fields` reads the elements before their values, and the next-button handler reads the values at once. The model has one field record for both.
- CountrySelector.SortBy: `Array.prototype.sort` is modelled as a stable insertion sort. For a consistent comparator every conforming engine gives the same order, since the sort must be stable; only an inconsistent `localeCompare` is outside the model.
- `loadScript` and `loadPageScript`'s script-tag insertion. Only the URL is modelled (`Config.PageScriptUrl`).
- The display price `fmt(final || basePrice)` in the cart modal. It belongs to rendering.

/**
 * Real-time ZIP validation of the waitlist form (src/forms/zip-validator.js).
 *
 * A ZIP input is a class: its value and what the page shows around it (the
 * input's state classes and `aria-invalid`, the `error` class of its
 * `.form_field`, and the `.form_validation` message of its
 * `.form_field-wrap`). The page is a class holding the shared `FormState`,
 * the ZIP inputs and the value of the country select. Each method is proved
 * against a function of the old state; the lemmas state what the page then
 * shows. The 500 ms debounce is a separate method, `OnDebounceElapsed`, that
 * the caller invokes when the timer fires.
 */
module ZipValidator {
  import opened Strings
  import opened Config
  import opened I18n
  import opened ZipPatterns
  import opened FormValidation

  /** The states `updateFieldState` knows. */
  datatype FieldState = Typing | Valid | Invalid | Empty

  /** The state classes of a ZIP input. */
  const ZIP_CLASSES: set<string> := {"zip-validating", "zip-valid", "zip-invalid"}

  /** The class each state adds. */
  function StateClass(state: FieldState): set<string>
  {
    match state
    case Typing => {"zip-validating"}
    case Valid => {"zip-valid"}
    case Invalid => {"zip-invalid"}
    case Empty => {}
  }

  /** What the page shows for one ZIP input: the input's classes and
      `aria-invalid`, whether its `.form_field` has the `error` class, and
      whether its message is shown, with the message's text. */
  datatype FieldView = FieldView(classes: set<string>, ariaInvalid: Option<string>, error: bool, messageShown: bool, messageText: string)

  /** The message of the invalid state: the given message, or else the
      `zip_invalid` message built from the country and the translated format
      when the rules have a format; empty when there is neither. */
  function InvalidMessage(errorMessage: string, rules: Option<ZipRule>, country: string, lang: Lang): string
  {
    if errorMessage != [] then errorMessage
    else if rules.Some? && rules.value.format != [] then
      ZipInvalidText(lang, country, TranslateZipFormat(rules.value.format, lang))
    else []
  }

  /** The view after `updateFieldState(input, state, errorMessage,
      countryRules)`. `hasFormField` and `hasMessage` say whether the input
      has a `.form_field` and a message element. */
  function UpdatedView(v: FieldView, hasFormField: bool, hasMessage: bool, state: FieldState,
                       errorMessage: string, rules: Option<ZipRule>, country: string, lang: Lang): FieldView
  {
    var classes := v.classes - ZIP_CLASSES + StateClass(state);
    var aria := match state
      case Typing => v.ariaInvalid
      case Invalid => Some("true")
      case _ => Some("false");
    var error := if hasFormField then state == Invalid else v.error;
    var message := if state == Invalid then InvalidMessage(errorMessage, rules, country, lang) else [];
    if hasMessage then FieldView(classes, aria, error, message != [], if message != [] then message else v.messageText)
    else FieldView(classes, aria, error, v.messageShown, v.messageText)
  }

  /** What `updateFieldState` shows: the one class of the new state among
      the state classes, the other classes kept; `aria-invalid` by state;
      the `error` class exactly in the invalid state; and the message exactly
      in the invalid state when there is one to show. */
  lemma UpdatedViewShows(v: FieldView, hasFormField: bool, hasMessage: bool, state: FieldState,
                         errorMessage: string, rules: Option<ZipRule>, country: string, lang: Lang, r: FieldView)
    requires r == UpdatedView(v, hasFormField, hasMessage, state, errorMessage, rules, country, lang)
    ensures r.classes * ZIP_CLASSES == StateClass(state)
    ensures r.classes - ZIP_CLASSES == v.classes - ZIP_CLASSES
    ensures state == Typing ==> r.ariaInvalid == v.ariaInvalid
    ensures state == Invalid ==> r.ariaInvalid == Some("true")
    ensures state == Valid || state == Empty ==> r.ariaInvalid == Some("false")
    ensures hasFormField ==> (r.error <==> state == Invalid)
    ensures !hasFormField ==> r.error == v.error
    ensures !hasMessage ==> r.messageShown == v.messageShown && r.messageText == v.messageText
    ensures hasMessage ==> (r.messageShown <==> state == Invalid && InvalidMessage(errorMessage, rules, country, lang) != [])
    ensures hasMessage && r.messageShown ==> r.messageText == InvalidMessage(errorMessage, rules, country, lang)
    ensures !r.messageShown ==> r.messageText == v.messageText
  {
  }

  /** `performZipValidation` re-checks the form exactly when it reaches the
      rules: a value and a selected country. */
  predicate Rechecks(zip: string, country: string)
  {
    zip != [] && country != []
  }

  /** The ZIP flag after `performZipValidation`: the verdict of
      `validateZipCode` once there is a value and a country (a country
      without rules accepts any value), otherwise the flag as it was. */
  function ZipValidAfter(zipValid: bool, table: map<string, ZipRule>, zip: string, country: string): bool
  {
    if Rechecks(zip, country) then ValidateIn(table, zip, country).valid else zipValid
  }

  /** The view after `performZipValidation(input, zip, _, showError)`. */
  function ViewAfter(v: FieldView, hasFormField: bool, hasMessage: bool, table: map<string, ZipRule>,
                     zip: string, country: string, showError: bool, lang: Lang): FieldView
  {
    if zip == [] then UpdatedView(v, hasFormField, hasMessage, Empty, [], None, country, lang)
    else if country == [] then
      if showError then UpdatedView(v, hasFormField, hasMessage, Invalid, CountryFirst(lang), None, country, lang)
      else v
    else if country !in table || ValidateIn(table, zip, country).valid then
      UpdatedView(v, hasFormField, hasMessage, Valid, [], None, country, lang)
    else if showError then UpdatedView(v, hasFormField, hasMessage, Invalid, [], Some(table[country]), country, lang)
    else v
  }

  /** The view of an input after its step in the loops over the inputs:
      an input with a value is validated with its trimmed value (errors
      shown on a country change, not during initialisation), an empty one
      is left alone; initialisation then resets `aria-invalid`. */
  function StepView(v: FieldView, hasFormField: bool, hasMessage: bool, table: map<string, ZipRule>,
                    value: string, country: string, init: bool, lang: Lang): FieldView
  {
    var w := CheckedView(v, hasFormField, hasMessage, table, value, country, init, lang);
    if init then w.(ariaInvalid := Some("false")) else w
  }

  /** The view after the validation part of that step. */
  function CheckedView(v: FieldView, hasFormField: bool, hasMessage: bool, table: map<string, ZipRule>,
                       value: string, country: string, init: bool, lang: Lang): FieldView
  {
    if value != [] then ViewAfter(v, hasFormField, hasMessage, table, Trim(value), country, !init, lang) else v
  }

  /** One input's effect on the ZIP flag during initialisation (`init`) or
      a country change: an input without a value clears the flag during
      initialisation and is skipped on a country change; any other input
      is validated with its trimmed value. */
  function Verdict(zipValid: bool, table: map<string, ZipRule>, value: string, country: string, init: bool): bool
  {
    if value == [] then (if init then false else zipValid)
    else ZipValidAfter(zipValid, table, Trim(value), country)
  }

  /** The flag after the inputs with these values, in order. */
  function Verdicts(zipValid: bool, table: map<string, ZipRule>, values: seq<string>, country: string, init: bool): bool
  {
    if values == [] then zipValid
    else Verdict(Verdicts(zipValid, table, values[..|values| - 1], country, init), table, values[|values| - 1], country, init)
  }

  /** Whether one input's step runs the submit gate. */
  predicate Refreshes(value: string, country: string, init: bool)
  {
    if value == [] then init else Rechecks(Trim(value), country)
  }

  /** Whether some input's step runs the gate. */
  predicate AnyRefresh(values: seq<string>, country: string, init: bool)
  {
    values != [] && (AnyRefresh(values[..|values| - 1], country, init) || Refreshes(values[|values| - 1], country, init))
  }

  /** A ZIP input: its value, whether it has a `.form_field` ancestor and a
      `.form_validation` message in the `.form_field-wrap` around that, and
      what the page shows for it. The message is only looked up from the
      `.form_field`, so a page has `hasMessage` only together with
      `hasFormField`; the operations below do not rely on this. */
  datatype ZipField = ZipField(value: string, hasFormField: bool, hasMessage: bool, view: FieldView)

  /** An input after its step in the loops over the inputs. */
  function StepField(f: ZipField, table: map<string, ZipRule>, country: string, init: bool, lang: Lang): ZipField
  {
    f.(view := StepView(f.view, f.hasFormField, f.hasMessage, table, f.value, country, init, lang))
  }

  /** The inputs after the first `n` steps. */
  function StepFields(fs: seq<ZipField>, n: nat, table: map<string, ZipRule>, country: string, init: bool, lang: Lang): (r: seq<ZipField>)
    ensures |r| == |fs|
    ensures forall k :: 0 <= k < |fs| ==> r[k] == if k < n then StepField(fs[k], table, country, init, lang) else fs[k]
  {
    seq(|fs|, k requires 0 <= k < |fs| => if k < n then StepField(fs[k], table, country, init, lang) else fs[k])
  }

  /** The values of the inputs, in order. */
  function Values(fs: seq<ZipField>): (vs: seq<string>)
    ensures |vs| == |fs| && forall k :: 0 <= k < |fs| ==> vs[k] == fs[k].value
  {
    seq(|fs|, k requires 0 <= k < |fs| => fs[k].value)
  }

  class ZipPage {
    const form: FormState
    /** The rules table the page validates against. */
    const table: map<string, ZipRule>
    /** The country select is `#country` (the first default only looks for
        that id). */
    const countryHasId: bool
    /** The country select offers an option whose value is "Germany".
        Setting a select's value to one it does not offer selects nothing,
        so the value stays empty. */
    const germanyOffered: bool
    const lang: Lang
    /** The ZIP inputs, in document order. */
    var fields: seq<ZipField>
    /** The value of the country select, `None` when the page has none. */
    var countrySelect: Option<string>

    constructor(form: FormState, fields: seq<ZipField>, countryHasId: bool, germanyOffered: bool, lang: Lang,
                countrySelect: Option<string>)
      ensures this.form == form && this.fields == fields && this.countryHasId == countryHasId
      ensures this.germanyOffered == germanyOffered
      ensures this.lang == lang && this.countrySelect == countrySelect
      ensures table == ZIP_PATTERNS
    {
      table := ZIP_PATTERNS;
      this.form := form;
      this.fields := fields;
      this.countryHasId := countryHasId;
      this.germanyOffered := germanyOffered;
      this.lang := lang;
      this.countrySelect := countrySelect;
    }

    /** `countrySelect ? countrySelect.value : ''` */
    function SelectedCountry(): string
      reads this`countrySelect
    {
      if countrySelect.Some? then countrySelect.value else []
    }

    /** `updateFieldState(input, state, errorMessage, countryRules)` on
        input `i`: clear the state classes, the `error` class and the
        message, then show the new state. */
    method UpdateFieldState(i: nat, state: FieldState, errorMessage: string, rules: Option<ZipRule>)
      requires i < |fields|
      modifies this`fields
      ensures fields == old(fields[i := fields[i].(view := UpdatedView(fields[i].view, fields[i].hasFormField, fields[i].hasMessage,
                                                                      state, errorMessage, rules, SelectedCountry(), lang))])
    {
      var f := fields[i];
      var classes := f.view.classes - ZIP_CLASSES;
      var aria := f.view.ariaInvalid;
      var error := f.view.error;
      var shown := f.view.messageShown;
      var text := f.view.messageText;
      if f.hasFormField {
        error := false;
      }
      if f.hasMessage {
        shown := false;
      }
      match state {
        case Typing =>
          classes := classes + {"zip-validating"};
        case Valid =>
          classes := classes + {"zip-valid"};
          aria := Some("false");
        case Invalid =>
          classes := classes + {"zip-invalid"};
          aria := Some("true");
          if f.hasFormField {
            error := true;
          }
          if f.hasMessage && (errorMessage != [] || rules.Some?) {
            var message := errorMessage;
            if message == [] && rules.Some? && rules.value.format != [] {
              var country := SelectedCountry();
              var translated := TranslateZipFormat(rules.value.format, lang);
              message := GetErrorMessage("zip_invalid", [("country", country), ("format", translated)], lang);
              ZipInvalidIsMessage(lang, country, translated);
            }
            if message != [] {
              text := message;
              shown := true;
            }
          }
        case Empty =>
          aria := Some("false");
      }
      assert FieldView(classes, aria, error, shown, text) == UpdatedView(f.view, f.hasFormField, f.hasMessage, state, errorMessage, rules, SelectedCountry(), lang);
      fields := fields[i := f.(view := FieldView(classes, aria, error, shown, text))];
    }

    /** `setAttribute('aria-invalid', 'false')` on input `i` at the end of
        its set-up. */
    method ResetAria(i: nat)
      requires i < |fields|
      modifies this`fields
      ensures fields == old(fields[i := fields[i].(view := fields[i].view.(ariaInvalid := Some("false")))])
    {
      fields := fields[i := fields[i].(view := fields[i].view.(ariaInvalid := Some("false")))];
    }

    /** `performZipValidation(input, zip, isFinalValidation, showError)` on
        input `i`; the source never reads `isFinalValidation`, so it is not
        a parameter. */
    method PerformZipValidation(i: nat, zip: string, showError: bool)
      requires i < |fields|
      modifies this`fields, form`zipValid, form`forms
      ensures fields == old(fields[i := fields[i].(view := ViewAfter(fields[i].view, fields[i].hasFormField, fields[i].hasMessage,
                                                                    table, zip, SelectedCountry(), showError, lang))])
      ensures form.zipValid == ZipValidAfter(old(form.zipValid), table, zip, SelectedCountry())
      ensures form.forms == if Rechecks(zip, SelectedCountry()) then RefreshAll(old(form.forms), form.CanSubmit()) else old(form.forms)
    {
      var selected := SelectedCountry();
      if zip == [] {
        UpdateFieldState(i, Empty, [], None);
        return;
      }
      if selected == [] {
        if showError {
          var message := GetErrorMessage("country_first", [], lang);
          CountryFirstIsMessage(lang);
          UpdateFieldState(i, Invalid, message, None);
        }
        return;
      }
      if selected !in table {
        form.zipValid := true;
        UpdateFieldState(i, Valid, [], None);
        form.CheckFormValidity();
        return;
      }
      var rules := table[selected];
      var result := ValidateIn(table, zip, selected);
      if result.valid {
        form.zipValid := true;
        UpdateFieldState(i, Valid, [], None);
      } else {
        form.zipValid := false;
        if showError {
          UpdateFieldState(i, Invalid, [], Some(rules));
        }
      }
      form.CheckFormValidity();
    }

    /** The input event on input `i` after the user changed its value to
        `typed`: a non-blank value shows the typing state (validation
        follows when the debounce timer fires); a blank one clears the flag
        and the field. */
    method OnInput(i: nat, typed: string)
      requires i < |fields|
      modifies this`fields, form`zipValid, form`forms
      ensures |fields| == old(|fields|) && fields[i].value == typed
      ensures forall k :: 0 <= k < |fields| && k != i ==> fields[k] == old(fields[k])
      ensures fields[i].hasFormField == old(fields[i].hasFormField) && fields[i].hasMessage == old(fields[i].hasMessage)
      ensures Trim(typed) != [] ==>
        fields[i].view == UpdatedView(old(fields[i].view), fields[i].hasFormField, fields[i].hasMessage, Typing, [], None, SelectedCountry(), lang)
        && form.zipValid == old(form.zipValid) && form.forms == old(form.forms)
      ensures Trim(typed) == [] ==>
        fields[i].view == UpdatedView(old(fields[i].view), fields[i].hasFormField, fields[i].hasMessage, Empty, [], None, SelectedCountry(), lang)
        && !form.zipValid && form.forms == RefreshAll(old(form.forms), form.CanSubmit())
    {
      fields := fields[i := fields[i].(value := typed)];
      var value := Trim(typed);
      if value != [] {
        UpdateFieldState(i, Typing, [], None);
      } else {
        form.zipValid := false;
        form.CheckFormValidity();
        UpdateFieldState(i, Empty, [], None);
      }
    }

    /** The debounced validation of input `i`: its current value, trimmed,
        without errors shown. */
    method OnDebounceElapsed(i: nat)
      requires i < |fields|
      modifies this`fields, form`zipValid, form`forms
      ensures fields == old(fields[i := fields[i].(view := ViewAfter(fields[i].view, fields[i].hasFormField, fields[i].hasMessage,
                                                                    table, Trim(fields[i].value), SelectedCountry(), false, lang))])
      ensures form.zipValid == ZipValidAfter(old(form.zipValid), table, Trim(fields[i].value), SelectedCountry())
      ensures form.forms == if Rechecks(Trim(fields[i].value), SelectedCountry())
                            then RefreshAll(old(form.forms), form.CanSubmit()) else old(form.forms)
    {
      PerformZipValidation(i, Trim(fields[i].value), false);
    }

    /** The blur event on input `i`: final validation with errors shown; a
        blank value only clears the flag. */
    method OnBlur(i: nat)
      requires i < |fields|
      modifies this`fields, form`zipValid, form`forms
      ensures fields == if Trim(old(fields[i].value)) == [] then old(fields)
                        else old(fields[i := fields[i].(view := ViewAfter(fields[i].view, fields[i].hasFormField, fields[i].hasMessage,
                                                                         table, Trim(fields[i].value), SelectedCountry(), true, lang))])
      ensures form.zipValid == (Trim(old(fields[i].value)) != []
                                && ZipValidAfter(old(form.zipValid), table, Trim(old(fields[i].value)), SelectedCountry()))
      ensures form.forms == if Trim(old(fields[i].value)) == [] || SelectedCountry() != []
                            then RefreshAll(old(form.forms), form.CanSubmit()) else old(form.forms)
    {
      var value := Trim(fields[i].value);
      if value != [] {
        PerformZipValidation(i, value, true);
        assert Rechecks(value, SelectedCountry()) == (SelectedCountry() != []);
      } else {
        form.zipValid := false;
        form.CheckFormValidity();
      }
    }

    /** The validation part of input `i`'s step in the loops over the
        inputs: an input with a value is validated with its trimmed value,
        errors shown unless this is the set-up; during the set-up an empty
        input clears the flag. */
    method CheckInput(i: nat, init: bool)
      requires i < |fields|
      modifies this`fields, form`zipValid, form`forms
      ensures fields == old(fields[i := fields[i].(view := CheckedView(fields[i].view, fields[i].hasFormField, fields[i].hasMessage,
                                                                      table, fields[i].value, SelectedCountry(), init, lang))])
      ensures form.zipValid == Verdict(old(form.zipValid), table, old(fields[i].value), SelectedCountry(), init)
      ensures form.forms == if Refreshes(old(fields[i].value), SelectedCountry(), init) then RefreshAll(old(form.forms), form.CanSubmit()) else old(form.forms)
    {
      var value := fields[i].value;
      if value != [] {
        PerformZipValidation(i, Trim(value), !init);
      } else if init {
        form.zipValid := false;
        form.CheckFormValidity();
      }
    }

    /** Input `i`'s step in the loops over the inputs: its validation, and
        during initialisation the reset of `aria-invalid`. */
    method Step(i: nat, init: bool)
      requires i < |fields|
      modifies this`fields, form`zipValid, form`forms
      ensures fields == old(fields[i := StepField(fields[i], table, SelectedCountry(), init, lang)])
      ensures form.zipValid == Verdict(old(form.zipValid), table, old(fields[i].value), SelectedCountry(), init)
      ensures form.forms == if Refreshes(old(fields[i].value), SelectedCountry(), init) then RefreshAll(old(form.forms), form.CanSubmit()) else old(form.forms)
    {
      ghost var before := fields;
      CheckInput(i, init);
      ghost var checked := fields;
      if init {
        ResetAria(i);
      }
      StepFromChecked(before, checked, fields, i, table, SelectedCountry(), init, lang);
    }

    /** The step of input `i` in a loop over the inputs that started from
        the inputs `start`, the flag `zipValid` and the buttons `forms`. */
    method Advance(i: nat, init: bool, ghost start: seq<ZipField>, ghost zipValid: bool, ghost forms: seq<WaitlistForm>)
      requires i < |start|
      requires fields == StepFields(start, i, table, SelectedCountry(), init, lang)
      requires FlagsAfter(table, Values(start)[..i], zipValid, forms, SelectedCountry(), init, form.zipValid, form.forms, form.CanSubmit())
      modifies this`fields, form`zipValid, form`forms
      ensures fields == StepFields(start, i + 1, table, SelectedCountry(), init, lang)
      ensures FlagsAfter(table, Values(start)[..i + 1], zipValid, forms, SelectedCountry(), init, form.zipValid, form.forms, form.CanSubmit())
    {
      ghost var country := SelectedCountry();
      ghost var flag := form.zipValid;
      ghost var previous := form.CanSubmit();
      ghost var before := form.forms;
      assert fields[i] == start[i];
      NoRefreshKeepsFlag(flag, table, start[i].value, country, init);
      Step(i, init);
      AdvanceFlags(start, i, table, country, init, zipValid, forms, flag, before, previous,
                   form.zipValid, form.forms, form.CanSubmit());
      StepFieldsNext(start, i, table, country, init, lang);
    }

    /** Every input in turn, as in the set-up (`init`) and the country
        change. */
    method RunInputs(init: bool)
      modifies this`fields, form`zipValid, form`forms
      ensures fields == StepFields(old(fields), |fields|, table, SelectedCountry(), init, lang)
      ensures FlagsAfter(table, Values(old(fields)), old(form.zipValid), old(form.forms), SelectedCountry(), init,
                         form.zipValid, form.forms, form.CanSubmit())
    {
      ghost var start := fields;
      for i := 0 to |fields|
        invariant |fields| == |start|
        invariant fields == StepFields(start, i, table, SelectedCountry(), init, lang)
        invariant FlagsAfter(table, Values(start)[..i], old(form.zipValid), old(form.forms), SelectedCountry(), init,
                             form.zipValid, form.forms, form.CanSubmit())
      {
        Advance(i, init, start, old(form.zipValid), old(form.forms));
      }
      assert Values(start)[..|start|] == Values(start);
    }

    /** `initZipValidation`: the first default country, then each input's
        initial validation and `aria-invalid` reset, then the second default
        country; with no ZIP inputs it stops after the first default. */
    method InitZipValidation()
      modifies this`fields, this`countrySelect, form`zipValid, form`forms
      ensures countrySelect == if |fields| == 0 then FirstDefault(old(countrySelect), countryHasId, germanyOffered) else SecondDefault(FirstDefault(old(countrySelect), countryHasId, germanyOffered), germanyOffered)
      ensures fields == StepFields(old(fields), |fields|, table, CountryOf(FirstDefault(old(countrySelect), countryHasId, germanyOffered)), true, lang)
      ensures FlagsAfter(table, Values(old(fields)), old(form.zipValid), old(form.forms), CountryOf(FirstDefault(old(countrySelect), countryHasId, germanyOffered)), true,
                         form.zipValid, form.forms, form.CanSubmit())
    {
      countrySelect := FirstDefault(countrySelect, countryHasId, germanyOffered);
      if |fields| == 0 {
        return;
      }
      RunInputs(true);
      countrySelect := SecondDefault(countrySelect, germanyOffered);
    }

    /** The country select's change event (only wired when the page has
        one): every input with a value is validated again, errors shown. */
    method OnCountryChange(selected: string)
      requires countrySelect.Some?
      modifies this`fields, this`countrySelect, form`zipValid, form`forms
      ensures countrySelect == Some(selected)
      ensures fields == StepFields(old(fields), |fields|, table, selected, false, lang)
      ensures FlagsAfter(table, Values(old(fields)), old(form.zipValid), old(form.forms), selected, false,
                         form.zipValid, form.forms, form.CanSubmit())
    {
      countrySelect := Some(selected);
      RunInputs(false);
    }
  }

  /** The first default: an empty `#country` select is set to "Germany",
      which takes only when the select offers that option. */
  function FirstDefault(select: Option<string>, hasId: bool, offered: bool): (r: Option<string>)
    ensures select != Some([]) ==> r == select
    ensures select == Some([]) ==> (r == Some("Germany") <==> hasId && offered)
    ensures select == Some([]) && !(hasId && offered) ==> r == Some([])
  {
    if hasId && offered && select == Some([]) then Some("Germany") else select
  }

  /** The second default: the same for any country select. */
  function SecondDefault(select: Option<string>, offered: bool): (r: Option<string>)
    ensures select != Some([]) ==> r == select
    ensures select == Some([]) ==> (r == Some("Germany") <==> offered)
    ensures select == Some([]) && !offered ==> r == Some([])
  {
    if offered && select == Some([]) then Some("Germany") else select
  }

  /** A blank select that does not offer Germany stays blank through both
      defaults, so a later check answers `country_first`; one that does
      offer it ends up on Germany. */
  lemma DefaultsNeedGermanyOption(hasId: bool)
    ensures SecondDefault(FirstDefault(Some([]), hasId, false), false) == Some([])
    ensures SecondDefault(FirstDefault(Some([]), hasId, true), true) == Some("Germany")
  {
  }

  function CountryOf(select: Option<string>): string
  {
    if select.Some? then select.value else []
  }

  /** An input whose step does not run the gate leaves the flag alone. */
  lemma NoRefreshKeepsFlag(zipValid: bool, table: map<string, ZipRule>, value: string, country: string, init: bool)
    ensures !Refreshes(value, country, init) ==> Verdict(zipValid, table, value, country, init) == zipValid
  {
  }

  /** The ZIP flag `flag`, the buttons `now` and the submit state
      `canSubmit` that the steps for `values` leave behind, from a flag
      `zipValid` and buttons `forms`: the verdicts folded in order, and the
      buttons refreshed to the final submit state when any step refreshed
      them. */
  predicate FlagsAfter(table: map<string, ZipRule>, values: seq<string>, zipValid: bool, forms: seq<WaitlistForm>,
                       country: string, init: bool, flag: bool, now: seq<WaitlistForm>, canSubmit: bool)
  {
    && flag == Verdicts(zipValid, table, values, country, init)
    && (AnyRefresh(values, country, init) ==> now == RefreshAll(forms, canSubmit))
    && (!AnyRefresh(values, country, init) ==> now == forms)
  }

  /** The inputs after the validation part of step `i` and, during the
      set-up, the `aria-invalid` reset are the inputs after step `i`. */
  lemma StepFromChecked(before: seq<ZipField>, checked: seq<ZipField>, after: seq<ZipField>, i: nat,
                        table: map<string, ZipRule>, country: string, init: bool, lang: Lang)
    requires i < |before|
    requires checked == before[i := before[i].(view := CheckedView(before[i].view, before[i].hasFormField, before[i].hasMessage,
                                                                   table, before[i].value, country, init, lang))]
    requires after == if init then checked[i := checked[i].(view := checked[i].view.(ariaInvalid := Some("false")))] else checked
    ensures after == before[i := StepField(before[i], table, country, init, lang)]
  {
  }

  /** Taking step `n` after the first `n` steps. */
  lemma StepFieldsNext(fs: seq<ZipField>, n: nat, table: map<string, ZipRule>, country: string, init: bool, lang: Lang)
    requires n < |fs|
    ensures StepFields(fs, n, table, country, init, lang)[n := StepField(fs[n], table, country, init, lang)]
            == StepFields(fs, n + 1, table, country, init, lang)
  {
  }

  /** One more step keeps `FlagsAfter`: the flag takes the step's verdict,
      and a step that refreshes the buttons overrides every earlier
      refresh; a step that does not leaves the submit state alone. */
  lemma FlagStep(table: map<string, ZipRule>, values: seq<string>, i: nat, zipValid: bool, forms: seq<WaitlistForm>,
                 country: string, init: bool, flag: bool, before: seq<WaitlistForm>, previous: bool, now: bool)
    requires i < |values|
    requires FlagsAfter(table, values[..i], zipValid, forms, country, init, flag, before, previous)
    requires !Refreshes(values[i], country, init) ==> now == previous
    ensures FlagsAfter(table, values[..i + 1], zipValid, forms, country, init, Verdict(flag, table, values[i], country, init),
                       if Refreshes(values[i], country, init) then RefreshAll(before, now) else before, now)
  {
    PrefixSnoc(zipValid, table, values, i, country, init);
    if Refreshes(values[i], country, init) && AnyRefresh(values[..i], country, init) {
      RefreshLatestWins(forms, previous, now);
    }
  }

  /** `FlagStep` for the values of the inputs `start`, with the flag and
      the buttons that input `i`'s step leaves. */
  lemma AdvanceFlags(start: seq<ZipField>, i: nat, table: map<string, ZipRule>, country: string, init: bool,
                     zipValid: bool, forms: seq<WaitlistForm>, flag: bool, before: seq<WaitlistForm>, previous: bool,
                     newFlag: bool, newForms: seq<WaitlistForm>, now: bool)
    requires i < |start|
    requires FlagsAfter(table, Values(start)[..i], zipValid, forms, country, init, flag, before, previous)
    requires newFlag == Verdict(flag, table, start[i].value, country, init)
    requires newForms == if Refreshes(start[i].value, country, init) then RefreshAll(before, now) else before
    requires !Refreshes(start[i].value, country, init) ==> now == previous
    ensures FlagsAfter(table, Values(start)[..i + 1], zipValid, forms, country, init, newFlag, newForms, now)
  {
    assert Values(start)[i] == start[i].value;
    FlagStep(table, Values(start), i, zipValid, forms, country, init, flag, before, previous, now);
  }

  /** The fold over one more value takes that value's verdict, and it
      refreshes when the shorter fold or the new value does. */
  lemma PrefixSnoc(zipValid: bool, table: map<string, ZipRule>, values: seq<string>, i: nat, country: string, init: bool)
    requires i < |values|
    ensures Verdicts(zipValid, table, values[..i + 1], country, init)
            == Verdict(Verdicts(zipValid, table, values[..i], country, init), table, values[i], country, init)
    ensures AnyRefresh(values[..i + 1], country, init)
            == (AnyRefresh(values[..i], country, init) || Refreshes(values[i], country, init))
  {
    var done := values[..i + 1];
    assert done[..i] == values[..i];
    assert done[i] == values[i];
  }

  // ---------------------------------------------------------------------------
  // What performZipValidation shows and decides
  // ---------------------------------------------------------------------------

  /** An empty value clears the field: no state class (the other classes
      kept), `aria-invalid` false, no `error` class and no message; the flag
      and the buttons are left alone. */
  lemma BlankClears(v: FieldView, hasFormField: bool, hasMessage: bool, table: map<string, ZipRule>,
                    country: string, showError: bool, lang: Lang, zipValid: bool)
    ensures var r := ViewAfter(v, hasFormField, hasMessage, table, [], country, showError, lang);
      && r.classes * ZIP_CLASSES == {} && r.classes - ZIP_CLASSES == v.classes - ZIP_CLASSES
      && r.ariaInvalid == Some("false") && (hasFormField ==> !r.error) && (hasMessage ==> !r.messageShown)
    ensures ZipValidAfter(zipValid, table, [], country) == zipValid && !Rechecks([], country)
  {
    var r := ViewAfter(v, hasFormField, hasMessage, table, [], country, showError, lang);
    UpdatedViewShows(v, hasFormField, hasMessage, Empty, [], None, country, lang, r);
  }

  /** Without a country the flag is left alone; the field shows the
      invalid state with the `country_first` text only when errors are
      shown, and is otherwise untouched. */
  lemma CountryFirstShown(v: FieldView, hasFormField: bool, hasMessage: bool, table: map<string, ZipRule>,
                          zip: string, showError: bool, lang: Lang, zipValid: bool)
    requires zip != []
    ensures ZipValidAfter(zipValid, table, zip, []) == zipValid && !Rechecks(zip, [])
    ensures !showError ==> ViewAfter(v, hasFormField, hasMessage, table, zip, [], showError, lang) == v
    ensures showError ==>
      var r := ViewAfter(v, hasFormField, hasMessage, table, zip, [], showError, lang);
      && r.classes * ZIP_CLASSES == {"zip-invalid"} && r.ariaInvalid == Some("true")
      && (hasFormField ==> r.error)
      && (hasMessage ==> r.messageShown && r.messageText == CountryFirst(lang))
  {
    if showError {
      var r := ViewAfter(v, hasFormField, hasMessage, table, zip, [], showError, lang);
      CountryFirstIsMessage(lang);
      UpdatedViewShows(v, hasFormField, hasMessage, Invalid, CountryFirst(lang), None, [], lang, r);
    }
  }

  /** With a value and a country the flag becomes the verdict of the rules
      (a country without rules accepts), and so does the field: a pass shows
      the valid state; a failure shows the invalid state, with the
      `zip_invalid` text for the country and the translated format, when
      errors are shown, and leaves the field as it was otherwise. */
  lemma VerdictShown(v: FieldView, hasFormField: bool, hasMessage: bool, table: map<string, ZipRule>,
                     zip: string, country: string, showError: bool, lang: Lang, zipValid: bool)
    requires zip != [] && country != []
    ensures Rechecks(zip, country)
    ensures ZipValidAfter(zipValid, table, zip, country) <==> country !in table || ValidateIn(table, zip, country).valid
    ensures ZipValidAfter(zipValid, table, zip, country) ==>
      var r := ViewAfter(v, hasFormField, hasMessage, table, zip, country, showError, lang);
      && r.classes * ZIP_CLASSES == {"zip-valid"} && r.ariaInvalid == Some("false")
      && (hasFormField ==> !r.error) && (hasMessage ==> !r.messageShown)
    ensures !ZipValidAfter(zipValid, table, zip, country) && !showError ==>
      ViewAfter(v, hasFormField, hasMessage, table, zip, country, showError, lang) == v
    ensures !ZipValidAfter(zipValid, table, zip, country) && showError ==>
      var r := ViewAfter(v, hasFormField, hasMessage, table, zip, country, showError, lang);
      var format := table[country].format;
      && r.classes * ZIP_CLASSES == {"zip-invalid"} && r.ariaInvalid == Some("true")
      && (hasFormField ==> r.error)
      && (hasMessage && format != [] ==>
            r.messageShown && r.messageText == ZipInvalidText(lang, country, TranslateZipFormat(format, lang))
            && IsPrefix(ZipInvalidLead(lang), r.messageText))
  {
    var r := ViewAfter(v, hasFormField, hasMessage, table, zip, country, showError, lang);
    if country !in table || ValidateIn(table, zip, country).valid {
      UpdatedViewShows(v, hasFormField, hasMessage, Valid, [], None, country, lang, r);
    } else if showError {
      var rules := table[country];
      UpdatedViewShows(v, hasFormField, hasMessage, Invalid, [], Some(rules), country, lang, r);
      ZipInvalidOpensWithLead(lang, country, TranslateZipFormat(rules.format, lang));
    }
  }

  /** Against `zipPatterns` the flag is `validateZipCode(zip, country).valid`
      once there is a value and a country. */
  lemma FlagIsValidateZipCode(zipValid: bool, zip: string, country: string)
    requires zip != [] && country != []
    ensures ZipValidAfter(zipValid, ZIP_PATTERNS, zip, country) == ValidateZipCode(zip, country).valid
  {
  }

  /** Typing and then a failed check without errors shown leaves the
      typing class in place. */
  lemma TypingThenQuietFailure(v: FieldView, hasFormField: bool, hasMessage: bool, table: map<string, ZipRule>,
                               zip: string, country: string, lang: Lang, zipValid: bool)
    ensures var t := UpdatedView(v, hasFormField, hasMessage, Typing, [], None, country, lang);
      zip != [] && country != [] && !ZipValidAfter(zipValid, table, zip, country) ==>
      ViewAfter(t, hasFormField, hasMessage, table, zip, country, false, lang).classes * ZIP_CLASSES == {"zip-validating"}
  {
    var t := UpdatedView(v, hasFormField, hasMessage, Typing, [], None, country, lang);
    if zip != [] && country != [] && !ZipValidAfter(zipValid, table, zip, country) {
      UpdatedViewShows(v, hasFormField, hasMessage, Typing, [], None, country, lang, t);
      VerdictShown(t, hasFormField, hasMessage, table, zip, country, false, lang, zipValid);
    }
  }

  // ---------------------------------------------------------------------------
  // The flag after a loop over the inputs
  // ---------------------------------------------------------------------------

  /** The flag an input sets when its step decides it: false for an empty
      input, the verdict of the rules for its trimmed value otherwise. */
  function Decision(table: map<string, ZipRule>, value: string, country: string): bool
  {
    value != [] && ValidateIn(table, Trim(value), country).valid
  }

  /** When no input's step decides the flag, the loop leaves the flag and
      the buttons as they were. */
  lemma {:induction false} NoDecision(zipValid: bool, table: map<string, ZipRule>, values: seq<string>, country: string, init: bool)
    requires forall k :: 0 <= k < |values| ==> !Refreshes(values[k], country, init)
    ensures Verdicts(zipValid, table, values, country, init) == zipValid
    ensures !AnyRefresh(values, country, init)
  {
    if values != [] {
      var init' := values[..|values| - 1];
      assert forall k :: 0 <= k < |init'| ==> init'[k] == values[k];
      NoDecision(zipValid, table, init', country, init);
    }
  }

  /** Otherwise the last input whose step decides the flag has the last
      word, and the buttons were refreshed. */
  lemma {:induction false} LastDecision(zipValid: bool, table: map<string, ZipRule>, values: seq<string>, country: string,
                                       init: bool, j: nat)
    requires j < |values| && Refreshes(values[j], country, init)
    requires forall k :: j < k < |values| ==> !Refreshes(values[k], country, init)
    ensures Verdicts(zipValid, table, values, country, init) == Decision(table, values[j], country)
    ensures AnyRefresh(values, country, init)
  {
    var init' := values[..|values| - 1];
    if j < |values| - 1 {
      assert forall k :: 0 <= k < |init'| ==> init'[k] == values[k];
      LastDecision(zipValid, table, init', country, init, j);
      NoRefreshKeepsFlag(Verdicts(zipValid, table, init', country, init), table, values[|values| - 1], country, init);
    } else {
      DecidingStep(Verdicts(zipValid, table, init', country, init), table, values[j], country, init);
    }
  }

  /** An input whose step runs the gate sets the flag to its decision. */
  lemma DecidingStep(zipValid: bool, table: map<string, ZipRule>, value: string, country: string, init: bool)
    requires Refreshes(value, country, init)
    ensures Verdict(zipValid, table, value, country, init) == Decision(table, value, country)
  {
  }
}

/**
 * The waitlist form's validity flags and submit gate
 * (src/forms/validation.js).
 *
 * `FormState` is a class with the five flags the field handlers assign.
 * The waitlist forms of the page are a sequence of records; the gate
 * `checkFormValidity` rewrites the submit button of every form that has a
 * ZIP, gender or country field. Each message element is one record of
 * fields on the state: whether it is shown, and its text. Event wiring is
 * left to the caller: each handler is a method taking the event's value.
 */
module FormValidation {
  import opened Strings
  import opened Config
  import opened I18n

  /** The submit button's `disabled` and its `opacity`/`cursor` styles. */
  datatype SubmitButton = SubmitButton(disabled: bool, opacity: string, cursor: string)

  /** One `#wf-form-Waitlist-Form`: which of the identifying fields it holds,
      and its submit button if it has one. */
  datatype WaitlistForm = WaitlistForm(hasZip: bool, hasGender: bool, hasCountry: bool, button: Option<SubmitButton>)

  /** The forms the gate touches: those with a ZIP, gender or country field. */
  predicate IsActualWaitlistForm(f: WaitlistForm)
  {
    f.hasZip || f.hasGender || f.hasCountry
  }

  /** The gate applied to one form. */
  function Refresh(f: WaitlistForm, canSubmit: bool): (r: WaitlistForm)
    ensures !IsActualWaitlistForm(f) || f.button.None? ==> r == f
    ensures r.hasZip == f.hasZip && r.hasGender == f.hasGender && r.hasCountry == f.hasCountry
    ensures r.button.Some? <==> f.button.Some?
    ensures IsActualWaitlistForm(f) && r.button.Some? ==>
      (r.button.value.disabled <==> !canSubmit)
      && (r.button.value.opacity == "1" <==> canSubmit)
      && (r.button.value.cursor == "pointer" <==> canSubmit)
  {
    if IsActualWaitlistForm(f) && f.button.Some? then
      f.(button := Some(SubmitButton(!canSubmit, if canSubmit then "1" else "0.6", if canSubmit then "pointer" else "not-allowed")))
    else f
  }

  /** The gate applied to every form. */
  function RefreshAll(forms: seq<WaitlistForm>, canSubmit: bool): (r: seq<WaitlistForm>)
    ensures |r| == |forms| && forall k :: 0 <= k < |forms| ==> r[k] == Refresh(forms[k], canSubmit)
  {
    seq(|forms|, k requires 0 <= k < |forms| => Refresh(forms[k], canSubmit))
  }

  /** Only the latest run of the gate is visible on the buttons. */
  lemma {:induction false} RefreshLatestWins(forms: seq<WaitlistForm>, a: bool, b: bool)
    ensures RefreshAll(RefreshAll(forms, a), b) == RefreshAll(forms, b)
  {
    var once := RefreshAll(forms, a);
    forall k | 0 <= k < |forms|
      ensures Refresh(once[k], b) == Refresh(forms[k], b)
    {
      assert IsActualWaitlistForm(once[k]) == IsActualWaitlistForm(forms[k]);
    }
  }

  /** The email rule: non-empty and holding an '@'. */
  predicate EmailValid(value: string)
  {
    value != [] && Contains(value, "@")
  }

  /** The rule of the gender and country selects: a value is chosen. */
  predicate Chosen(value: string)
  {
    value != []
  }

  /** The text the email field's blur handler shows, `None` when it hides
      the message. */
  function EmailBlurMessage(value: string, lang: Lang): (r: Option<string>)
    ensures r.None? <==> EmailValid(value)
    ensures value == [] ==> r == Some(ErrorMessage("email_required", [], lang))
    ensures value != [] && !Contains(value, "@") ==> r == Some(ErrorMessage("email_invalid", [], lang))
  {
    if value == [] then Some(ErrorMessage("email_required", [], lang))
    else if !Contains(value, "@") then Some(ErrorMessage("email_invalid", [], lang))
    else None
  }

  class FormState {
    var zipValid: bool
    var emailValid: bool
    var genderValid: bool
    var gdprValid: bool
    var countryValid: bool
    /** The waitlist forms of the page. */
    var forms: seq<WaitlistForm>
    /** The message elements of the email, GDPR and gender fields. */
    var emailMessageShown: bool
    var emailMessageText: string
    var gdprMessageShown: bool
    var genderMessageShown: bool

    /** All five flags start false. */
    constructor(forms: seq<WaitlistForm>)
      ensures !zipValid && !emailValid && !genderValid && !gdprValid && !countryValid
      ensures this.forms == forms
      ensures !emailMessageShown && emailMessageText == [] && !gdprMessageShown && !genderMessageShown
    {
      zipValid, emailValid, genderValid, gdprValid, countryValid := false, false, false, false, false;
      this.forms := forms;
      emailMessageShown, emailMessageText, gdprMessageShown, genderMessageShown := false, [], false, false;
    }

    /** `canSubmit` */
    predicate CanSubmit()
      reads this`emailValid, this`zipValid, this`genderValid, this`gdprValid, this`countryValid
    {
      emailValid && zipValid && genderValid && gdprValid && countryValid
    }

    /** `checkFormValidity`: every actual waitlist form's button is enabled
        exactly when all five flags hold. */
    method CheckFormValidity()
      modifies this`forms
      ensures forms == RefreshAll(old(forms), CanSubmit())
    {
      var canSubmit := emailValid && zipValid && genderValid && gdprValid && countryValid;
      var original := forms;
      for i := 0 to |original|
        invariant |forms| == |original|
        invariant forall k :: 0 <= k < i ==> forms[k] == Refresh(original[k], canSubmit)
        invariant forall k :: i <= k < |original| ==> forms[k] == original[k]
      {
        var form := forms[i];
        if IsActualWaitlistForm(form) && form.button.Some? {
          var button := SubmitButton(!canSubmit, if canSubmit then "1" else "0.6", if canSubmit then "pointer" else "not-allowed");
          forms := forms[i := form.(button := Some(button))];
        }
      }
    }

    /** The email input handler. */
    method OnEmailInput(value: string)
      modifies this`emailValid, this`forms
      ensures emailValid == EmailValid(value)
      ensures forms == RefreshAll(old(forms), CanSubmit())
    {
      emailValid := EmailValid(value);
      CheckFormValidity();
    }

    /** The email blur handler: only the message changes, and only when the
        field has a message element (`hasMessage`). */
    method OnEmailBlur(value: string, lang: Lang, hasMessage: bool)
      modifies this`emailMessageShown, this`emailMessageText
      ensures !hasMessage ==> emailMessageShown == old(emailMessageShown) && emailMessageText == old(emailMessageText)
      ensures hasMessage ==> (emailMessageShown <==> !EmailValid(value))
      ensures hasMessage && emailMessageShown ==> emailMessageText == EmailBlurMessage(value, lang).value
      ensures !emailMessageShown ==> emailMessageText == old(emailMessageText)
    {
      if hasMessage {
        match EmailBlurMessage(value, lang)
        case Some(text) =>
          emailMessageText := text;
          emailMessageShown := true;
        case None =>
          emailMessageShown := false;
      }
    }

    /** The GDPR checkbox change handler. */
    method OnGdprChange(checked: bool, hasMessage: bool)
      modifies this`gdprValid, this`gdprMessageShown, this`forms
      ensures gdprValid == checked
      ensures gdprMessageShown == if hasMessage then !checked else old(gdprMessageShown)
      ensures forms == RefreshAll(old(forms), CanSubmit())
    {
      gdprValid := checked;
      if hasMessage {
        gdprMessageShown := !checked;
      }
      CheckFormValidity();
    }

    /** The gender select change handler. */
    method OnGenderChange(value: string, hasMessage: bool)
      modifies this`genderValid, this`genderMessageShown, this`forms
      ensures genderValid == Chosen(value)
      ensures genderMessageShown == if hasMessage then !Chosen(value) else old(genderMessageShown)
      ensures forms == RefreshAll(old(forms), CanSubmit())
    {
      genderValid := value != [];
      if hasMessage {
        genderMessageShown := value == [];
      }
      CheckFormValidity();
    }

    /** The country select change handler. */
    method OnCountryChange(value: string)
      modifies this`countryValid, this`forms
      ensures countryValid == Chosen(value)
      ensures forms == RefreshAll(old(forms), CanSubmit())
    {
      countryValid := value != [];
      CheckFormValidity();
    }

    /** `initEmailValidation`: each email input in turn sets the flag from
        its value and runs the gate, so the last one decides. */
    method InitEmailValidation(values: seq<string>)
      modifies this`emailValid, this`forms
      ensures |values| > 0 ==> emailValid == EmailValid(values[|values| - 1])
      ensures |values| > 0 ==> forms == RefreshAll(old(forms), CanSubmit())
      ensures |values| == 0 ==> emailValid == old(emailValid) && forms == old(forms)
    {
      var original := forms;
      for i := 0 to |values|
        invariant i > 0 ==> emailValid == EmailValid(values[i - 1]) && forms == RefreshAll(original, CanSubmit())
        invariant i == 0 ==> emailValid == old(emailValid) && forms == original
      {
        ghost var previous := CanSubmit();
        emailValid := EmailValid(values[i]);
        CheckFormValidity();
        if i > 0 {
          RefreshLatestWins(original, previous, CanSubmit());
        }
      }
    }
  
    /** `initFieldValidation` on one form: the email inputs' values, and the
        GDPR checkbox, gender select and country select when the form has
        them. A missing control leaves its flag as it was; the gate runs
        once more at the end. */
    method InitFieldValidation(emailValues: seq<string>, gdpr: Option<bool>, gender: Option<string>, country: Option<string>)
      modifies this`emailValid, this`gdprValid, this`genderValid, this`countryValid, this`forms
      ensures emailValid == if |emailValues| > 0 then EmailValid(emailValues[|emailValues| - 1]) else old(emailValid)
      ensures gdprValid == if gdpr.Some? then gdpr.value else old(gdprValid)
      ensures genderValid == if gender.Some? then Chosen(gender.value) else old(genderValid)
      ensures countryValid == if country.Some? then Chosen(country.value) else old(countryValid)
      ensures forms == RefreshAll(old(forms), CanSubmit())
    {
      ghost var original := forms;
      InitEmailValidation(emailValues);
      ghost var afterEmail := CanSubmit();
      if gdpr.Some? {
        gdprValid := gdpr.value;
      }
      if gender.Some? {
        genderValid := gender.value != [];
      }
      if country.Some? {
        countryValid := country.value != [];
      }
      CheckFormValidity();
      if |emailValues| > 0 {
        RefreshLatestWins(original, afterEmail, CanSubmit());
      }
    }
  }
}

/**
 * The login and registration helpers of src/global-auth.js that do not
 * talk to the network: the expiring session storage, the session check
 * and logout, the registration checks of step 1 (names, email shape,
 * password policy), the date of birth and its ISO form, the gender codes
 * of the API and the initials of the navigation badge.
 *
 * The clock is a parameter (`now`, in milliseconds); the browser storages
 * are maps held by a `Session` object.
 */
module Auth {
  import opened Strings
  import opened ZipPatterns

  // ---------------------------------------------------------------------------
  // SecureStorage
  // ---------------------------------------------------------------------------

  const TOKEN_KEY := "auth_token"
  const REFRESH_KEY := "refresh_token"
  const USER_KEY := "user_data"

  /** The local-storage keys the login writes and logout clears. */
  const LOCAL_USER_KEYS := {"userName", "userEmail", "userId"}

  const MINUTE_MS := 60 * 1000
  const DEFAULT_EXPIRY_MINUTES := 60

  /** What session storage holds under a key: a stored item with its
      expiry time, or text that does not parse as one. */
  datatype Entry = Item(value: string, expiry: int) | Unparseable

  /** The item `set(key, value, minutes)` stores at time `now`. */
  function Stored(value: string, now: int, minutes: int): Entry
  {
    Item(value, now + minutes * MINUTE_MS)
  }

  /** An item whose expiry time has passed. */
  predicate Expired(items: map<string, Entry>, key: string, now: int)
  {
    key in items && items[key].Item? && now > items[key].expiry
  }

  /** What `get(key)` returns at time `now`: nothing for a missing,
      unparseable or expired entry, else the stored value (still at the
      expiry instant itself). */
  function Lookup(items: map<string, Entry>, key: string, now: int): (r: Option<string>)
    ensures r.Some? <==> key in items && items[key].Item? && now <= items[key].expiry
    ensures r.Some? ==> r.value == items[key].value
  {
    if key in items && items[key].Item? && now <= items[key].expiry then Some(items[key].value) else None
  }

  /** The storage after `get(key)` at time `now`: an expired item is
      removed, all else stays. */
  function Purged(items: map<string, Entry>, key: string, now: int): map<string, Entry>
  {
    if Expired(items, key, now) then items - {key} else items
  }

  /** A value JavaScript's `||` lets through. The stored token is a string
      and the user record an object; both are modelled as text, an object
      as non-empty text. */
  predicate Truthy(v: Option<string>)
  {
    v.Some? && v.value != []
  }

  /** `isAuthenticated()` at time `now`. */
  predicate Authenticated(items: map<string, Entry>, now: int)
  {
    Truthy(Lookup(items, TOKEN_KEY, now)) || Truthy(Lookup(items, USER_KEY, now))
  }

  /** The session storage after `logout()`. */
  function LoggedOut(items: map<string, Entry>): map<string, Entry>
  {
    items - {TOKEN_KEY, REFRESH_KEY, USER_KEY}
  }

  /** A stored item reads back until its expiry time and not after; the
      other keys read as before. */
  lemma SetThenGet(items: map<string, Entry>, key: string, value: string, now: int, minutes: int, t: int, other: string)
    requires other != key
    ensures Lookup(items[key := Stored(value, now, minutes)], key, t) == if t <= now + minutes * 60000 then Some(value) else None
    ensures Lookup(items[key := Stored(value, now, minutes)], other, t) == Lookup(items, other, t)
  {
  }

  /** With the default of 60 minutes a value reads back for an hour:
      3 600 000 ms after it was stored, and not one millisecond later. */
  lemma DefaultExpiryIsAnHour(items: map<string, Entry>, key: string, value: string, now: int)
    ensures Lookup(items[key := Stored(value, now, DEFAULT_EXPIRY_MINUTES)], key, now + 3600000) == Some(value)
    ensures Lookup(items[key := Stored(value, now, DEFAULT_EXPIRY_MINUTES)], key, now + 3600001) == None
  {
  }

  /** Removing the expired item a read found changes nothing any later read
      can see: that item was already expired for every later time. */
  lemma PurgeUnobservable(items: map<string, Entry>, key: string, now: int, other: string, t: int)
    requires t >= now
    ensures Lookup(Purged(items, key, now), other, t) == Lookup(items, other, t)
  {
  }

  /** After logout no later session check succeeds, at any time. */
  lemma LogoutEndsSession(items: map<string, Entry>, now: int)
    ensures !Authenticated(LoggedOut(items), now)
    ensures REFRESH_KEY !in LoggedOut(items)
  {
  }

  /** The browser storages of one page. */
  class Session {
    /** sessionStorage */
    var items: map<string, Entry>
    /** localStorage */
    var local: map<string, string>

    constructor(items: map<string, Entry>, local: map<string, string>)
      ensures this.items == items && this.local == local
    {
      this.items := items;
      this.local := local;
    }

    /** `SecureStorage.set(key, value, expiryMinutes)` */
    method Set(key: string, value: string, now: int, expiryMinutes: int)
      modifies this`items
      ensures items == old(items)[key := Stored(value, now, expiryMinutes)]
    {
      items := items[key := Item(value, now + expiryMinutes * 60 * 1000)];
    }

    /** `SecureStorage.get(key)` */
    method Get(key: string, now: int) returns (r: Option<string>)
      modifies this`items
      ensures r == Lookup(old(items), key, now)
      ensures items == Purged(old(items), key, now)
    {
      if key !in items {
        return None;
      }
      match items[key]
      case Unparseable =>
        r := None;
      case Item(value, expiry) =>
        if now > expiry {
          items := items - {key};
          r := None;
        } else {
          r := Some(value);
        }
    }

    /** `SecureStorage.remove(key)` */
    method Remove(key: string)
      modifies this`items
      ensures items == old(items) - {key}
    {
      items := items - {key};
    }

    /** `isAuthenticated()`: reads the token and the user record, which
        drops whichever of them has expired. */
    method IsAuthenticated(now: int) returns (b: bool)
      modifies this`items
      ensures b == Authenticated(old(items), now)
      ensures items == Purged(Purged(old(items), TOKEN_KEY, now), USER_KEY, now)
    {
      var token := Get(TOKEN_KEY, now);
      var userData := Get(USER_KEY, now);
      b := (token.Some? && token.value != []) || (userData.Some? && userData.value != []);
    }

    /** `logout()`, storage effects only. */
    method Logout()
      modifies this`items, this`local
      ensures items == LoggedOut(old(items))
      ensures local == old(local) - LOCAL_USER_KEYS
    {
      Remove(TOKEN_KEY);
      Remove(REFRESH_KEY);
      Remove(USER_KEY);
      local := local - {"userName"} - {"userEmail"} - {"userId"};
    }
  }

  // ---------------------------------------------------------------------------
  // Password policy
  // ---------------------------------------------------------------------------

  predicate HasUpper(p: string) { exists i :: 0 <= i < |p| && IsUpper(p[i]) }
  predicate HasLower(p: string) { exists i :: 0 <= i < |p| && IsLower(p[i]) }
  predicate HasDigit(p: string) { exists i :: 0 <= i < |p| && IsDigit(p[i]) }
  /** A character outside `[A-Za-z0-9]`. */
  predicate HasSpecial(p: string) { exists i :: 0 <= i < |p| && !IsAlnum(p[i]) }

  /** The password rule: at least 8 characters, an upper-case and a
      lower-case ASCII letter, a digit and one other character. */
  predicate StrongPassword(p: string)
  {
    |p| >= 8 && HasUpper(p) && HasLower(p) && HasDigit(p) && HasSpecial(p)
  }

  /** The four kinds of character the rule asks for; every character is of
      exactly one kind. */
  datatype CharClass = Upper | Lower | Digit | Special

  function ClassOf(c: char): (k: CharClass)
    ensures k == Upper <==> IsUpper(c)
    ensures k == Lower <==> IsLower(c)
    ensures k == Digit <==> IsDigit(c)
    ensures k == Special <==> !IsAlnum(c)
  {
    if IsUpper(c) then Upper else if IsLower(c) then Lower else if IsDigit(c) then Digit else Special
  }

  /** The kinds of character a text holds. */
  function Classes(p: string): set<CharClass>
  {
    if p == [] then {} else {ClassOf(p[0])} + Classes(p[1..])
  }

  lemma {:induction false} ClassesMember(p: string, k: CharClass)
    ensures k in Classes(p) <==> exists i :: 0 <= i < |p| && ClassOf(p[i]) == k
  {
    if p != [] {
      ClassesMember(p[1..], k);
      if k in Classes(p[1..]) {
        var i :| 0 <= i < |p| - 1 && ClassOf(p[1..][i]) == k;
        assert ClassOf(p[i + 1]) == k;
      }
      if exists i :: 0 <= i < |p| && ClassOf(p[i]) == k {
        var i :| 0 <= i < |p| && ClassOf(p[i]) == k;
        if i > 0 {
          assert ClassOf(p[1..][i - 1]) == k;
        }
      }
    }
  }

  /** The rule is: 8 characters or more, of all four kinds. */
  lemma StrongPasswordIsAllClasses(p: string)
    ensures StrongPassword(p) <==> |p| >= 8 && Classes(p) == {Upper, Lower, Digit, Special}
  {
    ClassesMember(p, Upper);
    ClassesMember(p, Lower);
    ClassesMember(p, Digit);
    ClassesMember(p, Special);
    if StrongPassword(p) {
      assert Upper in Classes(p) && Lower in Classes(p) && Digit in Classes(p) && Special in Classes(p);
      forall k | k in Classes(p)
        ensures k in {Upper, Lower, Digit, Special}
      {
        assert k.Upper? || k.Lower? || k.Digit? || k.Special?;
      }
    }
  }

  lemma PasswordExamples()
    ensures StrongPassword("Passwort1!")
    ensures !StrongPassword("Passwort1")
    ensures !StrongPassword("Pa1!")
  {
    assert IsUpper("Passwort1!"[0]) && IsLower("Passwort1!"[1]) && IsDigit("Passwort1!"[8]) && !IsAlnum("Passwort1!"[9]);
    var q := "Passwort1";
    forall i | 0 <= i < |q|
      ensures IsAlnum(q[i])
    {
    }
  }

  /** What an inline check does to its field's message: nothing, show an
      error text, or clear it. */
  datatype Feedback = Keep | ShowError(text: string) | ClearError

  const PASSWORD_HINT := "Mindestens 8 Zeichen, Groß-/Kleinbuchstabe, Zahl und Sonderzeichen"
  const MISMATCH_TEXT := "Passwörter stimmen nicht überein"

  /** `validatePasswordField`: silent while empty, else the hint exactly
      when the rule fails. */
  function PasswordFeedback(v: string): (r: Feedback)
    ensures r == Keep <==> v == []
    ensures r == ClearError <==> v != [] && StrongPassword(v)
    ensures r.ShowError? ==> r.text == PASSWORD_HINT
  {
    if v == [] then Keep
    else if !StrongPassword(v) then ShowError(PASSWORD_HINT)
    else ClearError
  }

  /** `validateConfirmField`: silent while empty, else the mismatch text
      exactly when the two differ. */
  function ConfirmFeedback(confirm: string, password: string): (r: Feedback)
    ensures r == Keep <==> confirm == []
    ensures r == ClearError <==> confirm != [] && confirm == password
    ensures r.ShowError? ==> r.text == MISMATCH_TEXT
  {
    if confirm == [] then Keep
    else if confirm != password then ShowError(MISMATCH_TEXT)
    else ClearError
  }

  // ---------------------------------------------------------------------------
  // Email shape and step 1
  // ---------------------------------------------------------------------------

  /** Characters of `[^\s@]`. */
  predicate Plain(s: string)
  {
    forall i :: 0 <= i < |s| ==> !IsJsWhitespace(s[i]) && s[i] != '@'
  }

  /** `^[^\s@]+@[^\s@]+\.[^\s@]+$`: a local part, one '@', and a domain
      with a dot that is neither its first nor its last character. */
  predicate EmailShape(e: string)
  {
    exists k :: 0 < k < |e| - 1 && e[k] == '@' && Plain(e[..k]) && Plain(e[k + 1..])
      && exists j :: k + 1 < j < |e| - 1 && e[j] == '.'
  }

  /** An address of that shape has exactly one '@'. */
  lemma EmailOneAt(e: string, a: nat, b: nat)
    requires EmailShape(e)
    requires a < |e| && b < |e| && e[a] == '@' && e[b] == '@'
    ensures a == b
  {
    var k :| 0 < k < |e| - 1 && e[k] == '@' && Plain(e[..k]) && Plain(e[k + 1..])
      && exists j :: k + 1 < j < |e| - 1 && e[j] == '.';
    AtIsSeparator(e, k, a);
    AtIsSeparator(e, k, b);
  }

  /** Between two plain parts, the only '@' is the one at `k`. */
  lemma AtIsSeparator(e: string, k: nat, a: nat)
    requires k < |e| && Plain(e[..k]) && Plain(e[k + 1..])
    requires a < |e| && e[a] == '@'
    ensures a == k
  {
    forall i | 0 <= i < k
      ensures e[i] != '@'
    {
      assert e[..k][i] == e[i];
    }
    forall i | k < i < |e|
      ensures e[i] != '@'
    {
      assert e[k + 1..][i - k - 1] == e[i];
    }
  }

  /** Every such address also passes the waitlist form's weaker email rule
      (non-empty with an '@'). */
  lemma EmailShapeHasAt(e: string)
    requires EmailShape(e)
    ensures e != [] && Contains(e, "@")
  {
    var k :| 0 < k < |e| - 1 && e[k] == '@' && Plain(e[..k]) && Plain(e[k + 1..])
      && exists j :: k + 1 < j < |e| - 1 && e[j] == '.';
    assert e[k..k + 1] == "@";
    ContainsAt(e, "@", k);
  }

  lemma EmailExamples()
    ensures EmailShape("a@b.de")
    ensures !EmailShape("a@b")
    ensures !EmailShape("@b.de")
  {
    var e := "a@b.de";
    assert e[..1] == "a" && e[2..] == "b.de";
    assert e[3] == '.';
  }

  /** The values of the first registration step. */
  datatype Step1Fields = Step1Fields(firstName: string, lastName: string, email: string, password: string,
                                     passwordConfirm: string)

  /** `isStep1Valid()` */
  predicate IsStep1Valid(f: Step1Fields)
  {
    f.firstName != [] && f.lastName != []
    && f.email != [] && EmailShape(f.email)
    && f.password != [] && StrongPassword(f.password)
    && f.password == f.passwordConfirm
  }

  /** The click handler of the "next" button: the first failing check's
      message, in the handler's order, or `None` when step 1 is complete. */
  function Step1Error(f: Step1Fields): Option<string>
  {
    if f.firstName == [] || f.lastName == [] then Some("Bitte Vor- und Nachnamen eingeben")
    else if f.email == [] || !EmailShape(f.email) then Some("Bitte eine gültige E-Mail-Adresse eingeben")
    else if f.password == [] || |f.password| < 8 || !HasUpper(f.password) || !HasLower(f.password)
      || !HasDigit(f.password) || !HasSpecial(f.password)
    then Some("Passwort: min. 8 Zeichen, 1 Großbuchstabe, 1 Kleinbuchstabe, 1 Zahl und 1 Sonderzeichen")
    else if f.password != f.passwordConfirm then Some(MISMATCH_TEXT)
    else None
  }

  /** The button lets the user on exactly when the live check says step 1
      is valid; a mismatch is only reported once all else is right. */
  lemma Step1ErrorIffInvalid(f: Step1Fields)
    ensures Step1Error(f).None? <==> IsStep1Valid(f)
    ensures f.firstName != [] && f.lastName != [] && EmailShape(f.email) && StrongPassword(f.password) && f.password != f.passwordConfirm
      ==> Step1Error(f) == Some(MISMATCH_TEXT)
    ensures f.firstName == [] || f.lastName == [] ==> Step1Error(f) == Some("Bitte Vor- und Nachnamen eingeben")
  {
  }

  // ---------------------------------------------------------------------------
  // Date of birth
  // ---------------------------------------------------------------------------

  /** The position of the dot ending a field of one or two digits at the
      start of `s`, 0 when there is none. */
  function DotAfter(s: string): (i: nat)
    ensures i == 0 || (i in {1, 2} && i < |s| && s[i] == '.')
  {
    if |s| > 1 && s[1] == '.' then 1 else if |s| > 2 && s[2] == '.' then 2 else 0
  }

  /** `/^(\d{1,2})\.(\d{1,2})\.(\d{4})$/`: the day, month and year texts. */
  function ParseDob(s: string): Option<(string, string, string)>
  {
    var i := DotAfter(s);
    if i == 0 then None
    else
      var rest := s[i + 1..];
      var k := DotAfter(rest);
      if k == 0 then None
      else
        var d, m, y := s[..i], rest[..k], rest[k + 1..];
        if AllDigits(d) && AllDigits(m) && AllDigits(y) && |y| == 4 then Some((d, m, y)) else None
  }

  /** Day, month and year of one or two, one or two and four digits, with
      dots between, parse back into those three texts. */
  lemma ParseDobOfFields(d: string, m: string, y: string)
    requires 1 <= |d| <= 2 && 1 <= |m| <= 2 && |y| == 4 && AllDigits(d) && AllDigits(m) && AllDigits(y)
    ensures ParseDob(d + "." + m + "." + y) == Some((d, m, y))
  {
    var rest := m + "." + y;
    var s := d + "." + rest;
    assert d + "." + m + "." + y == s;
    assert s[|d|] == '.';
    assert |d| == 2 ==> s[1] == d[1];
    assert DotAfter(s) == |d|;
    assert s[|d| + 1..] == rest;
    assert rest[|m|] == '.';
    assert |m| == 2 ==> rest[1] == m[1];
    assert DotAfter(rest) == |m|;
    assert s[..|d|] == d && rest[..|m|] == m && rest[|m| + 1..] == y;
  }

  /** Whatever parses is of that shape. */
  lemma ParseDobFields(s: string)
    requires ParseDob(s).Some?
    ensures var (d, m, y) := ParseDob(s).value;
      s == d + "." + m + "." + y && 1 <= |d| <= 2 && 1 <= |m| <= 2 && |y| == 4 && AllDigits(d) && AllDigits(m) && AllDigits(y)
  {
    var i := DotAfter(s);
    var rest := s[i + 1..];
    var k := DotAfter(rest);
    assert s == s[..i] + "." + rest;
    assert rest == rest[..k] + "." + rest[k + 1..];
  }

  /** The parse succeeds exactly on that shape. */
  lemma ParseDobIff(s: string, d: string, m: string, y: string)
    ensures ParseDob(s) == Some((d, m, y)) <==>
      s == d + "." + m + "." + y && 1 <= |d| <= 2 && 1 <= |m| <= 2 && |y| == 4 && AllDigits(d) && AllDigits(m) && AllDigits(y)
  {
    if s == d + "." + m + "." + y && 1 <= |d| <= 2 && 1 <= |m| <= 2 && |y| == 4 && AllDigits(d) && AllDigits(m) && AllDigits(y) {
      ParseDobOfFields(d, m, y);
    }
    if ParseDob(s) == Some((d, m, y)) {
      ParseDobFields(s);
    }
  }

  /** `isValidDOB(val)`: non-empty and of that shape; no calendar check. */
  predicate IsValidDob(val: string)
  {
    val != [] && ParseDob(val).Some?
  }

  /** `padStart(2, '0')` on a field of one or two characters. */
  function Pad2(x: string): (r: string)
    ensures |x| <= 2 ==> |r| == 2
  {
    if |x| == 0 then "00" else if |x| == 1 then "0" + x else x
  }

  /** A padded field of one or two digits keeps its digits and its value. */
  lemma Pad2Value(x: string)
    requires 1 <= |x| <= 2 && AllDigits(x)
    ensures AllDigits(Pad2(x)) && PrefixValue(Pad2(x), 2) == PrefixValue(x, |x|)
  {
    if |x| == 1 {
      assert Pad2(x) == ['0', x[0]];
      assert PrefixValue(Pad2(x), 1) == 0;
      assert PrefixValue(x, 0) == 0;
    }
  }

  /** The date the registration sends for the German form: year, month and
      day joined by '-', month and day padded to two digits. Other formats
      go through the browser's date parser, which is not part of this model
      (`None`). */
  function DobToIso(raw: string): Option<string>
  {
    match ParseDob(raw)
    case Some((d, m, y)) => Some(y + "-" + Pad2(m) + "-" + Pad2(d))
    case None => None
  }

  /** The ISO text has the `YYYY-MM-DD` layout and carries the same year,
      month and day values. */
  lemma DobToIsoFields(raw: string, d: string, m: string, y: string)
    requires ParseDob(raw) == Some((d, m, y))
    ensures DobToIso(raw).Some?
    ensures var iso := DobToIso(raw).value;
      |iso| == 10 && iso[4] == '-' && iso[7] == '-' && AllDigits(iso[..4]) && AllDigits(iso[5..7]) && AllDigits(iso[8..])
      && iso[..4] == y && PrefixValue(iso[5..7], 2) == PrefixValue(m, |m|) && PrefixValue(iso[8..], 2) == PrefixValue(d, |d|)
  {
    ParseDobIff(raw, d, m, y);
    Pad2Value(m);
    Pad2Value(d);
    var iso := y + "-" + Pad2(m) + "-" + Pad2(d);
    assert iso[..4] == y && iso[5..7] == Pad2(m) && iso[8..] == Pad2(d);
  }

  /** A date of the German form becomes the three fields reordered. */
  lemma DobToIsoOf(d: string, m: string, y: string)
    requires 1 <= |d| <= 2 && 1 <= |m| <= 2 && |y| == 4 && AllDigits(d) && AllDigits(m) && AllDigits(y)
    ensures DobToIso(d + "." + m + "." + y) == Some(y + "-" + Pad2(m) + "-" + Pad2(d))
  {
    ParseDobOfFields(d, m, y);
  }

  lemma DobExampleSingleDigits()
    ensures DobToIso("1.2.1990") == Some("1990-02-01")
  {
    DobToIsoOf("1", "2", "1990");
    assert "1" + "." + "2" + "." + "1990" == "1.2.1990";
    var iso := "1990" + "-" + Pad2("2") + "-" + Pad2("1");
    assert forall k :: 0 <= k < 10 ==> iso[k] == "1990-02-01"[k];
    assert iso == "1990-02-01";
  }

  /** No calendar check: day 99 of month 99 passes. */
  lemma DobNoCalendarCheck()
    ensures IsValidDob("99.99.0000")
  {
    assert "99" + "." + "99" + "." + "0000" == "99.99.0000";
    FieldsValid("99", "99", "0000", "99.99.0000");
  }

  /** A text made of valid fields is a valid date of birth. */
  lemma FieldsValid(d: string, m: string, y: string, s: string)
    requires 1 <= |d| <= 2 && 1 <= |m| <= 2 && |y| == 4 && AllDigits(d) && AllDigits(m) && AllDigits(y)
    requires s == d + "." + m + "." + y
    ensures IsValidDob(s)
  {
    ParseDobOfFields(d, m, y);
  }

  /** A two-digit year does not pass. */
  lemma DobShortYearRejected()
    ensures !IsValidDob("1.2.90")
  {
    assert DotAfter("1.2.90") == 1 && DotAfter("2.90") == 1;
  }

  // ---------------------------------------------------------------------------
  // Gender codes
  // ---------------------------------------------------------------------------

  /** The API's gender codes. */
  const GENDER_CODES := {"MALE", "FEMALE", "OTHER", "NON_BINARY", "NO_SHARE", "UNKNOWN"}

  /** `GENDER_MAP`: the form's values and the codes themselves. */
  const GENDER_MAP: map<string, string> := map[
    "male" := "MALE", "female" := "FEMALE", "diverse" := "OTHER", "non-binary" := "NON_BINARY",
    "other" := "OTHER", "no-share" := "NO_SHARE", "unknown" := "UNKNOWN",
    "MALE" := "MALE", "FEMALE" := "FEMALE", "NON_BINARY" := "NON_BINARY", "OTHER" := "OTHER",
    "NO_SHARE" := "NO_SHARE", "UNKNOWN" := "UNKNOWN"]

  /** The code `register` sends: the value as given, else its lower-case
      form, else "UNKNOWN". */
  function GenderCode(raw: string): string
  {
    if raw in GENDER_MAP then GENDER_MAP[raw]
    else if ToLower(raw) in GENDER_MAP then GENDER_MAP[ToLower(raw)]
    else "UNKNOWN"
  }

  /** Every value maps to one of the six codes, and a code maps to
      itself. */
  lemma GenderCodeIsCode(raw: string)
    ensures GenderCode(raw) in GENDER_CODES
    ensures GenderCode(GenderCode(raw)) == GenderCode(raw)
  {
  }

  /** The lower-case keys of the map are their own lower-case forms. */
  lemma GenderLowerKeysFixed()
    ensures ToLower("male") == "male" && ToLower("female") == "female" && ToLower("diverse") == "diverse"
    ensures ToLower("non-binary") == "non-binary" && ToLower("other") == "other" && ToLower("no-share") == "no-share"
    ensures ToLower("unknown") == "unknown"
  {
    ToLowerAsciiFixed("male");
    ToLowerAsciiFixed("female");
    ToLowerAsciiFixed("diverse");
    ToLowerAsciiFixed("non-binary");
    ToLowerAsciiFixed("other");
    ToLowerAsciiFixed("no-share");
    ToLowerAsciiFixed("unknown");
  }

  /** The lower-case forms of the upper-case keys. */
  lemma GenderUpperKeysLowered()
    ensures ToLower("MALE") == "male" && ToLower("FEMALE") == "female" && ToLower("OTHER") == "other"
    ensures ToLower("UNKNOWN") == "unknown" && ToLower("NON_BINARY") == "non_binary" && ToLower("NO_SHARE") == "no_share"
  {
  }

  /** Any case of a form value gets that value's code: the upper-case keys
      map to what their lower-case forms map to. */
  lemma GenderCodeIgnoresCase(raw: string)
    requires ToLower(raw) in GENDER_MAP
    ensures GenderCode(raw) == GENDER_MAP[ToLower(raw)]
  {
    GenderLowerKeysFixed();
    GenderUpperKeysLowered();
  }

  lemma GenderExamples()
    ensures GenderCode("Diverse") == "OTHER"
    ensures GenderCode("non-binary") == "NON_BINARY"
    ensures GenderCode("") == "UNKNOWN"
  {
    assert ToLower("Diverse") == "diverse";
    assert ToLower("") == "";
  }

  // ---------------------------------------------------------------------------
  // Initials
  // ---------------------------------------------------------------------------

  /** The position of the first whitespace character, `|t|` without one. */
  function FirstSpace(t: string): (i: nat)
    ensures i <= |t| && NoWhitespace(t[..i])
    ensures i < |t| ==> IsJsWhitespace(t[i])
  {
    if t == [] || IsJsWhitespace(t[0]) then 0 else 1 + FirstSpace(t[1..])
  }

  /** `t.split(/\s+/)`: the pieces between runs of whitespace. */
  function SplitWhitespace(t: string): (parts: seq<string>)
    ensures |parts| >= 1
    ensures forall k :: 0 <= k < |parts| ==> NoWhitespace(parts[k])
    ensures parts[0] == t[..FirstSpace(t)]
    decreases |t|
  {
    var i := FirstSpace(t);
    if i == |t| then [t]
    else
      var after := TrimStart(t[i..]);
      assert |after| < |t[i..]|;
      [t[..i]] + SplitWhitespace(after)
  }

  /** The first character of a text, as a text. */
  function Head(s: string): string
  {
    if s == [] then [] else [s[0]]
  }

  /** The initials of the navigation badge. */
  function Initials(name: string): string
  {
    var parts := SplitWhitespace(Trim(name));
    ToUpper(Head(parts[0]) + (if |parts| > 1 then Head(parts[1]) else []))
  }

  /** A blank name has no initials; otherwise the first is the upper-case
      first visible character; a name with a second word adds that word's
      first character; there are never more than two. */
  lemma InitialsShape(name: string)
    ensures var t := Trim(name); Initials(name) == [] <==> t == []
    ensures |Initials(name)| <= 2
    ensures var t := Trim(name); t != [] ==> Initials(name)[0] == UpperChar(t[0])
    ensures var t := Trim(name); FirstSpace(t) == |t| ==> |Initials(name)| == |Head(t)|
  {
    var t := Trim(name);
    if t != [] {
      assert FirstSpace(t) > 0;
    }
    if FirstSpace(t) == |t| {
      InitialsOneWord(name);
    }
  }

  /** A one-word name has one initial, or none when it is blank. */
  lemma InitialsOneWord(name: string)
    requires FirstSpace(Trim(name)) == |Trim(name)|
    ensures |Initials(name)| == |Head(Trim(name))|
  {
    assert SplitWhitespace(Trim(name)) == [Trim(name)];
  }

  /** A trimmed name with whitespace in it has two initials: the second is
      that of the first word after the first run of whitespace. */
  lemma InitialsSecondWord(name: string)
    requires FirstSpace(Trim(name)) < |Trim(name)|
    ensures var t := Trim(name);
      |Initials(name)| == 2 && Initials(name)[1] == UpperChar(TrimStart(t[FirstSpace(t)..])[0])
  {
    var t := Trim(name);
    var parts := SplitWhitespace(t);
    SecondPiece(t);
    InitialsOfTwo(name);
    TwoHeads(parts[0], parts[1]);
  }

  /** With two or more words the initials come from the first two. */
  lemma InitialsOfTwo(name: string)
    requires |SplitWhitespace(Trim(name))| > 1
    ensures var parts := SplitWhitespace(Trim(name));
      Initials(name) == ToUpper(Head(parts[0]) + Head(parts[1]))
  {
  }

  /** Two non-empty words give two initials, the second from the second
      word. */
  lemma TwoHeads(a: string, b: string)
    requires a != [] && b != []
    ensures var u := ToUpper(Head(a) + Head(b)); |u| == 2 && u[1] == UpperChar(b[0])
  {
    assert (Head(a) + Head(b))[1] == b[0];
  }

  /** The pieces of a text that starts and ends with visible characters
      and has whitespace inside: the first starts with the text's first
      character, the second with the first character after that run. */
  lemma SecondPiece(t: string)
    requires t != [] && !IsJsWhitespace(t[0]) && !IsJsWhitespace(t[|t| - 1])
    requires FirstSpace(t) < |t|
    ensures var parts := SplitWhitespace(t);
      |parts| >= 2 && parts[0] != [] && parts[0][0] == t[0]
      && TrimStart(t[FirstSpace(t)..]) != [] && parts[1] != [] && parts[1][0] == TrimStart(t[FirstSpace(t)..])[0]
  {
    var i := FirstSpace(t);
    var after := TrimStart(t[i..]);
    assert i > 0;
    assert t[i..][|t[i..]| - 1] == t[|t| - 1];
    assert after != [];
    var rest := SplitWhitespace(after);
    assert SplitWhitespace(t) == [t[..i]] + rest;
    assert rest[0] == after[..FirstSpace(after)];
    assert FirstSpace(after) > 0;
    assert rest[0][0] == after[0];
  }

  // ---------------------------------------------------------------------------
  // showStep
  // ---------------------------------------------------------------------------

  /** The `display` of each registration step after `showStep(i)`: only
      step `i` is shown. */
  function StepDisplay(n: nat, i: int): (shown: seq<bool>)
    ensures |shown| == n
    ensures forall k :: 0 <= k < n ==> (shown[k] <==> k == i)
  {
    seq(n, k => k == i)
  }

  /** At most one step is shown, and one is exactly when the index is a
      step's. */
  lemma StepDisplayOneShown(n: nat, i: int)
    ensures forall j, k :: 0 <= j < n && 0 <= k < n && StepDisplay(n, i)[j] && StepDisplay(n, i)[k] ==> j == k
    ensures (exists k :: 0 <= k < n && StepDisplay(n, i)[k]) <==> 0 <= i < n
  {
    if 0 <= i < n {
      assert StepDisplay(n, i)[i];
    }
  }

  /** The registration modal's steps and the current one. */
  class RegisterSteps {
    var currentStep: int
    var shown: seq<bool>

    constructor(n: nat)
      ensures currentStep == 0 && shown == StepDisplay(n, 0)
    {
      currentStep := 0;
      shown := seq(n, k => k == 0);
    }

    /** `showStep(stepIndex)` */
    method ShowStep(stepIndex: int)
      modifies this
      ensures shown == StepDisplay(|old(shown)|, stepIndex)
      ensures currentStep == stepIndex
    {
      var steps := shown;
      for i := 0 to |steps|
        invariant |shown| == |steps|
        invariant forall k :: 0 <= k < i ==> (shown[k] <==> k == stepIndex)
      {
        shown := shown[i := i == stepIndex];
      }
      currentStep := stepIndex;
    }
  }
}

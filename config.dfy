/**
 * Environment detection and script paths (src/core/config.js).
 *
 * The storage flag and the page path come in as parameters: `None` stands
 * for an environment without `localStorage` or without `window`.
 */
module Config {
  import opened Strings

  /** The two site languages. */
  datatype Lang = De | En

  /** The code a language is stored under in the message tables. */
  function LangCode(lang: Lang): (code: string)
    ensures code == "de" || code == "en"
    ensures code == "en" <==> lang == En
  {
    match lang
    case De => "de"
    case En => "en"
  }

  const STAGING_KEY := "isStagingForMe"
  const REPOSITORY := "https://cdn.jsdelivr.net/gh/tomasmrazek92/bluesphere@"
  const VERSION := "1.7"
  const LOCAL_SERVER := "https://localhost:3000/"

  /** `isStaging`: the stored flag is exactly the text "true". */
  function IsStaging(storage: Option<map<string, string>>): (r: bool)
    ensures r ==> storage.Some? && STAGING_KEY in storage.value
    ensures storage.Some? && STAGING_KEY in storage.value ==> (r <==> storage.value[STAGING_KEY] == "true")
  {
    match storage
    case None => false
    case Some(items) => STAGING_KEY in items && items[STAGING_KEY] == "true"
  }

  /** `isProduction` */
  function IsProduction(storage: Option<map<string, string>>): (r: bool)
    ensures r != IsStaging(storage)
  {
    !IsStaging(storage)
  }

  /** `isEnglishSite`: the path contains "/en" anywhere, so "/entdecken"
      counts as English too. */
  function IsEnglishSite(path: Option<string>): (r: bool)
    ensures r <==> path.Some? && Contains(path.value, "/en")
  {
    path.Some? && Contains(path.value, "/en")
  }

  /** `getLanguage` */
  function GetLanguage(path: Option<string>): (lang: Lang)
    ensures lang == En <==> IsEnglishSite(path)
    ensures lang == De <==> !IsEnglishSite(path)
  {
    if IsEnglishSite(path) then En else De
  }

  /** The CDN base path of the published build. */
  const CDN_PATH := REPOSITORY + VERSION + "/dist/"

  /** `getBasePath` */
  function GetBasePath(storage: Option<map<string, string>>): (base: string)
    ensures IsStaging(storage) ==> base == LOCAL_SERVER
    ensures !IsStaging(storage) ==> base == "https://cdn.jsdelivr.net/gh/tomasmrazek92/bluesphere@1.7/dist/"
  {
    if IsStaging(storage) then LOCAL_SERVER else CDN_PATH
  }

  /** The address `loadPageScript` requests: the base path followed by the
      script name. */
  function PageScriptUrl(storage: Option<map<string, string>>, pageScriptName: string): (url: string)
    ensures IsPrefix(GetBasePath(storage), url)
    ensures url[|GetBasePath(storage)|..] == pageScriptName
  {
    GetBasePath(storage) + pageScriptName
  }

  /** A path that merely starts with "/en", such as "/entdecken", selects the
      English site. */
  lemma EntdeckenIsEnglish()
    ensures GetLanguage(Some("/entdecken")) == En
    ensures GetLanguage(Some("/produkte")) == De
    ensures GetLanguage(None) == De
  {
    assert IsPrefix("/en", "/entdecken");
    assert !Contains("/produkte", "/en") by {
      var s := "/produkte";
      assert s[..3][1] != "/en"[1];
      assert s[1..] == "produkte";
      NoContains("produkte", "/en");
    }
  }
}

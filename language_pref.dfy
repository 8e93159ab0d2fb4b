/**
 * The interface-language preference (frontend/src/services/languagePref.js):
 * one localStorage entry per signed-in e-mail, or a guest entry, holding the
 * plain text `en` or `tr`. The signed-in e-mail (`getAuthEmail()`) is a
 * parameter. The browser is assumed present, so the `typeof window` guards,
 * which answer `tr` and skip the write on a server, are not modelled.
 */
module LanguagePref {
  import opened Common
  import opened Text
  import opened JsValues
  import opened Security
  import opened WebStorage

  const Prefix := "mertflix:lang:"
  const GuestKey := Prefix + "guest"

  /** `storageKeyForCurrentUser()`: the e-mail goes through the same trim-and-lower-case
      normalisation as the backend's `normalizeEmail`. */
  function StorageKey(authEmail: Option<string>): string
  {
    var email := NormalizeEmail(authEmail);
    if email != "" then Prefix + email else GuestKey
  }

  /** Every key carries the prefix; a signed-out visitor gets the guest key, and two
      signed-in users share a key exactly when their e-mails normalise alike. */
  lemma StorageKeyRules(e1: Option<string>, e2: Option<string>)
    ensures StartsWith(StorageKey(e1), Prefix)
    ensures NormalizeEmail(e1) == "" ==> StorageKey(e1) == GuestKey
    ensures NormalizeEmail(e1) != "" && NormalizeEmail(e2) != "" ==>
              (StorageKey(e1) == StorageKey(e2) <==> NormalizeEmail(e1) == NormalizeEmail(e2))
  {
    var k1 := StorageKey(e1);
    var k2 := StorageKey(e2);
    assert k1[..|Prefix|] == Prefix;
    if NormalizeEmail(e1) != "" && NormalizeEmail(e2) != "" && k1 == k2 {
      assert NormalizeEmail(e1) == k1[|Prefix|..];
      assert NormalizeEmail(e2) == k2[|Prefix|..];
    }
  }

  /** `getPreferredLanguage()`: `en` only when the entry is exactly the text `en`. */
  function PreferredLanguage(items: map<string, Stored>, authEmail: Option<string>): string
  {
    var key := StorageKey(authEmail);
    if key in items && items[key] == OtherText("en") then "en" else "tr"
  }

  lemma PreferredLanguageRules(items: map<string, Stored>, authEmail: Option<string>)
    ensures var r := PreferredLanguage(items, authEmail);
      && (r == "en" || r == "tr")
      && (r == "en" <==> StorageKey(authEmail) in items && items[StorageKey(authEmail)] == OtherText("en"))
  {
    assert "en" != "tr" by { assert "en"[0] != "tr"[0]; }
  }

  /** The value `setPreferredLanguage(lang)` stores: `lang === 'en' ? 'en' : 'tr'`. */
  function Normalized(lang: Option<Json>): string
  {
    if lang == Some(Str("en")) then "en" else "tr"
  }

  /** `setPreferredLanguage(lang)`: store the normalised value under the current key and
      announce it. */
  function SetPreferred(b: Browser, authEmail: Option<string>, lang: Option<Json>): Browser
  {
    var next := Normalized(lang);
    Browser(b.items[StorageKey(authEmail) := OtherText(next)], b.events + [LanguageChanged(next)])
  }

  /** What is set is read back: `en` exactly when `en` was asked for, and `tr` for anything
      else; the event carries the stored value; no other entry changes. */
  lemma SetThenGet(b: Browser, authEmail: Option<string>, lang: Option<Json>)
    ensures var after := SetPreferred(b, authEmail, lang);
      && (PreferredLanguage(after.items, authEmail) == "en" <==> lang == Some(Str("en")))
      && PreferredLanguage(after.items, authEmail) == Normalized(lang)
      && after.events == b.events + [LanguageChanged(PreferredLanguage(after.items, authEmail))]
      && TmdbLanguage(after.items, authEmail) == (if lang == Some(Str("en")) then "en-US" else "tr-TR")
      && (forall k :: k != StorageKey(authEmail) ==> (k in after.items <==> k in b.items))
      && (forall k :: k != StorageKey(authEmail) && k in b.items ==> after.items[k] == b.items[k])
  {
    assert "tr" != "en" by { assert "tr"[0] != "en"[0]; }
  }

  /** One user's choice does not change what another user reads. */
  lemma SetLeavesOthers(b: Browser, authEmail: Option<string>, other: Option<string>, lang: Option<Json>)
    requires StorageKey(other) != StorageKey(authEmail)
    ensures PreferredLanguage(SetPreferred(b, authEmail, lang).items, other) == PreferredLanguage(b.items, other)
  {
  }

  /** `getTmdbLanguage()`. */
  function TmdbLanguage(items: map<string, Stored>, authEmail: Option<string>): (r: string)
    ensures r == "en-US" <==> PreferredLanguage(items, authEmail) == "en"
    ensures r == "tr-TR" <==> PreferredLanguage(items, authEmail) != "en"
  {
    if PreferredLanguage(items, authEmail) == "en" then "en-US" else "tr-TR"
  }

  method SetPreferredLanguage(ls: LocalStorage, authEmail: Option<string>, lang: Option<Json>)
    modifies ls
    ensures ls.State() == SetPreferred(old(ls.State()), authEmail, lang)
  {
    var next := if lang == Some(Str("en")) then "en" else "tr";
    var key := StorageKey(authEmail);
    ls.items := ls.items[key := OtherText(next)];
    ls.events := ls.events + [LanguageChanged(next)];
  }
}

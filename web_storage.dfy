/**
 * The browser's `localStorage` and window events, as the storage-backed
 * services of the frontend use them. A stored string is either the text
 * `JSON.stringify` wrote for a value, which `JSON.parse` reads back as that
 * value, or a text `JSON.parse` rejects (the language codes `en` and `tr`
 * are such texts, and so is the empty string).
 */
module WebStorage {
  import opened Common
  import opened JsValues

  datatype Stored = JsonText(value: Json) | OtherText(text: string)

  /** The custom events dispatched on `window`, with their `detail`. */
  datatype Event = FavoritesChanged(count: nat) | LanguageChanged(lang: string)

  /** `try { JSON.parse(localStorage.getItem(key) || '[]') } catch { [] }`: a missing
      entry, an empty one and an unparsable one all read as the empty array. */
  function ReadJson(items: map<string, Stored>, key: string): (r: Json)
    ensures key !in items || items[key].OtherText? ==> r == Arr([])
  {
    if key in items && items[key].JsonText? then items[key].value else Arr([])
  }

  /** The stored entries and the events dispatched so far. */
  datatype Browser = Browser(items: map<string, Stored>, events: seq<Event>)

  class LocalStorage {
    var items: map<string, Stored>
    var events: seq<Event>

    function State(): Browser
      reads this
    {
      Browser(items, events)
    }

    constructor(items: map<string, Stored>)
      ensures this.items == items && events == []
    {
      this.items := items;
      events := [];
    }
  }
}

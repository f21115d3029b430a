/** Message catalogues by language: a text is looked up by key in the
    catalogue of the language asked for, the user's language or the default
    one, each catalogue read from its file once and then kept. */
module Translation {
  import opened Wrappers

  /** A `messages_{lang}.json` file: keys to texts. */
  type Catalog = map<string, string>

  /** Why a lookup failed: the language's file does not exist. */
  datatype LoadError = MissingCatalog(lang: string)

  /** The language used: the explicit one, else the user's `lang` setting,
      else the translator's default. */
  function ChosenLang(lang: Option<string>, userSettings: Option<map<string, string>>, default: string): (l: string)
    ensures lang.Some? ==> l == lang.value
    ensures lang.None? && userSettings.Some? && "lang" in userSettings.value ==> l == userSettings.value["lang"]
    ensures lang.None? && (userSettings.None? || "lang" !in userSettings.value) ==> l == default
  {
    if lang.Some? then lang.value
    else
      var settings := if userSettings.Some? then userSettings.value else map[];
      if "lang" in settings then settings["lang"] else default
  }

  /** `catalog.get(key, key)`: a missing key stands for itself. */
  function Lookup(catalog: Catalog, key: string): (r: string)
    ensures key in catalog ==> r == catalog[key]
    ensures key !in catalog ==> r == key
  {
    if key in catalog then catalog[key] else key
  }

  /** What a lookup gives when the catalogues are read from `files`, the
      catalogue files present on disk by language. */
  function Translate(files: map<string, Catalog>, lang: string, key: string): Result<string, LoadError> {
    if lang in files then Ok(Lookup(files[lang], key)) else Err(MissingCatalog(lang))
  }

  /** `Translator`. */
  class Translator {
    const default: string
    var cache: map<string, Catalog>

    constructor (default: string)
      ensures this.default == default && cache == map[]
    {
      this.default := default;
      cache := map[];
    }

    /** Every catalogue kept is the one on disk. */
    ghost predicate Agrees(files: map<string, Catalog>)
      reads this
    {
      forall l :: l in cache ==> l in files && cache[l] == files[l]
    }

    /** `_load(lang)`: the language's file read into the cache; a missing
        file fails and leaves the cache as it was. */
    method Load(lang: string, files: map<string, Catalog>) returns (r: Result<(), LoadError>)
      modifies this
      ensures lang in files ==> r.Ok? && cache == old(cache)[lang := files[lang]]
      ensures lang !in files ==> r == Err(MissingCatalog(lang)) && cache == old(cache)
    {
      if lang !in files {
        return Err(MissingCatalog(lang));
      }
      cache := cache[lang := files[lang]];
      return Ok(());
    }

    /** `gettext(key, user_settings, lang=…)`: the language is chosen, its
        catalogue loaded when not yet kept, and the key looked up. */
    method Gettext(key: string, userSettings: Option<map<string, string>>, lang: Option<string>,
                   files: map<string, Catalog>) returns (r: Result<string, LoadError>)
      modifies this
      ensures var l := ChosenLang(lang, userSettings, default);
        if l in old(cache) then r == Ok(Lookup(old(cache)[l], key)) && cache == old(cache)
        else if l in files then r == Ok(Lookup(files[l], key)) && cache == old(cache)[l := files[l]]
        else r == Err(MissingCatalog(l)) && cache == old(cache)
      ensures old(Agrees(files)) ==> Agrees(files) && r == Translate(files, ChosenLang(lang, userSettings, default), key)
    {
      var l: string;
      if lang.None? {
        var settings := if userSettings.Some? then userSettings.value else map[];
        l := if "lang" in settings then settings["lang"] else default;
      } else {
        l := lang.value;
      }
      if l !in cache {
        var loaded := Load(l, files);
        if loaded.Err? {
          return Err(loaded.error);
        }
      }
      return Ok(Lookup(cache[l], key));
    }
  }

  /** A language once loaded is served from the cache: a second lookup in
      it does not read the files again, so a catalogue changed on disk in
      between is not seen. */
  method GettextTwice(t: Translator, key1: string, key2: string, lang: string,
                      files1: map<string, Catalog>, files2: map<string, Catalog>)
    returns (r1: Result<string, LoadError>, r2: Result<string, LoadError>)
    requires lang !in t.cache
    modifies t
    ensures lang in files1 ==> r1 == Ok(Lookup(files1[lang], key1)) && r2 == Ok(Lookup(files1[lang], key2))
    ensures lang !in files1 ==> r1.Err?
  {
    r1 := t.Gettext(key1, None, Some(lang), files1);
    r2 := t.Gettext(key2, None, Some(lang), files2);
  }

  /** `get_text(key, user_settings, lang=…)`: `gettext` of the module's
      translator, whose default language is English. */
  method GetText(t: Translator, key: string, userSettings: Option<map<string, string>>, lang: Option<string>,
                 files: map<string, Catalog>) returns (r: Result<string, LoadError>)
    requires t.default == "en"
    modifies t
    ensures old(t.Agrees(files)) ==>
              (t.Agrees(files) && r == Translate(files, ChosenLang(lang, userSettings, "en"), key))
  {
    r := t.Gettext(key, userSettings, lang, files);
  }

  /** Without an explicit language or a setting, English is used; a key the
      catalogue lacks comes back unchanged. */
  lemma EnglishByDefault(files: map<string, Catalog>, key: string)
    requires "en" in files && key !in files["en"]
    ensures Translate(files, ChosenLang(None, None, "en"), key) == Ok(key)
    ensures Translate(files, ChosenLang(None, Some(map["theme" := "dark"]), "en"), key) == Ok(key)
  {
  }

  /** The explicit language wins over the user's setting. */
  lemma ExplicitLangWins(lang: string, settings: map<string, string>, default: string)
    requires "lang" in settings
    ensures ChosenLang(Some(lang), Some(settings), default) == lang
    ensures ChosenLang(None, Some(settings), default) == settings["lang"]
  {
  }
}

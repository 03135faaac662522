/**
 * Locale resolution of src/localization/localization.ts: the saved
 * preference, `setAppLocale`'s decisions, and the locale loader handed to
 * the localization runtime with its hard-coded Latvian fallback.
 *
 * The runtime's `getLocale`/`setLocale` become the `current` field of
 * `AppLocale` and an input outcome; storage and the browser language are
 * parameters. The browser-language rule is the same as the manager's,
 * `I18n.DetectBrowserLanguage`.
 */
module Localization {
  import opened Wrappers
  import opened I18n

  /** `loadSavedLocale`: a saved "en", "lv" or "auto"; anything else, or a throwing storage, is "auto". */
  function LoadSavedLocale(read: StorageRead): (r: SupportedLanguage)
    ensures read.ReadThrows? ==> r == Auto
    ensures read.Item? && read.item.Some? && ParseLanguage(read.item.value).Some? ==> Code(r) == read.item.value
    ensures read.Item? && (read.item.None? || ParseLanguage(read.item.value).None?) ==> r == Auto
  {
    match read
    case ReadThrows => Auto
    case Item(None) => Auto
    case Item(Some(saved)) =>
      match ParseLanguage(saved)
      case Some(l) => l
      case None => Auto
  }

  /** A preference written by `setAppLocale` is read back unchanged. */
  lemma SavedLocaleRoundTrip(l: SupportedLanguage)
    ensures LoadSavedLocale(Item(Some(Code(l)))) == l
  {
    ParseCode(l);
  }

  // ----- The loader and its fallback ----------------------------------------

  /** The Latvian templates of the fallback, keyed by message id. */
  const LvTemplates: map<string, string> := map[
    "app.title" := "eDoc Skatītājs",
    "app.description" := "Aplūko un pārbaudi ES standarta ASiC-E un Latvijas eDoc failus",
    "language.label" := "Valoda:",
    "language.auto" := "Automātiski (Pārlūks)",
    "language.en" := "Angļu",
    "language.lv" := "Latviešu",
    "dropzone.title" := "Ievelc eDoc failu šeit",
    "dropzone.description" := "vai noklikšķini, lai pārlūkotu failus",
    "dropzone.selectFile" := "Izvēlēties Failu",
    "dropzone.suggestedFileLabel" := "Ieteiktais fails:",
    "buttons.back" := "Atpakaļ",
    "buttons.downloadOriginal" := "Lejupielādēt Oriģinālu",
    "buttons.installApp" := "Instalēt Lietotni",
    "loading" := "Ielāde...",
    "error.title" := "Kļūda",
    "error.fileNotFound" := "Fails nav atrasts",
    "error.invalidFile" := "Nederīgs faila formāts",
    "error.processingError" := "Kļūda apstrādājot failu",
    "error.downloadError" := "Kļūda lejupielādējot failu",
    "signatures.title" := "Paraksti",
    "signatures.valid" := "Derīgs",
    "signatures.invalid" := "NEDERĪGS",
    "signatures.signedBy" := "Parakstījis:",
    "signatures.signatureStatus" := "Paraksta Statuss:",
    "signatures.referencedFiles" := "Parakstā iekļautie faili",
    "signatures.unsignedFiles" := "Neparakstītie faili",
    "signatures.noSignatures" := "Nav atrasti paraksti",
    "documents.title" := "Dokumentu Faili",
    "documents.noDocuments" := "Nav atrasti dokumentu faili",
    "metadata.title" := "Metadatu Faili (Paplašināti)",
    "metadata.noMetadata" := "Nav atrasti metadatu faili",
    "file.view" := "Skatīt",
    "file.download" := "Lejupielādēt",
    "offline.message" := "Jūs pašlaik esat bezsaistē. Dažas funkcijas var būt ierobežotas."]

  /** What a locale loader resolves to: a generated locale module, or a templates object. */
  datatype LocaleModule = GeneratedModule(locale: string) | Templates(templates: map<string, string>)

  /** `safeFallbackLoadLocale`: the Latvian templates for "lv", `undefined` for anything else. */
  function SafeFallbackLoadLocale(locale: string): (r: Option<LocaleModule>)
    ensures r.Some? <==> locale == "lv"
    ensures r.Some? ==> r.value == Templates(LvTemplates)
  {
    if locale == "lv" then Some(Templates(LvTemplates)) else None
  }

  /**
   * The `loadLocale` option as written: `return import(...)` inside `try`
   * in an async function without `await`. A rejected import is not caught
   * there; it settles the returned promise, so the outcome is the
   * import's own.
   */
  function LoadLocaleAsWritten(locale: string, imported: Outcome<LocaleModule>): Outcome<Option<LocaleModule>> {
    match imported
    case Returned(m) => Returned(Some(m))
    case Threw(message) => Threw(message)
  }

  /** As written, a failing import still fails the load: the fallback is never reached. */
  lemma FallbackUnreachableAsWritten(locale: string, message: string)
    ensures LoadLocaleAsWritten(locale, Threw(message)) == Threw(message)
    ensures LoadLocaleAsWritten("lv", Threw(message)) != Returned(SafeFallbackLoadLocale("lv"))
  {
  }

  /**
   * The loader as its `catch` intends it (`return await import(...)`):
   * a failing import falls back to the hard-coded templates.
   */
  function LoadLocale(locale: string, imported: Outcome<LocaleModule>): Outcome<Option<LocaleModule>> {
    match imported
    case Returned(m) => Returned(Some(m))
    case Threw(_) => Returned(SafeFallbackLoadLocale(locale))
  }

  /**
   * The intended loader never fails; a successful import is used as is,
   * and after a failed one Latvian still gets its templates.
   */
  lemma LoadLocaleNeverFails(locale: string, imported: Outcome<LocaleModule>)
    ensures LoadLocale(locale, imported).Returned?
    ensures imported.Returned? ==> LoadLocale(locale, imported) == LoadLocaleAsWritten(locale, imported)
    ensures imported.Threw? && locale == "lv" ==> LoadLocale(locale, imported) == Returned(Some(Templates(LvTemplates)))
    ensures imported.Threw? && locale != "lv" ==> LoadLocale(locale, imported) == Returned(None)
  {
  }

  // ----- setAppLocale --------------------------------------------------------

  /** The `localeChanged` event's detail. */
  datatype LocaleChanged = LocaleChanged(locale: EffectiveLanguage, preference: SupportedLanguage)

  /**
   * The locale state `setAppLocale` works on: the runtime's active locale
   * (`getLocale()`), the preference stored under `I18n.StorageKey`, and
   * the events dispatched on the window so far.
   */
  class AppLocale {
    var current: string
    var stored: Option<string>
    var events: seq<LocaleChanged>

    /** The runtime starts in its source locale, English. */
    constructor (stored: Option<string>)
      ensures current == "en" && this.stored == stored && events == []
    {
      current := "en";
      this.stored := stored;
      events := [];
    }

    /**
     * `setAppLocale`: resolve "auto" through the browser language, try to
     * store the requested preference (a throwing storage is ignored), ask
     * the runtime to switch only when the effective locale differs from
     * its active one, and then dispatch `localeChanged`. When the switch
     * fails, the failure propagates and no event is dispatched.
     */
    method SetAppLocale(locale: SupportedLanguage, browserLanguage: string, storageWritable: bool,
                        switchOutcome: Outcome<()>)
      returns (switched: bool, r: Outcome<()>)
      modifies this
      ensures var effective := Resolve(locale, browserLanguage);
        && (switched <==> Code(effective) != old(current))
        && (storageWritable ==> stored == Some(Code(locale)))
        && (!storageWritable ==> stored == old(stored))
        && (switched && switchOutcome.Threw? ==>
              r == Threw(switchOutcome.message) && current == old(current) && events == old(events))
        && (!(switched && switchOutcome.Threw?) ==>
              r == Returned(()) && current == Code(effective)
              && events == old(events) + [LocaleChanged(effective, locale)])
    {
      var effective: EffectiveLanguage;
      if locale == Auto {
        effective := DetectBrowserLanguage(browserLanguage);
      } else {
        effective := locale;
      }
      if storageWritable {
        stored := Some(Code(locale));
      }
      switched := Code(effective) != current;
      if switched {
        if switchOutcome.Threw? {
          r := Threw(switchOutcome.message);
          return;
        }
        current := Code(effective);
      }
      events := events + [LocaleChanged(effective, locale)];
      r := Returned(());
    }
  }
}

/**
 * The `LocaleIntegrationHelper` of src/utils/locale-integration.ts: one
 * shared instance, a one-time initialisation, a set of registered
 * language selectors, and locale changes that go through `setAppLocale`
 * and are then pushed to every selector.
 */
module LocaleIntegration {
  import opened Wrappers
  import opened I18n
  import opened Localization

  /** A registered selector element; only some have a `locale` property. */
  class Selector {
    const hasLocaleProperty: bool
    var locale: SupportedLanguage

    constructor (hasLocaleProperty: bool, locale: SupportedLanguage)
      ensures this.hasLocaleProperty == hasLocaleProperty && this.locale == locale
    {
      this.hasLocaleProperty := hasLocaleProperty;
      this.locale := locale;
    }
  }

  class LocaleIntegrationHelper {
    var initialized: bool
    var selectors: set<Selector>

    constructor ()
      ensures !initialized && selectors == {}
    {
      initialized := false;
      selectors := {};
    }

    /**
     * `initialize`: the first call installs the document listeners and the
     * debugging hooks and marks the helper initialised; later calls do
     * nothing.
     */
    method Initialize() returns (installed: bool)
      modifies this
      ensures installed == !old(initialized)
      ensures initialized
      ensures selectors == old(selectors)
    {
      if initialized {
        return false;
      }
      installed := true;
      initialized := true;
    }

    /** `registerSelector`: `Set.add`. */
    method RegisterSelector(selector: Selector)
      modifies this
      ensures selectors == old(selectors) + {selector}
      ensures initialized == old(initialized)
    {
      selectors := selectors + {selector};
    }

    /** `unregisterSelector`: `Set.delete`; deleting an absent selector changes nothing. */
    method UnregisterSelector(selector: Selector)
      modifies this
      ensures selectors == old(selectors) - {selector}
      ensures initialized == old(initialized)
    {
      selectors := selectors - {selector};
    }

    /** `updateSelectors`: every selector with a `locale` property gets the locale; the others are left alone. */
    method UpdateSelectors(locale: SupportedLanguage)
      modifies selectors
      ensures forall s :: s in selectors && s.hasLocaleProperty ==> s.locale == locale
      ensures forall s :: s in selectors && !s.hasLocaleProperty ==> s.locale == old(s.locale)
    {
      var remaining := selectors;
      while remaining != {}
        invariant remaining <= selectors
        invariant forall s :: s in selectors && s !in remaining && s.hasLocaleProperty ==> s.locale == locale
        invariant forall s :: s in selectors && (s in remaining || !s.hasLocaleProperty) ==> s.locale == old(s.locale)
        decreases |remaining|
      {
        var s :| s in remaining;
        if s.hasLocaleProperty {
          s.locale := locale;
        }
        remaining := remaining - {s};
      }
    }

    /**
     * `handleLocaleChange`: apply the locale with `setAppLocale`; when that
     * succeeds push the requested preference (not the resolved locale) to
     * the selectors, and when it fails swallow the error and leave every
     * selector as it was. The preference is stored before the switch, so
     * it is kept even when the switch fails.
     */
    method HandleLocaleChange(locale: SupportedLanguage, app: AppLocale, browserLanguage: string,
                              storageWritable: bool, switchOutcome: Outcome<()>)
      modifies app, selectors
      ensures var failed := Code(Resolve(locale, browserLanguage)) != old(app.current) && switchOutcome.Threw?;
        && (!failed ==> forall s :: s in selectors && s.hasLocaleProperty ==> s.locale == locale)
        && (!failed ==> app.events == old(app.events) + [LocaleChanged(Resolve(locale, browserLanguage), locale)])
        && (failed ==> forall s :: s in selectors ==> s.locale == old(s.locale))
        && (failed ==> app.events == old(app.events))
        && (failed ==> app.current == old(app.current))
        && (!failed ==> app.current == Code(Resolve(locale, browserLanguage)))
      ensures storageWritable ==> app.stored == Some(Code(locale))
      ensures !storageWritable ==> app.stored == old(app.stored)
      ensures forall s :: s in selectors && !s.hasLocaleProperty ==> s.locale == old(s.locale)
    {
      var switched, r := app.SetAppLocale(locale, browserLanguage, storageWritable, switchOutcome);
      if r.Returned? {
        UpdateSelectors(locale);
      }
    }
  }

  /** The static `instance` slot behind `getInstance`. */
  class HelperSlot {
    var instance: Option<LocaleIntegrationHelper>

    constructor ()
      ensures instance == None
    {
      instance := None;
    }

    /** `getInstance`: create the helper on the first call, and return that same helper on every call. */
    method GetInstance() returns (helper: LocaleIntegrationHelper)
      modifies this
      ensures instance == Some(helper)
      ensures old(instance).Some? ==> helper == old(instance).value
      ensures old(instance).None? ==> fresh(helper) && !helper.initialized && helper.selectors == {}
    {
      if instance.None? {
        var created := new LocaleIntegrationHelper();
        instance := Some(created);
      }
      helper := instance.value;
    }
  }
}

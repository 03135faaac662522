/**
 * `EdocInstallButton` (src/components/EdocInstallButton.ts): the PWA
 * install button, shown while an install prompt has been captured and the
 * app is not installed. The display modes, `navigator.standalone`, the
 * referrer and the user's answer to the prompt are inputs.
 */
module InstallButton {
  import opened Wrappers
  import opened Text

  /** A captured `beforeinstallprompt` event, told apart by an identity. */
  datatype InstallPrompt = InstallPrompt(id: nat)

  /** What `checkInstallationStatus` consults. */
  datatype Environment = Environment(
    standalone: bool,
    iosStandalone: bool,
    referrer: string,
    fullscreen: bool,
    minimalUi: bool,
    windowControlsOverlay: bool)

  /** The app counts as installed in any of six display situations. */
  predicate InstalledIn(env: Environment) {
    || env.standalone
    || env.iosStandalone
    || Contains(env.referrer, "android-app://")
    || env.fullscreen
    || env.minimalUi
    || env.windowControlsOverlay
  }

  /** In a plain browser tab with an ordinary referrer the app is not installed. */
  lemma BrowserTabNotInstalled(referrer: string)
    requires !Contains(referrer, "android-app://")
    ensures !InstalledIn(Environment(false, false, referrer, false, false, false))
  {
  }

  /** A trusted-web-activity referrer alone makes the app count as installed. */
  lemma AndroidReferrerInstalled(rest: string)
    ensures InstalledIn(Environment(false, false, "android-app://" + rest, false, false, false))
  {
    var r := "android-app://" + rest;
    assert r[0..][..14] == "android-app://";
  }

  /** `render`'s `shouldShowButton`. */
  predicate ButtonShown(isInstalled: bool, deferredPrompt: Option<InstallPrompt>) {
    !isInstalled && deferredPrompt.Some?
  }

  class InstallButton {
    var deferredPrompt: Option<InstallPrompt>
    var isInstalled: bool

    constructor ()
      ensures deferredPrompt == None && !isInstalled && !Shown()
    {
      deferredPrompt := None;
      isInstalled := false;
    }

    predicate Shown()
      reads this
    {
      ButtonShown(isInstalled, deferredPrompt)
    }

    /** `checkInstallationStatus`: recompute the installed flag; the prompt is kept. */
    method CheckInstallationStatus(env: Environment)
      modifies this
      ensures isInstalled == InstalledIn(env) && deferredPrompt == old(deferredPrompt)
    {
      isInstalled := InstalledIn(env);
    }

    /** `captureInstallPrompt`: keep the event (replacing any earlier one). */
    method CaptureInstallPrompt(e: InstallPrompt)
      modifies this
      ensures deferredPrompt == Some(e) && isInstalled == old(isInstalled)
      ensures Shown() <==> !isInstalled
    {
      deferredPrompt := Some(e);
    }

    /** `handleAppInstalled`: installed, prompt dropped; the button is hidden. */
    method HandleAppInstalled()
      modifies this
      ensures isInstalled && deferredPrompt == None && !Shown()
    {
      isInstalled := true;
      deferredPrompt := None;
    }

    /**
     * `installApp`: without a prompt nothing happens. Otherwise the prompt
     * is shown and the user's choice awaited; "accepted" marks the app
     * installed, any answer uses up the prompt, and a throw changes nothing.
     */
    method InstallApp(choice: Outcome<string>) returns (prompted: bool)
      modifies this
      ensures prompted <==> old(deferredPrompt).Some?
      ensures !prompted || choice.Threw? ==>
        deferredPrompt == old(deferredPrompt) && isInstalled == old(isInstalled)
      ensures prompted && choice.Returned? ==> deferredPrompt == None && !Shown()
      ensures prompted && choice.Returned? ==>
        isInstalled == (old(isInstalled) || choice.value == "accepted")
    {
      if deferredPrompt.None? {
        return false;
      }
      prompted := true;
      match choice
      case Threw(_) =>
      case Returned(outcome) =>
        if outcome == "accepted" {
          isInstalled := true;
        }
        deferredPrompt := None;
    }
  }
}

/**
 * `EdocOfflineNotice` (src/components/EdocOfflineNotice.ts): a warning
 * shown while the browser is offline until the user dismisses it, and
 * shown again the next time the connection drops. `navigator.onLine` is
 * the `online` parameter.
 */
module OfflineNotice {

  /** `render`'s test: the notice is shown while offline and not dismissed. */
  predicate NoticeShown(isOffline: bool, isDismissed: bool) {
    isOffline && !isDismissed
  }

  class OfflineNotice {
    var isOffline: bool
    var isDismissed: bool

    constructor ()
      ensures !isOffline && !isDismissed && !Shown()
    {
      isOffline := false;
      isDismissed := false;
    }

    predicate Shown()
      reads this
    {
      NoticeShown(isOffline, isDismissed)
    }

    /** `connectedCallback`: take the current connection state; a dismissal is kept. */
    method ConnectedCallback(online: bool)
      modifies this
      ensures isOffline == !online && isDismissed == old(isDismissed)
      ensures Shown() <==> !online && !old(isDismissed)
    {
      isOffline := !online;
    }

    /**
     * `handleNetworkChange`: take the new connection state; going offline
     * forgets an earlier dismissal, so the notice reappears.
     */
    method HandleNetworkChange(online: bool)
      modifies this
      ensures isOffline == !online
      ensures !online ==> !isDismissed
      ensures online ==> isDismissed == old(isDismissed)
      ensures Shown() <==> !online
    {
      isOffline := !online;
      if isOffline {
        isDismissed := false;
      }
    }

    /** `handleDismiss`: hide the notice until the next time the connection drops. */
    method HandleDismiss()
      modifies this
      ensures isDismissed && isOffline == old(isOffline)
      ensures !Shown()
    {
      isDismissed := true;
    }
  }
}

/**
 * The license gate wrapped around the application: which screen it shows for the hook's
 * state, the expiry banner, the deactivate button, and the flag that forces the
 * application open after an activation.
 */
module LicenseGate {
  import opened Wrappers
  import opened LicenseTypes
  import opened LicenseCommands
  import opened UseLicense

  /** What the gate renders. The application screen may carry the deactivate button and a banner. */
  datatype Screen =
    | LoadingScreen
    | ErrorScreen(message: string)
    | ActivationScreen
    | AppScreen(deactivateButton: bool, warningDays: Option<int>)

  /** `showWarning`: a near-expiration status with a day count that is present and not zero. */
  function Warning(status: Option<StatusResponse>): (w: Option<int>)
    ensures w.Some? <==> status.Some? && status.value.status == "near_expiration"
                         && status.value.daysRemaining.Some? && status.value.daysRemaining.value != 0
    ensures w.Some? ==> w == status.value.daysRemaining
  {
    if status.Some? && status.value.status == "near_expiration"
       && status.value.daysRemaining.Some? && status.value.daysRemaining.value != 0
    then status.value.daysRemaining
    else None
  }

  /**
   * The banner appears for every near-expiration answer of the back end except one with
   * zero days left, and never for another status.
   */
  lemma WarningForBackendStatus(s: LicenseStatus)
    ensures s.NearExpiration? && s.days != 0 ==> Warning(Some(StatusResponseOf(s))) == Some(s.days)
    ensures !(s.NearExpiration? && s.days != 0) ==> Warning(Some(StatusResponseOf(s))) == None
  {
    var r := StatusResponseOf(s);
    if !s.NearExpiration? {
      assert r.status != "near_expiration" by {
        assert |r.status| != 15 || r.status[0] != 'n';
      }
    }
  }

  /** The screen for the hook's values, by priority: loading, error, activation, application. */
  function SelectScreen(loading: bool, alreadyVerified: bool, error: string, isActivated: bool, canUseApp: bool,
                        status: Option<StatusResponse>, forceShowApp: bool): (s: Screen)
    ensures s.LoadingScreen? <==> loading && !alreadyVerified
    ensures s.ErrorScreen? <==> !(loading && !alreadyVerified) && error != "" && !isActivated && !forceShowApp
    ensures s.ErrorScreen? ==> s.message == error
    ensures s.ActivationScreen? <==>
              !(loading && !alreadyVerified) && !(error != "" && !isActivated && !forceShowApp)
              && !canUseApp && !forceShowApp
    ensures s.AppScreen? ==> canUseApp || forceShowApp
    ensures s.AppScreen? ==> s.deactivateButton == isActivated && s.warningDays == Warning(status)
  {
    if loading && !alreadyVerified then LoadingScreen
    else if error != "" && !isActivated && !forceShowApp then ErrorScreen(error)
    else if !canUseApp && !forceShowApp then ActivationScreen
    else AppScreen(isActivated, Warning(status))
  }

  /** The `LicenseGuard` component over one hook. */
  class Gate {
    const hook: LicenseHook
    var forceShowApp: bool

    constructor (hook: LicenseHook)
      ensures this.hook == hook && !forceShowApp
    {
      this.hook := hook;
      forceShowApp := false;
    }

    function View(): Screen
      reads this, hook
    {
      SelectScreen(hook.loading, hook.alreadyVerified, hook.error, hook.isActivated, hook.CanUseApp(),
                   hook.licenseStatus, forceShowApp)
    }

    /** `handleActivationSuccess`. */
    method HandleActivationSuccess()
      modifies this
      ensures forceShowApp
    {
      forceShowApp := true;
    }

    /**
     * `handleDeactivate`: nothing at all happens unless the user confirms; a successful
     * deactivation resets the hook, clears the forced flag and brings back the activation
     * screen; a failed one sets the hook's error and leaves everything else as it was.
     */
    method HandleDeactivate(confirmed: bool, result: Result<string, BackendError>)
      modifies this, hook, hook.rt
      ensures !confirmed ==> unchanged(this, hook, hook.rt)
      ensures confirmed ==> hook.rt.calls == old(hook.rt.calls) + [DeactivateLicense]
                            && hook.rt.moduleAlreadyVerified == old(hook.rt.moduleAlreadyVerified) && !hook.loading
      ensures confirmed && result.Ok? ==>
                && !forceShowApp && View() == ActivationScreen && hook.rt.slot == Empty && hook.error == ""
                && !hook.isActivated && hook.licenseStatus == None && hook.licenseInfo == None
                && !hook.alreadyVerified
      ensures confirmed && result.Err? ==>
                && forceShowApp == old(forceShowApp)
                && hook.error == ErrorMessage(result.error, DeactivatePrefix)
                && hook.rt.slot == old(hook.rt.slot)
                && hook.isActivated == old(hook.isActivated) && hook.licenseStatus == old(hook.licenseStatus)
                && hook.licenseInfo == old(hook.licenseInfo) && hook.alreadyVerified == old(hook.alreadyVerified)
    {
      if !confirmed {
        return;
      }
      var r := hook.Deactivate(result);
      if r.Ok? {
        forceShowApp := false;
      }
    }
  }
}

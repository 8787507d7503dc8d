/**
 * The license commands the front end invokes: the status record built from a validation
 * result, the detailed license record, and the texts returned by activation, renewal
 * and deactivation.
 */
module LicenseCommands {
  import opened Wrappers
  import opened Text
  import opened LicenseTypes
  import opened LicenseStorage
  import opened LicenseValidator

  /** The record `validate_current_license` returns. */
  datatype StatusResponse = StatusResponse(isValid: bool, status: string, message: string, daysRemaining: Option<int>)

  /** The status name sent to the front end. */
  function StatusName(s: LicenseStatus): string {
    match s
    case Valid => "valid"
    case NearExpiration(_) => "near_expiration"
    case Expired => "expired"
    case NotActivated => "not_activated"
    case OfflineExpired => "offline_expired"
  }

  /** Each variant has its own name, so the name tells the variant apart. */
  lemma StatusNameDistinct(a: LicenseStatus, b: LicenseStatus)
    ensures StatusName(a) == StatusName(b) <==> a == b || (a.NearExpiration? && b.NearExpiration?)
  {
    var na, nb := StatusName(a), StatusName(b);
    if !(a == b || (a.NearExpiration? && b.NearExpiration?)) {
      if |na| == |nb| {
        assert na[0] != nb[0];
      }
    }
  }

  function StatusMessage(s: LicenseStatus): string {
    match s
    case Valid => "Licença válida"
    case NearExpiration(d) => "Licença expira em " + IntToString(d) + " dias"
    case Expired => "Licença expirada"
    case NotActivated => "Produto não ativado"
    case OfflineExpired => "Período offline expirado" + OfflineAdvice
  }

  function StatusResponseOf(s: LicenseStatus): (r: StatusResponse)
    ensures r.isValid <==> s.Valid? || s.NearExpiration?
    ensures r.daysRemaining.Some? <==> s.NearExpiration?
    ensures s.NearExpiration? ==> r.daysRemaining == Some(s.days)
    ensures r.status == StatusName(s) && r.message == StatusMessage(s)
  {
    StatusResponse(s.Valid? || s.NearExpiration?, StatusName(s), StatusMessage(s),
                   if s.NearExpiration? then Some(s.days) else None)
  }

  /**
   * `validate_current_license` over the validator's result: a missing license is an
   * ordinary "not_activated" answer; every other error is reported as its text.
   */
  function StatusReply(v: Result<LicenseStatus, LicenseError>): (r: Result<StatusResponse, string>)
    ensures r.Err? <==> v.Err? && v.error != LicenseError.NotActivated
    ensures r.Err? ==> r.error == ErrorText(v.error)
    ensures v.Ok? ==> r == Ok(StatusResponseOf(v.value))
    ensures v == Err(LicenseError.NotActivated) ==> r == Ok(StatusResponseOf(LicenseStatus.NotActivated))
    ensures r.Ok? && r.value.isValid ==> v.Ok? && (v.value.Valid? || v.value.NearExpiration?)
  {
    match v
    case Ok(s) => Ok(StatusResponseOf(s))
    case Err(e) => if e == LicenseError.NotActivated then Ok(StatusResponseOf(LicenseStatus.NotActivated)) else Err(ErrorText(e))
  }

  /** `validate_current_license`. */
  method ValidateCurrentLicense(store: Store, reply: ServerReply, now: Instant) returns (r: Result<StatusResponse, string>)
    modifies store
    ensures r == StatusReply(ValidationOutcome(old(store.Loaded()), reply, now))
  {
    var v := ValidateLicense(store, reply, now);
    r := StatusReply(v);
  }

  /** With no license file the command answers "not_activated" rather than failing. */
  lemma NoLicenseIsNotAnError(reply: ServerReply, now: Instant)
    ensures StatusReply(ValidationOutcome(LoadResult(true, Absent), reply, now))
              == Ok(StatusResponse(false, "not_activated", "Produto não ativado", None))
  {
  }

  /** The record `get_license_info` returns; dates are formatted by `format`. */
  datatype InfoResponse = InfoResponse(
    key: string,
    machineCode: string,
    expires: string,
    productId: string,
    premium: bool,
    maxOfflineDays: int,
    lastActivation: Option<string>,
    daysUntilExpiry: int)

  /** `get_license_info`: the stored license with the whole days left until it expires. */
  function LicenseInfoReply(loaded: Result<LicenseInfo, LicenseError>, now: Instant, format: Instant -> string)
    : (r: Result<InfoResponse, string>)
    ensures r.Err? <==> loaded.Err?
    ensures r.Err? ==> r.error == ErrorText(loaded.error)
    ensures r.Ok? ==> var l := loaded.value; var d := r.value.daysUntilExpiry;
              && r.value.key == l.key && r.value.machineCode == l.machineCode
              && r.value.productId == l.productId && r.value.premium == l.premium
              && r.value.maxOfflineDays == l.maxOfflineDays
              && r.value.expires == format(l.expires)
              && r.value.lastActivation.Some? == l.lastActivation.Some?
              && (l.lastActivation.Some? ==> r.value.lastActivation == Some(format(l.lastActivation.value)))
              && (now <= l.expires ==> 0 <= d && d * MillisPerDay <= l.expires - now < (d + 1) * MillisPerDay)
              && (l.expires < now ==> d <= 0 && (d - 1) * MillisPerDay < l.expires - now <= d * MillisPerDay)
  {
    match loaded
    case Err(e) => Err(ErrorText(e))
    case Ok(l) =>
      Ok(InfoResponse(l.key, l.machineCode, format(l.expires), l.productId, l.premium, l.maxOfflineDays,
                      if l.lastActivation.Some? then Some(format(l.lastActivation.value)) else None,
                      WholeDays(now, l.expires)))
  }

  /** `get_license_info`. */
  method GetLicenseInfo(store: Store, now: Instant, format: Instant -> string) returns (r: Result<InfoResponse, string>)
    ensures r == LicenseInfoReply(store.Loaded(), now, format)
  {
    var loaded := store.Load();
    r := LicenseInfoReply(loaded, now, format);
  }

  const ActivatedText := "Produto ativado com sucesso!"
  const RenewedText := "Licença renovada com sucesso!"
  const DeactivatedText := "Produto desativado com sucesso!"

  /** A fixed text on success, the error's display text on failure. */
  function CommandReply<T>(r: Result<T, LicenseError>, success: string): (c: Result<string, string>)
    ensures c.Ok? <==> r.Ok?
    ensures c.Ok? ==> c.value == success
    ensures c.Err? ==> c.error == ErrorText(r.error)
  {
    match r
    case Ok(_) => Ok(success)
    case Err(e) => Err(ErrorText(e))
  }

  /** `activate_license`: the entered key goes to the server with the local machine code. */
  method ActivateLicenseCommand(store: Store, key: string, hostHash: u64, reply: ServerReply, now: Instant,
                                parse: string -> Option<Instant>)
    returns (r: Result<string, string>)
    modifies store
    ensures r == CommandReply(SavedOutcome(ActivationOutcome(MachineCode(hostHash), reply, now, parse),
                                           store.dirAvailable && !store.readOnly), ActivatedText)
    ensures r.Ok? ==> r.value == ActivatedText
                      && store.Loaded() == ActivationOutcome(MachineCode(hostHash), reply, now, parse)
                      && store.Loaded().value.machineCode == MachineCode(hostHash)
    ensures r.Err? ==> store.file == old(store.file)
  {
    var _, a := ActivateLicense(store, key, hostHash, reply, now, parse);
    r := CommandReply(a, ActivatedText);
  }

  /** `renew_license`. */
  method RenewLicenseCommand(store: Store, reply: ServerReply, now: Instant, parse: string -> Option<Instant>)
    returns (r: Result<string, string>)
    modifies store
    ensures r == CommandReply(if old(store.Loaded()).Err? then old(store.Loaded())
                              else SavedOutcome(RenewalOutcome(old(store.Loaded()).value, reply, now, parse), !store.readOnly),
                              RenewedText)
    ensures r.Ok? ==> r.value == RenewedText && old(store.Loaded()).Ok?
                      && store.Loaded() == RenewalOutcome(old(store.Loaded()).value, reply, now, parse)
    ensures r.Err? ==> store.file == old(store.file)
  {
    var a := RenewLicense(store, reply, now, parse);
    r := CommandReply(a, RenewedText);
  }

  /** `deactivate_license`: removes the license file. */
  method DeactivateLicenseCommand(store: Store) returns (r: Result<string, string>)
    modifies store
    ensures r.Ok? <==> store.dirAvailable && (old(store.file).Absent? || !store.readOnly)
    ensures r.Ok? ==> r.value == DeactivatedText && !store.Exists()
    ensures r.Err? ==> r.error == ErrorText(LicenseError.StorageError) && store.file == old(store.file)
  {
    var d := store.Delete();
    r := CommandReply(d, DeactivatedText);
  }
}

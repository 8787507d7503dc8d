/**
 * The back end's license guard: a validity flag set by the start-up check and read before
 * the product is used, the message shown to the user, and the middleware check run
 * before critical commands.
 */
module LicenseGuard {
  import opened Wrappers
  import opened Text
  import opened LicenseTypes
  import opened LicenseStorage
  import opened LicenseValidator

  const NotActivatedCheck := "Produto não está ativado. " + "Por favor, ative o produto para continuar."
  const ExpiredCheck := "Sua licença expirou. " + "Por favor, renove para continuar usando o produto."
  const OfflineCheck := "Período offline expirado. " + "Conecte-se à internet para validar sua licença."
  const CheckErrorPrefix := "Erro na validação da licença: "
  const MiddlewareRefusal := "Produto não ativado. " + "Ative o produto para usar esta funcionalidade."

  /** The product may be used after a validation with this result. */
  predicate Usable(v: Result<LicenseStatus, LicenseError>) {
    v.Ok? && (v.value.Valid? || v.value.NearExpiration?)
  }

  /** What `check_license` returns for a validation result. */
  function CheckReply(v: Result<LicenseStatus, LicenseError>): (r: Result<Unit, string>)
    ensures r.Ok? <==> Usable(v)
    ensures v.Err? ==> r == Err(CheckErrorPrefix + ErrorText(v.error))
    ensures v == Ok(LicenseStatus.Expired) ==> r == Err(ExpiredCheck)
    ensures v == Ok(LicenseStatus.OfflineExpired) ==> r == Err(OfflineCheck)
    ensures v == Ok(LicenseStatus.NotActivated) ==> r == Err(NotActivatedCheck)
  {
    match v
    case Err(e) => Err(CheckErrorPrefix + ErrorText(e))
    case Ok(s) =>
      match s
      case Valid => Ok(Unit)
      case NearExpiration(_) => Ok(Unit)
      case Expired => Err(ExpiredCheck)
      case NotActivated => Err(NotActivatedCheck)
      case OfflineExpired => Err(OfflineCheck)
  }

  class Guard {
    var isValid: bool

    constructor ()
      ensures !isValid
    {
      isValid := false;
    }

    /**
     * `check_license`: without a stored license it refuses at once, validating nothing and
     * leaving the flag as it was; otherwise the flag records whether the product is usable.
     */
    method CheckLicense(store: Store, reply: ServerReply, now: Instant) returns (r: Result<Unit, string>)
      modifies this, store
      ensures !old(store.Exists()) ==>
                r == Err(NotActivatedCheck) && isValid == old(isValid) && store.file == old(store.file)
      ensures old(store.Exists()) ==>
                var v := ValidationOutcome(old(store.Loaded()), reply, now);
                isValid == Usable(v) && r == CheckReply(v)
      ensures old(store.Exists()) ==> (r.Ok? <==> isValid)
    {
      if !store.Exists() {
        return Err(NotActivatedCheck);
      }
      var v := ValidateLicense(store, reply, now);
      isValid := Usable(v);
      r := CheckReply(v);
    }

    /** `can_use_product`. */
    predicate CanUseProduct()
      reads this
    {
      isValid
    }
  }

  /** The message `get_validation_message` shows for a validation result. */
  function ValidationMessage(v: Result<LicenseStatus, LicenseError>): (m: string)
    ensures v.Err? ==> m == "Erro: " + ErrorText(v.error)
    ensures v.Ok? && v.value.NearExpiration? ==> m == "Licença expira em " + IntToString(v.value.days) + " dias"
  {
    match v
    case Err(e) => "Erro: " + ErrorText(e)
    case Ok(s) =>
      match s
      case Valid => "Licença válida"
      case NearExpiration(d) => "Licença expira em " + IntToString(d) + " dias"
      case Expired => "Licença expirada"
      case NotActivated => "Produto não ativado"
      case OfflineExpired => "Período offline expirado"
  }

  /** Each status has its own message. */
  lemma ValidationMessageDistinct(a: LicenseStatus, b: LicenseStatus)
    requires !a.NearExpiration? && !b.NearExpiration?
    ensures ValidationMessage(Ok(a)) == ValidationMessage(Ok(b)) <==> a == b
  {
    var ma, mb := ValidationMessage(Ok(a)), ValidationMessage(Ok(b));
    if a != b {
      assert |ma| != |mb|;
    }
  }

  /** `get_validation_message`: short-circuits when no license is stored. */
  method GetValidationMessage(store: Store, reply: ServerReply, now: Instant) returns (m: string)
    modifies store
    ensures !old(store.Exists()) ==> m == "Produto não ativado" && store.file == old(store.file)
    ensures old(store.Exists()) ==> m == ValidationMessage(ValidationOutcome(old(store.Loaded()), reply, now))
  {
    if !store.Exists() {
      return "Produto não ativado";
    }
    var v := ValidateLicense(store, reply, now);
    m := ValidationMessage(v);
  }

  /** `check_license_middleware`: passes exactly when a license file is present; expiry is not checked. */
  function Middleware(licenseExists: bool): (r: Result<Unit, string>)
    ensures r.Ok? <==> licenseExists
    ensures r.Err? ==> r.error == MiddlewareRefusal
  {
    if licenseExists then Ok(Unit) else Err(MiddlewareRefusal)
  }

  /** The middleware lets an expired license through; only the full check refuses it. */
  lemma MiddlewareIgnoresExpiry(license: LicenseInfo, reply: ServerReply, now: Instant)
    requires license.expires < now
    ensures Middleware(LoadResult(true, Present(license)).Ok?) == Ok(Unit)
    ensures CheckReply(ValidationOutcome(LoadResult(true, Present(license)), reply, now)) == Err(ExpiredCheck)
  {
  }
}

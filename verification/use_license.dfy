/**
 * The front end's license hook. Each mounted component holds its own license state; all
 * components of one page load share a module flag saying the back end has already been
 * asked, and all page loads share one browser storage slot caching the last verification
 * for five minutes. Back-end replies and the clock are inputs; a ghost log records the
 * back-end commands invoked.
 */
module UseLicense {
  import opened Wrappers
  import opened Text
  import opened LicenseCommands

  /** Time to live of the cached verification, in milliseconds. */
  const CacheDuration: int := 5 * 60 * 1000

  /** The record kept in browser storage. */
  datatype CachedLicense = CachedLicense(
    timestamp: int,
    isActivated: bool,
    licenseStatus: Option<StatusResponse>,
    licenseInfo: Option<InfoResponse>,
    alreadyVerified: bool)

  /** The storage slot: nothing, text that does not parse, or a record. */
  datatype CacheSlot = Empty | Unparsable | Stored(entry: CachedLicense)

  /** `loadFromCache`'s answer: a record is served while it is at most five minutes old. */
  function CacheLookup(slot: CacheSlot, now: int): (r: Option<CachedLicense>)
    ensures r.Some? <==> slot.Stored? && now - slot.entry.timestamp <= CacheDuration
    ensures r.Some? ==> r.value == slot.entry
  {
    if slot.Stored? && !(now - slot.entry.timestamp > CacheDuration) then Some(slot.entry) else None
  }

  /** A record exactly five minutes old is still served; one millisecond later it is dropped. */
  lemma CacheBoundary(entry: CachedLicense)
    ensures CacheLookup(Stored(entry), entry.timestamp + CacheDuration) == Some(entry)
    ensures CacheLookup(Stored(entry), entry.timestamp + CacheDuration + 1) == None
  {
  }

  /** A command the front end sends to the back end. */
  datatype Call =
    | IsLicenseActivated
    | ValidateCurrentLicense
    | GetLicenseInfo
    | GetMachineCode
    | ActivateLicense(key: string)
    | RenewLicense
    | DeactivateLicense

  /**
   * A rejected command. `embeddedMessage` is the non-empty `message` field of the JSON
   * object embedded in the error text, when there is one.
   */
  datatype BackendError = BackendError(text: string, embeddedMessage: Option<string>)

  /** `extractErrorMessage`: the embedded message if any, otherwise the prefixed text. */
  function ErrorMessage(e: BackendError, prefix: string): (m: string)
    ensures e.embeddedMessage.Some? && e.embeddedMessage.value != "" ==> m == e.embeddedMessage.value
    ensures !(e.embeddedMessage.Some? && e.embeddedMessage.value != "") ==> m == prefix + ": " + e.text
  {
    if e.embeddedMessage.Some? && e.embeddedMessage.value != "" then e.embeddedMessage.value
    else prefix + ": " + e.text
  }

  /** The replies to the commands a status check may send, in order. */
  datatype CheckReplies = CheckReplies(
    activated: Result<bool, BackendError>,
    status: Result<StatusResponse, BackendError>,
    info: Result<InfoResponse, BackendError>)

  /** The commands a status check sends: status and info are asked only for an activated product. */
  function ChecksSent(r: CheckReplies): (calls: seq<Call>)
    ensures 1 <= |calls| <= 3 && calls[0] == IsLicenseActivated
    ensures ValidateCurrentLicense in calls <==> r.activated == Ok(true)
    ensures GetLicenseInfo in calls <==> r.activated == Ok(true) && r.status.Ok?
    ensures forall k :: 1 <= k < |calls| ==> calls[k] != IsLicenseActivated
  {
    [IsLicenseActivated]
    + (if r.activated == Ok(true) then
         [ValidateCurrentLicense] + (if r.status.Ok? then [GetLicenseInfo] else [])
       else [])
  }

  /** Every reply the status check waits for arrived. */
  predicate CheckSucceeds(r: CheckReplies) {
    r.activated.Ok? && (r.activated.value ==> r.status.Ok? && r.info.Ok?)
  }

  /** The first rejection a failing status check meets. */
  function CheckFailure(r: CheckReplies): (e: BackendError)
    requires !CheckSucceeds(r)
    ensures r.activated.Err? ==> e == r.activated.error
    ensures r.activated == Ok(true) && r.status.Err? ==> e == r.status.error
    ensures r.activated == Ok(true) && r.status.Ok? ==> e == r.info.error
  {
    if r.activated.Err? then r.activated.error
    else if r.status.Err? then r.status.error
    else r.info.error
  }

  /** The record a successful status check caches: nulls when the product is not activated. */
  function CheckRecord(r: CheckReplies, now: int): (c: CachedLicense)
    requires CheckSucceeds(r)
    ensures c.timestamp == now && c.alreadyVerified && c.isActivated == r.activated.value
    ensures c.licenseStatus.Some? <==> r.activated.value
    ensures c.licenseInfo.Some? <==> r.activated.value
    ensures c.licenseStatus.Some? ==> c.licenseStatus.value == r.status.value
    ensures c.licenseInfo.Some? ==> c.licenseInfo.value == r.info.value
  {
    var a := r.activated.value;
    CachedLicense(now, a, if a then Some(r.status.value) else None, if a then Some(r.info.value) else None, true)
  }

  /** How many `is_license_activated` commands a log holds. */
  function ActivationChecks(calls: seq<Call>): nat {
    if calls == [] then 0
    else ActivationChecks(calls[..|calls| - 1]) + (if calls[|calls| - 1] == IsLicenseActivated then 1 else 0)
  }

  lemma {:induction false} ActivationChecksAppend(a: seq<Call>, b: seq<Call>)
    ensures ActivationChecks(a + b) == ActivationChecks(a) + ActivationChecks(b)
    decreases |b|
  {
    if b == [] {
      assert a + b == a;
    } else {
      var b' := b[..|b| - 1];
      assert (a + b)[..|a + b| - 1] == a + b';
      assert (a + b)[|a + b| - 1] == b[|b| - 1];
      ActivationChecksAppend(a, b');
    }
  }

  /** A status check sends exactly one `is_license_activated`. */
  lemma {:induction false} OneActivationCheck(r: CheckReplies)
    ensures ActivationChecks(ChecksSent(r)) == 1
  {
    var calls := ChecksSent(r);
    var one := [IsLicenseActivated];
    assert one[..0] == [];
    assert ActivationChecks(one) == 1;
    if |calls| >= 2 {
      assert calls[..2][..1] == one;
      assert ActivationChecks(calls[..2]) == 1;
      if |calls| == 3 {
        assert calls[..3][..2] == calls[..2];
        assert calls[..3] == calls;
      } else {
        assert calls[..2] == calls;
      }
    } else {
      assert calls == one;
    }
  }

  /** What the module, the storage slot and the back end see of one page load. */
  class Runtime {
    /** The browser storage slot; it survives page reloads. */
    var slot: CacheSlot
    /** `moduleAlreadyVerified`: set once the back end has been asked in this page load. */
    var moduleAlreadyVerified: bool
    ghost var calls: seq<Call>

    constructor (slot: CacheSlot)
      ensures this.slot == slot && !moduleAlreadyVerified && calls == []
    {
      this.slot := slot;
      moduleAlreadyVerified := false;
      calls := [];
    }

    /** A page reload: module state starts afresh, storage is kept. */
    method Reload()
      modifies this
      ensures slot == old(slot) && !moduleAlreadyVerified && calls == old(calls)
    {
      moduleAlreadyVerified := false;
    }

    /** `saveToCache`: stamps the record with the current time. */
    method SaveToCache(now: int, isActivated: bool, status: Option<StatusResponse>, info: Option<InfoResponse>,
                       alreadyVerified: bool)
      modifies this
      ensures slot == Stored(CachedLicense(now, isActivated, status, info, alreadyVerified))
      ensures moduleAlreadyVerified == old(moduleAlreadyVerified) && calls == old(calls)
    {
      slot := Stored(CachedLicense(now, isActivated, status, info, alreadyVerified));
    }

    /** `loadFromCache`: a stale or unparsable entry is removed and reads as a miss. */
    method LoadFromCache(now: int) returns (r: Option<CachedLicense>)
      modifies this
      ensures r == CacheLookup(old(slot), now)
      ensures slot == if r.Some? then old(slot) else Empty
      ensures moduleAlreadyVerified == old(moduleAlreadyVerified) && calls == old(calls)
    {
      match slot {
        case Empty =>
          r := None;
        case Unparsable =>
          slot := Empty;
          r := None;
        case Stored(entry) =>
          if now - entry.timestamp > CacheDuration {
            slot := Empty;
            r := None;
          } else {
            r := Some(entry);
          }
      }
    }

    /** `clearCache`. */
    method ClearCache()
      modifies this
      ensures slot == Empty
      ensures moduleAlreadyVerified == old(moduleAlreadyVerified) && calls == old(calls)
    {
      slot := Empty;
    }

    /** Sends a command to the back end. */
    method Send(c: Call)
      modifies this
      ensures calls == old(calls) + [c]
      ensures slot == old(slot) && moduleAlreadyVerified == old(moduleAlreadyVerified)
    {
      calls := calls + [c];
    }
  }

  const CheckPrefix := "Erro ao verificar ativação"
  const ActivatePrefix := "Erro na ativação"
  const RenewPrefix := "Erro na renovação"
  const DeactivatePrefix := "Erro na desativação"
  const ValidatePrefix := "Erro na validação"
  const InfoPrefix := "Erro ao obter informações"
  const MachineCodePrefix := "Erro ao obter código da máquina"

  /** One mounted `useLicense` hook. */
  class LicenseHook {
    const rt: Runtime
    var isActivated: bool
    var licenseStatus: Option<StatusResponse>
    var licenseInfo: Option<InfoResponse>
    var loading: bool
    var error: string
    var alreadyVerified: bool

    constructor (rt: Runtime)
      ensures this.rt == rt
      ensures !isActivated && licenseStatus == None && licenseInfo == None
      ensures loading && error == "" && !alreadyVerified
    {
      this.rt := rt;
      isActivated := false;
      licenseStatus := None;
      licenseInfo := None;
      loading := true;
      error := "";
      alreadyVerified := false;
    }

    /** `canUseApp`: activated, with a status the back end reported as valid. */
    predicate CanUseApp()
      reads this
    {
      isActivated && licenseStatus.Some? && licenseStatus.value.isValid
    }

    /**
     * `checkActivationStatus`. On success it caches one record stamped `now` and clears the
     * error; on failure it sets the error and caches nothing. The state fields reached
     * before a failure keep their new values; status and info are not touched when the
     * product is not activated. Loading always ends false; the error is never rethrown.
     */
    method CheckActivationStatus(now: int, replies: CheckReplies)
      modifies this, rt
      ensures rt.calls == old(rt.calls) + ChecksSent(replies)
      ensures rt.moduleAlreadyVerified == old(rt.moduleAlreadyVerified)
      ensures !loading && alreadyVerified == old(alreadyVerified)
      ensures isActivated == if replies.activated.Ok? then replies.activated.value else old(isActivated)
      ensures licenseStatus == if replies.activated == Ok(true) && replies.status.Ok?
                               then Some(replies.status.value) else old(licenseStatus)
      ensures licenseInfo == if CheckSucceeds(replies) && replies.activated.value
                             then Some(replies.info.value) else old(licenseInfo)
      ensures CheckSucceeds(replies) ==> error == "" && rt.slot == Stored(CheckRecord(replies, now))
      ensures !CheckSucceeds(replies) ==>
                error == ErrorMessage(CheckFailure(replies), CheckPrefix) && rt.slot == old(rt.slot)
    {
      loading := true;
      rt.Send(IsLicenseActivated);
      if replies.activated.Err? {
        error := ErrorMessage(replies.activated.error, CheckPrefix);
        loading := false;
        return;
      }
      var activated := replies.activated.value;
      isActivated := activated;
      var currentStatus: Option<StatusResponse> := None;
      var currentInfo: Option<InfoResponse> := None;
      if activated {
        rt.Send(ValidateCurrentLicense);
        if replies.status.Err? {
          error := ErrorMessage(replies.status.error, CheckPrefix);
          loading := false;
          return;
        }
        licenseStatus := Some(replies.status.value);
        currentStatus := licenseStatus;
        rt.Send(GetLicenseInfo);
        if replies.info.Err? {
          error := ErrorMessage(replies.info.error, CheckPrefix);
          loading := false;
          return;
        }
        licenseInfo := Some(replies.info.value);
        currentInfo := licenseInfo;
      }
      rt.SaveToCache(now, activated, currentStatus, currentInfo, true);
      error := "";
      loading := false;
    }

    /**
     * The shared shape of `activateLicense` and `renewLicense`: send `c`; on success re-check
     * the status, leaving the hook as `CheckActivationStatus` does, and then empty the cache
     * slot; on failure set the error under `prefix` and pass the rejection on. `loading` is
     * cleared either way.
     */
    method RunAndRecheck(c: Call, prefix: string, now: int, result: Result<string, BackendError>, replies: CheckReplies)
      returns (r: Result<string, BackendError>)
      modifies this, rt
      ensures r == result && !loading
      ensures rt.moduleAlreadyVerified == old(rt.moduleAlreadyVerified)
      ensures r.Ok? ==> rt.slot == Empty && rt.calls == old(rt.calls) + [c] + ChecksSent(replies)
      ensures r.Ok? ==> isActivated == if replies.activated.Ok? then replies.activated.value else old(isActivated)
      ensures r.Ok? ==> licenseStatus == if replies.activated == Ok(true) && replies.status.Ok?
                                         then Some(replies.status.value) else old(licenseStatus)
      ensures r.Ok? ==> licenseInfo == if CheckSucceeds(replies) && replies.activated.value
                                       then Some(replies.info.value) else old(licenseInfo)
      ensures r.Ok? ==> error == (if CheckSucceeds(replies) then "" else ErrorMessage(CheckFailure(replies), CheckPrefix))
                        && alreadyVerified == old(alreadyVerified)
      ensures r.Err? ==> error == ErrorMessage(r.error, prefix) && rt.slot == old(rt.slot)
                         && rt.calls == old(rt.calls) + [c]
                         && isActivated == old(isActivated) && licenseStatus == old(licenseStatus)
                         && licenseInfo == old(licenseInfo) && alreadyVerified == old(alreadyVerified)
    {
      loading := true;
      error := "";
      rt.Send(c);
      if result.Err? {
        error := ErrorMessage(result.error, prefix);
        loading := false;
        return result;
      }
      CheckActivationStatus(now, replies);
      rt.ClearCache();
      loading := false;
      r := result;
    }

    /** `activateLicense`: sends the trimmed key. */
    method Activate(key: string, now: int, result: Result<string, BackendError>, replies: CheckReplies)
      returns (r: Result<string, BackendError>)
      modifies this, rt
      ensures r == result && !loading
      ensures rt.moduleAlreadyVerified == old(rt.moduleAlreadyVerified)
      ensures r.Ok? ==> rt.slot == Empty && rt.calls == old(rt.calls) + [ActivateLicense(JsTrim(key))] + ChecksSent(replies)
      ensures r.Ok? ==> isActivated == if replies.activated.Ok? then replies.activated.value else old(isActivated)
      ensures r.Ok? ==> licenseStatus == if replies.activated == Ok(true) && replies.status.Ok?
                                         then Some(replies.status.value) else old(licenseStatus)
      ensures r.Ok? ==> licenseInfo == if CheckSucceeds(replies) && replies.activated.value
                                       then Some(replies.info.value) else old(licenseInfo)
      ensures r.Ok? ==> error == (if CheckSucceeds(replies) then "" else ErrorMessage(CheckFailure(replies), CheckPrefix))
                        && alreadyVerified == old(alreadyVerified)
      ensures r.Err? ==> error == ErrorMessage(r.error, ActivatePrefix) && rt.slot == old(rt.slot)
                         && rt.calls == old(rt.calls) + [ActivateLicense(JsTrim(key))]
                         && isActivated == old(isActivated) && licenseStatus == old(licenseStatus)
                         && licenseInfo == old(licenseInfo) && alreadyVerified == old(alreadyVerified)
    {
      r := RunAndRecheck(ActivateLicense(JsTrim(key)), ActivatePrefix, now, result, replies);
    }

    /** `renewLicense`: like activation, without a key. */
    method Renew(now: int, result: Result<string, BackendError>, replies: CheckReplies)
      returns (r: Result<string, BackendError>)
      modifies this, rt
      ensures r == result && !loading
      ensures rt.moduleAlreadyVerified == old(rt.moduleAlreadyVerified)
      ensures r.Ok? ==> rt.slot == Empty && rt.calls == old(rt.calls) + [RenewLicense] + ChecksSent(replies)
      ensures r.Ok? ==> isActivated == if replies.activated.Ok? then replies.activated.value else old(isActivated)
      ensures r.Ok? ==> licenseStatus == if replies.activated == Ok(true) && replies.status.Ok?
                                         then Some(replies.status.value) else old(licenseStatus)
      ensures r.Ok? ==> licenseInfo == if CheckSucceeds(replies) && replies.activated.value
                                       then Some(replies.info.value) else old(licenseInfo)
      ensures r.Ok? ==> error == (if CheckSucceeds(replies) then "" else ErrorMessage(CheckFailure(replies), CheckPrefix))
                        && alreadyVerified == old(alreadyVerified)
      ensures r.Err? ==> error == ErrorMessage(r.error, RenewPrefix) && rt.slot == old(rt.slot)
                         && rt.calls == old(rt.calls) + [RenewLicense]
                         && isActivated == old(isActivated) && licenseStatus == old(licenseStatus)
                         && licenseInfo == old(licenseInfo) && alreadyVerified == old(alreadyVerified)
    {
      r := RunAndRecheck(RenewLicense, RenewPrefix, now, result, replies);
    }

    /** `deactivateLicense`: on success forgets the license in memory and in the cache. */
    method Deactivate(result: Result<string, BackendError>) returns (r: Result<string, BackendError>)
      modifies this, rt
      ensures r == result && !loading
      ensures rt.calls == old(rt.calls) + [DeactivateLicense]
      ensures rt.moduleAlreadyVerified == old(rt.moduleAlreadyVerified)
      ensures r.Ok? ==> && !isActivated && licenseStatus == None && licenseInfo == None
                        && !alreadyVerified && rt.slot == Empty && error == "" && !CanUseApp()
      ensures r.Err? ==> error == ErrorMessage(r.error, DeactivatePrefix) && rt.slot == old(rt.slot)
                         && isActivated == old(isActivated) && licenseStatus == old(licenseStatus)
                         && licenseInfo == old(licenseInfo) && alreadyVerified == old(alreadyVerified)
    {
      loading := true;
      error := "";
      rt.Send(DeactivateLicense);
      if result.Err? {
        error := ErrorMessage(result.error, DeactivatePrefix);
        loading := false;
        return result;
      }
      alreadyVerified := false;
      isActivated := false;
      licenseStatus := None;
      licenseInfo := None;
      rt.ClearCache();
      loading := false;
      r := result;
    }

    /** `validateLicense`: stores the status, or sets the error and passes the rejection on. */
    method ValidateLicense(result: Result<StatusResponse, BackendError>) returns (r: Result<StatusResponse, BackendError>)
      modifies this, rt
      ensures r == result && rt.calls == old(rt.calls) + [ValidateCurrentLicense]
      ensures rt.slot == old(rt.slot) && rt.moduleAlreadyVerified == old(rt.moduleAlreadyVerified)
      ensures licenseStatus == if r.Ok? then Some(r.value) else old(licenseStatus)
      ensures error == if r.Ok? then old(error) else ErrorMessage(r.error, ValidatePrefix)
      ensures isActivated == old(isActivated) && licenseInfo == old(licenseInfo)
      ensures loading == old(loading) && alreadyVerified == old(alreadyVerified)
    {
      rt.Send(ValidateCurrentLicense);
      if result.Err? {
        error := ErrorMessage(result.error, ValidatePrefix);
      } else {
        licenseStatus := Some(result.value);
      }
      r := result;
    }

    /** `getLicenseInfo`: stores the info, or sets the error and passes the rejection on. */
    method FetchLicenseInfo(result: Result<InfoResponse, BackendError>) returns (r: Result<InfoResponse, BackendError>)
      modifies this, rt
      ensures r == result && rt.calls == old(rt.calls) + [GetLicenseInfo]
      ensures rt.slot == old(rt.slot) && rt.moduleAlreadyVerified == old(rt.moduleAlreadyVerified)
      ensures licenseInfo == if r.Ok? then Some(r.value) else old(licenseInfo)
      ensures error == if r.Ok? then old(error) else ErrorMessage(r.error, InfoPrefix)
      ensures isActivated == old(isActivated) && licenseStatus == old(licenseStatus)
      ensures loading == old(loading) && alreadyVerified == old(alreadyVerified)
    {
      rt.Send(GetLicenseInfo);
      if result.Err? {
        error := ErrorMessage(result.error, InfoPrefix);
      } else {
        licenseInfo := Some(result.value);
      }
      r := result;
    }

    /** `getMachineCode`: only a rejection changes the hook, by setting the error. */
    method FetchMachineCode(result: Result<string, BackendError>) returns (r: Result<string, BackendError>)
      modifies this, rt
      ensures r == result && rt.calls == old(rt.calls) + [GetMachineCode]
      ensures rt.slot == old(rt.slot) && rt.moduleAlreadyVerified == old(rt.moduleAlreadyVerified)
      ensures error == if r.Ok? then old(error) else ErrorMessage(r.error, MachineCodePrefix)
      ensures isActivated == old(isActivated) && licenseStatus == old(licenseStatus) && licenseInfo == old(licenseInfo)
      ensures loading == old(loading) && alreadyVerified == old(alreadyVerified)
    {
      rt.Send(GetMachineCode);
      if result.Err? {
        error := ErrorMessage(result.error, MachineCodePrefix);
      }
      r := result;
    }

    /**
     * The mount effect. A served cache record that was verified is copied into the hook
     * without asking the back end. Otherwise the back end is asked, as by
     * `CheckActivationStatus`, only if no hook of this page load has asked yet; a stale or
     * unparsable record is dropped on the way. Either way the module flag ends set, the
     * hook is marked verified and loading ends.
     */
    method Mount(now: int, replies: CheckReplies)
      modifies this, rt
      ensures rt.moduleAlreadyVerified && alreadyVerified && !loading
      ensures var cached := CacheLookup(old(rt.slot), now);
              cached.Some? && cached.value.alreadyVerified ==>
                && rt.calls == old(rt.calls) && rt.slot == old(rt.slot) && error == old(error)
                && isActivated == cached.value.isActivated
                && licenseStatus == cached.value.licenseStatus
                && licenseInfo == cached.value.licenseInfo
      ensures var cached := CacheLookup(old(rt.slot), now);
              var kept := if cached.Some? then old(rt.slot) else Empty;
              !(cached.Some? && cached.value.alreadyVerified) && !old(rt.moduleAlreadyVerified) ==>
                && rt.calls == old(rt.calls) + ChecksSent(replies)
                && isActivated == (if replies.activated.Ok? then replies.activated.value else old(isActivated))
                && licenseStatus == (if replies.activated == Ok(true) && replies.status.Ok?
                                     then Some(replies.status.value) else old(licenseStatus))
                && licenseInfo == (if CheckSucceeds(replies) && replies.activated.value
                                   then Some(replies.info.value) else old(licenseInfo))
                && (CheckSucceeds(replies) ==> error == "" && rt.slot == Stored(CheckRecord(replies, now)))
                && (!CheckSucceeds(replies) ==>
                      error == ErrorMessage(CheckFailure(replies), CheckPrefix) && rt.slot == kept)
      ensures var cached := CacheLookup(old(rt.slot), now);
              var kept := if cached.Some? then old(rt.slot) else Empty;
              !(cached.Some? && cached.value.alreadyVerified) && old(rt.moduleAlreadyVerified) ==>
                && rt.calls == old(rt.calls) && rt.slot == kept && error == old(error)
                && isActivated == old(isActivated) && licenseStatus == old(licenseStatus)
                && licenseInfo == old(licenseInfo)
      ensures old(rt.moduleAlreadyVerified) ==> rt.calls == old(rt.calls)
    {
      var cached := rt.LoadFromCache(now);
      if cached.Some? && cached.value.alreadyVerified {
        isActivated := cached.value.isActivated;
        licenseStatus := cached.value.licenseStatus;
        licenseInfo := cached.value.licenseInfo;
        alreadyVerified := true;
        loading := false;
        rt.moduleAlreadyVerified := true;
        return;
      }
      if !rt.moduleAlreadyVerified {
        loading := true;
        CheckActivationStatus(now, replies);
        rt.moduleAlreadyVerified := true;
        alreadyVerified := true;
        loading := false;
      } else {
        alreadyVerified := true;
        loading := false;
      }
    }
  }

  /**
   * Mounting any number of hooks in one page load, one after another with each mount's
   * check settled before the next mount starts, asks `is_license_activated` at most once,
   * and not at all if the page load had already asked.
   */
  method MountAll(rt: Runtime, mounts: seq<(int, CheckReplies)>) returns (hooks: seq<LicenseHook>)
    modifies rt
    ensures |hooks| == |mounts|
    ensures forall k :: 0 <= k < |hooks| ==> hooks[k].rt == rt && hooks[k].alreadyVerified && !hooks[k].loading
    ensures ActivationChecks(rt.calls) <= ActivationChecks(old(rt.calls)) + 1
    ensures old(rt.moduleAlreadyVerified) ==> rt.calls == old(rt.calls)
    ensures |mounts| > 0 ==> rt.moduleAlreadyVerified
  {
    hooks := [];
    var i := 0;
    while i < |mounts|
      invariant 0 <= i <= |mounts| && |hooks| == i
      invariant forall k :: 0 <= k < i ==> hooks[k].rt == rt && hooks[k].alreadyVerified && !hooks[k].loading
      invariant forall k :: 0 <= k < i ==> fresh(hooks[k])
      invariant ActivationChecks(rt.calls) <= ActivationChecks(old(rt.calls)) + 1
      invariant !rt.moduleAlreadyVerified ==> rt.calls == old(rt.calls)
      invariant old(rt.moduleAlreadyVerified) ==> rt.calls == old(rt.calls) && rt.moduleAlreadyVerified
      invariant i > 0 ==> rt.moduleAlreadyVerified
    {
      var h := new LicenseHook(rt);
      ghost var before := rt.calls;
      h.Mount(mounts[i].0, mounts[i].1);
      if rt.calls != before {
        OneActivationCheck(mounts[i].1);
        ActivationChecksAppend(before, ChecksSent(mounts[i].1));
      }
      hooks := hooks + [h];
      i := i + 1;
    }
  }
}

/**
 * The license validator of the desktop back end: the machine code, offline and online
 * classification of the stored license, activation and renewal. Server replies, the
 * current time and the machine's hash are inputs; the license file is a `Store`.
 */
module LicenseValidator {
  import opened Wrappers
  import opened Text
  import opened LicenseTypes
  import opened LicenseStorage

  newtype u64 = x: int | 0 <= x < 0x1_0000_0000_0000_0000

  // ----- Machine code -----

  predicate IsUpperHex(c: char) { IsAsciiDigit(c) || 'A' <= c <= 'F' }

  function Pow16(n: nat): (p: nat)
    ensures p >= 1
  {
    if n == 0 then 1 else 16 * Pow16(n - 1)
  }

  function HexDigit(d: nat): (c: char)
    requires d < 16
    ensures IsUpperHex(c)
  {
    "0123456789ABCDEF"[d]
  }

  function HexDigitValue(c: char): (d: nat)
    requires IsUpperHex(c)
    ensures d < 16
    ensures HexDigit(d) == c
  {
    if IsAsciiDigit(c) then c as int - '0' as int else c as int - 'A' as int + 10
  }

  /** Sixteen hexadecimal digits span exactly the `u64` range. */
  lemma Pow16Of16()
    ensures Pow16(16) == 0x1_0000_0000_0000_0000
  {
    assert Pow16(1) == 16;
    assert Pow16(2) == 256;
    assert Pow16(3) == 4096;
    assert Pow16(4) == 65536;
    assert Pow16(5) == 1048576;
    assert Pow16(6) == 16777216;
    assert Pow16(7) == 268435456;
    assert Pow16(8) == 4294967296;
    assert Pow16(9) == 68719476736;
    assert Pow16(10) == 1099511627776;
    assert Pow16(11) == 17592186044416;
    assert Pow16(12) == 281474976710656;
    assert Pow16(13) == 4503599627370496;
    assert Pow16(14) == 72057594037927936;
    assert Pow16(15) == 1152921504606846976;
    assert Pow16(16) == 18446744073709551616;
  }

  /** The last `width` hexadecimal digits of `n`, upper case, zero-padded (`{:0width$X}`). */
  function HexDigits(n: nat, width: nat): (s: string)
    ensures |s| == width
    ensures forall i :: 0 <= i < |s| ==> IsUpperHex(s[i])
  {
    if width == 0 then "" else HexDigits(n / 16, width - 1) + [HexDigit(n % 16)]
  }

  /** The number a string of upper-case hexadecimal digits denotes. */
  function HexValue(s: string): (n: nat)
    requires forall i :: 0 <= i < |s| ==> IsUpperHex(s[i])
    ensures n < Pow16(|s|)
  {
    if s == [] then 0 else 16 * HexValue(s[..|s| - 1]) + HexDigitValue(s[|s| - 1])
  }

  lemma {:induction false} HexRoundTrip(n: nat, width: nat)
    requires n < Pow16(width)
    ensures HexValue(HexDigits(n, width)) == n
  {
    if width > 0 {
      var s := HexDigits(n, width);
      var q, d := n / 16, n % 16;
      assert q < Pow16(width - 1) by {
        DivBelow(n, Pow16(width - 1));
      }
      HexRoundTrip(q, width - 1);
      assert s == HexDigits(q, width - 1) + [HexDigit(d)];
      assert s[..|s| - 1] == HexDigits(q, width - 1);
      HexDigitInverse(d);
      assert HexValue(s) == 16 * q + d;
    }
  }

  lemma DivBelow(n: nat, p: nat)
    requires n < 16 * p
    ensures n / 16 < p
  {
  }

  /** Reading a digit back gives the value it was written for. */
  lemma HexDigitInverse(d: nat)
    requires d < 16
    ensures HexDigitValue(HexDigit(d)) == d
  {
    var c := HexDigit(d);
    var e := HexDigitValue(c);
    assert HexDigit(e) == c;
    HexDigitInjective(d, e);
  }

  lemma HexDigitInjective(d: nat, e: nat)
    requires d < 16 && e < 16 && HexDigit(d) == HexDigit(e)
    ensures d == e
  {
    var t := "0123456789ABCDEF";
    assert forall i, j :: 0 <= i < j < 16 ==> t[i] < t[j];
  }

  /** `format!("MC-{:016X}", hash)`: "MC-" and exactly 16 upper-case hex digits. */
  function MachineCode(hash: u64): (code: string)
    ensures |code| == 19 && code[..3] == "MC-"
    ensures forall i :: 3 <= i < 19 ==> IsUpperHex(code[i])
  {
    "MC-" + HexDigits(hash as nat, 16)
  }

  /** Reads a machine code back into the hash it was made from. */
  function MachineCodeHash(code: string): (h: Option<u64>)
    ensures h.Some? ==> |code| == 19 && code[..3] == "MC-"
  {
    if |code| == 19 && code[..3] == "MC-" && forall i :: 3 <= i < 19 ==> IsUpperHex(code[i]) then
      Pow16Of16();
      Some(HexValue(code[3..]) as u64)
    else
      None
  }

  /** Different hashes give different codes: the code determines the hash. */
  lemma MachineCodeRoundTrip(hash: u64)
    ensures MachineCodeHash(MachineCode(hash)) == Some(hash)
  {
    var code := MachineCode(hash);
    assert code[3..] == HexDigits(hash as nat, 16);
    Pow16Of16();
    HexRoundTrip(hash as nat, 16);
  }

  // ----- Classification -----

  /** The day count both validators report: `NearExpiration(d)` when `d <= 7`. */
  function ExpiryStatus(expires: Instant, now: Instant): (s: LicenseStatus)
    requires now <= expires
    ensures s == LicenseStatus.Valid <==> expires - now >= 8 * MillisPerDay
    ensures s.NearExpiration? <==> expires - now < 8 * MillisPerDay
    ensures s.NearExpiration? ==>
              0 <= s.days <= 7 && s.days * MillisPerDay <= expires - now < (s.days + 1) * MillisPerDay
  {
    var d := WholeDays(now, expires);
    if d <= 7 then LicenseStatus.NearExpiration(d) else LicenseStatus.Valid
  }

  /** The stored license has been offline longer than it allows. */
  predicate OfflineTooLong(license: LicenseInfo, now: Instant) {
    license.lastActivation.Some? && WholeDays(license.lastActivation.value, now) > license.maxOfflineDays
  }

  /** `validate_offline`: expiry first, then the offline period, then the days left. */
  function OfflineStatus(license: LicenseInfo, now: Instant): (s: LicenseStatus)
    ensures s == LicenseStatus.Expired <==> license.expires < now
    ensures s == LicenseStatus.OfflineExpired <==> now <= license.expires && OfflineTooLong(license, now)
    ensures s.NearExpiration? || s == LicenseStatus.Valid <==>
              now <= license.expires && !OfflineTooLong(license, now)
    ensures s.NearExpiration? ==> 0 <= s.days <= 7
    ensures s.NearExpiration? ==>
              s.days * MillisPerDay <= license.expires - now < (s.days + 1) * MillisPerDay
    ensures s == LicenseStatus.Valid ==> license.expires - now >= 8 * MillisPerDay
    ensures now <= license.expires && !OfflineTooLong(license, now) ==> s == ExpiryStatus(license.expires, now)
    ensures s != LicenseStatus.NotActivated
  {
    if license.expires < now then LicenseStatus.Expired
    else if OfflineTooLong(license, now) then LicenseStatus.OfflineExpired
    else ExpiryStatus(license.expires, now)
  }

  /**
   * For a license activated in the past with a non-negative day limit, the offline
   * period has run out exactly when `maxOfflineDays + 1` whole days have passed.
   */
  lemma OfflineLimitInMillis(license: LicenseInfo, now: Instant)
    requires license.lastActivation.Some? && license.lastActivation.value <= now
    requires license.maxOfflineDays >= 0
    ensures OfflineTooLong(license, now) <==>
              now - license.lastActivation.value >= (license.maxOfflineDays + 1) * MillisPerDay
  {
    var elapsed := now - license.lastActivation.value;
    var d := WholeDays(license.lastActivation.value, now);
    var m := license.maxOfflineDays;
    if d > m {
      assert d >= m + 1;
      assert (m + 1) * MillisPerDay <= d * MillisPerDay;
    } else {
      assert d + 1 <= m + 1;
      assert (d + 1) * MillisPerDay <= (m + 1) * MillisPerDay;
    }
  }

  /** A reply from the license server: none at all, an error status, or a success with its body. */
  datatype ServerReply =
    | Unreachable
    | Rejected(text: Option<string>)
    | Accepted(body: Option<Json>)

  /** `validate_online` apart from the cache update: any success counts, whatever its body. */
  function OnlineStatus(license: LicenseInfo, reply: ServerReply, now: Instant): (r: Result<LicenseStatus, LicenseError>)
    requires now <= license.expires
    ensures r.Ok? <==> reply.Accepted?
    ensures r.Ok? ==> r.value == ExpiryStatus(license.expires, now)
    ensures r.Ok? && r.value.NearExpiration? ==>
              r.value.days * MillisPerDay <= license.expires - now < (r.value.days + 1) * MillisPerDay
    ensures r.Err? ==> r.error == LicenseError.NetworkError
  {
    if reply.Accepted? then Ok(ExpiryStatus(license.expires, now)) else Err(LicenseError.NetworkError)
  }

  /** The license with its activation and cache times moved to `now`. */
  function Refreshed(license: LicenseInfo, now: Instant): (l: LicenseInfo)
    ensures l.lastActivation == Some(now) && l.cachedAt == now
    ensures l.(lastActivation := license.lastActivation, cachedAt := license.cachedAt) == license
  {
    license.(lastActivation := Some(now), cachedAt := now)
  }

  /**
   * `validate_license` over what loading returned: an expired license is reported before
   * any other check, and a failed online check falls back to the offline one.
   */
  function ValidationOutcome(loaded: Result<LicenseInfo, LicenseError>, reply: ServerReply, now: Instant)
    : (r: Result<LicenseStatus, LicenseError>)
    ensures r.Err? <==> loaded.Err?
    ensures r.Err? ==> r.error == loaded.error
    ensures loaded.Ok? && loaded.value.expires < now ==> r == Ok(LicenseStatus.Expired)
    ensures loaded.Ok? && !reply.Accepted? ==> r == Ok(OfflineStatus(loaded.value, now))
    ensures loaded.Ok? && reply.Accepted? ==> r != Ok(LicenseStatus.OfflineExpired)
    ensures loaded.Ok? && now <= loaded.value.expires ==>
              r == Ok(if reply.Accepted? then ExpiryStatus(loaded.value.expires, now) else OfflineStatus(loaded.value, now))
    ensures r.Ok? && r.value.NearExpiration? ==> 0 <= r.value.days <= 7
    ensures r != Ok(LicenseStatus.NotActivated)
  {
    match loaded
    case Err(e) => Err(e)
    case Ok(license) =>
      if license.expires < now then Ok(LicenseStatus.Expired)
      else
        var online := OnlineStatus(license, reply, now);
        if online.Ok? then online else Ok(OfflineStatus(license, now))
  }

  /** `validate_online`: a successful reply refreshes the stored license; a failed save is ignored. */
  method ValidateOnline(store: Store, license: LicenseInfo, reply: ServerReply, now: Instant)
    returns (r: Result<LicenseStatus, LicenseError>)
    requires now <= license.expires
    modifies store
    ensures r == OnlineStatus(license, reply, now)
    ensures store.dirAvailable == old(store.dirAvailable) && store.readOnly == old(store.readOnly)
    ensures store.file == if reply.Accepted? && store.dirAvailable && !store.readOnly
                          then Present(Refreshed(license, now)) else old(store.file)
  {
    if !reply.Accepted? {
      return Err(LicenseError.NetworkError);
    }
    var _ := store.Save(Refreshed(license, now));
    var d := WholeDays(now, license.expires);
    if d <= 7 {
      r := Ok(LicenseStatus.NearExpiration(d));
    } else {
      r := Ok(LicenseStatus.Valid);
    }
  }

  /** `validate_license`. */
  method ValidateLicense(store: Store, reply: ServerReply, now: Instant) returns (r: Result<LicenseStatus, LicenseError>)
    modifies store
    ensures r == ValidationOutcome(old(store.Loaded()), reply, now)
    ensures store.dirAvailable == old(store.dirAvailable) && store.readOnly == old(store.readOnly)
    ensures store.file ==
              if old(store.Loaded()).Ok? && now <= old(store.Loaded()).value.expires
                 && reply.Accepted? && store.dirAvailable && !store.readOnly
              then Present(Refreshed(old(store.Loaded()).value, now))
              else old(store.file)
  {
    var loaded := store.Load();
    if loaded.Err? {
      return Err(loaded.error);
    }
    var license := loaded.value;
    if license.expires < now {
      return Ok(LicenseStatus.Expired);
    }
    var online := ValidateOnline(store, license, reply, now);
    if online.Ok? {
      r := online;
    } else {
      r := Ok(OfflineStatus(license, now));
    }
  }

  // ----- Activation and renewal -----

  const UnknownError := "Erro desconhecido"
  const InvalidReply := "Resposta inválida do servidor"
  const NoLicenseData := "Dados de licença não recebidos"
  const NoNewExpiry := "Nova data de expiração não recebida"
  const BadNewExpiry := "Data de expiração inválida"

  /** The error for a reply that is not a success. */
  function FailedReply(reply: ServerReply): (e: LicenseError)
    requires !reply.Accepted?
    ensures reply.Unreachable? <==> e == LicenseError.NetworkError
    ensures reply.Rejected? ==> e.ValidationError?
    ensures reply.Rejected? && reply.text.Some? ==> e.msg == reply.text.value
    ensures reply.Rejected? && reply.text.None? ==> e.msg == UnknownError
  {
    match reply
    case Unreachable => LicenseError.NetworkError
    case Rejected(text) => LicenseError.ValidationError(if text.Some? then text.value else UnknownError)
  }

  /**
   * What `activate_license` makes of the server's reply, before saving: the license the
   * server sent, bound to the local machine code and stamped with `now`.
   */
  function ActivationOutcome(code: string, reply: ServerReply, now: Instant, parse: string -> Option<Instant>)
    : (r: Result<LicenseInfo, LicenseError>)
    ensures r.Ok? ==> reply.Accepted? && reply.body.Some?
    ensures r.Ok? ==>
              var resp := DecodeActivationBody(reply.body.value, parse);
              && resp.Some? && resp.value.license.Some?
              && var d := resp.value.license.value;
              r.value == LicenseInfo(d.key, code, d.expires, d.productId, d.premium,
                                     d.maxOfflineDays, Some(now), now)
    ensures reply.Accepted? ==>
              (r.Ok? <==> && reply.body.Some?
                          && DecodeActivationBody(reply.body.value, parse).Some?
                          && DecodeActivationBody(reply.body.value, parse).value.license.Some?)
    ensures !reply.Accepted? ==> r == Err(FailedReply(reply))
    ensures reply.Accepted? && (reply.body.None? || !(reply.body.value.JObject? || reply.body.value.JArray?)) ==>
              r == Err(LicenseError.ValidationError(InvalidReply))
    ensures reply.Accepted? && reply.body.Some? && DecodeActivationBody(reply.body.value, parse).None? ==>
              r == Err(LicenseError.ValidationError(InvalidReply))
    ensures reply.Accepted? && reply.body.Some?
            && DecodeActivationBody(reply.body.value, parse).Some?
            && DecodeActivationBody(reply.body.value, parse).value.license.None? ==>
              r == Err(LicenseError.ValidationError(NoLicenseData))
  {
    match reply
    case Unreachable => Err(FailedReply(reply))
    case Rejected(_) => Err(FailedReply(reply))
    case Accepted(body) =>
      var resp := if body.Some? then DecodeActivationBody(body.value, parse) else None;
      if resp.None? then Err(LicenseError.ValidationError(InvalidReply))
      else if resp.value.license.None? then Err(LicenseError.ValidationError(NoLicenseData))
      else
        var d := resp.value.license.value;
        Ok(LicenseInfo(d.key, code, d.expires, d.productId, d.premium, d.maxOfflineDays, Some(now), now))
  }

  /** An accepted array body `["ok", null]` is read, and then refused for lack of license data. */
  lemma ArrayReplyWithoutLicense(code: string, now: Instant, parse: string -> Option<Instant>)
    ensures ActivationOutcome(code, Accepted(Some(JArray([JString("ok"), JNull]))), now, parse)
            == Err(LicenseError.ValidationError(NoLicenseData))
  {
  }

  /** The result once the save is attempted: a license that cannot be written becomes `StorageError`. */
  function SavedOutcome(a: Result<LicenseInfo, LicenseError>, writable: bool): Result<LicenseInfo, LicenseError> {
    if a.Ok? && !writable then Err(LicenseError.StorageError) else a
  }

  /**
   * `activate_license`: sends the key with the local machine code and stores the license
   * the server returns; a failed save is reported. Nothing is stored on any error.
   */
  method ActivateLicense(store: Store, key: string, hostHash: u64, reply: ServerReply, now: Instant,
                         parse: string -> Option<Instant>)
    returns (request: map<string, Json>, r: Result<LicenseInfo, LicenseError>)
    modifies store
    ensures request == EncodeActivationRequest(ActivationRequest(key, MachineCode(hostHash)))
    ensures store.dirAvailable == old(store.dirAvailable) && store.readOnly == old(store.readOnly)
    ensures var a := ActivationOutcome(MachineCode(hostHash), reply, now, parse);
            && (a.Err? ==> r == a)
            && (a.Ok? && store.dirAvailable && !store.readOnly ==> r == a)
            && (a.Ok? && !(store.dirAvailable && !store.readOnly) ==> r == Err(LicenseError.StorageError))
    ensures r == SavedOutcome(ActivationOutcome(MachineCode(hostHash), reply, now, parse), store.dirAvailable && !store.readOnly)
    ensures r.Ok? ==> store.Loaded() == r && r.value.machineCode == MachineCode(hostHash)
    ensures r.Err? ==> store.file == old(store.file)
  {
    var code := MachineCode(hostHash);
    request := EncodeActivationRequest(ActivationRequest(key, code));
    var a := ActivationOutcome(code, reply, now, parse);
    if a.Err? {
      return request, a;
    }
    var saved := store.Save(a.value);
    if saved.Err? {
      return request, Err(saved.error);
    }
    r := a;
  }

  /** The `newExpirationDate` string of a renewal reply, if the body is an object holding one. */
  function NewExpiration(body: Json): Option<string> {
    if body.JObject? && "newExpirationDate" in body.fields && body.fields["newExpirationDate"].JString?
    then Some(body.fields["newExpirationDate"].s)
    else None
  }

  /**
   * What `renew_license` makes of the server's reply, before saving: only the expiry, the
   * activation time and the cache time change.
   */
  function RenewalOutcome(license: LicenseInfo, reply: ServerReply, now: Instant, parse: string -> Option<Instant>)
    : (r: Result<LicenseInfo, LicenseError>)
    ensures r.Ok? <==> reply.Accepted? && reply.body.Some? && NewExpiration(reply.body.value).Some?
                       && parse(NewExpiration(reply.body.value).value).Some?
    ensures r.Ok? ==> r.value == Refreshed(license, now).(expires := parse(NewExpiration(reply.body.value).value).value)
    ensures !reply.Accepted? ==> r == Err(FailedReply(reply))
    ensures reply.Accepted? && reply.body.Some? && NewExpiration(reply.body.value).None? ==>
              r == Err(LicenseError.ValidationError(NoNewExpiry))
  {
    match reply
    case Unreachable => Err(FailedReply(reply))
    case Rejected(_) => Err(FailedReply(reply))
    case Accepted(body) =>
      if body.None? then Err(LicenseError.ValidationError(InvalidReply))
      else
        var text := NewExpiration(body.value);
        if text.None? then Err(LicenseError.ValidationError(NoNewExpiry))
        else
          var t := parse(text.value);
          if t.None? then Err(LicenseError.ValidationError(BadNewExpiry))
          else Ok(Refreshed(license, now).(expires := t.value))
  }

  /** `renew_license`: loads the stored license, asks the server, and saves the renewed one. */
  method RenewLicense(store: Store, reply: ServerReply, now: Instant, parse: string -> Option<Instant>)
    returns (r: Result<LicenseInfo, LicenseError>)
    modifies store
    ensures store.dirAvailable == old(store.dirAvailable) && store.readOnly == old(store.readOnly)
    ensures old(store.Loaded()).Err? ==> r == old(store.Loaded())
    ensures old(store.Loaded()).Ok? ==>
              var a := RenewalOutcome(old(store.Loaded()).value, reply, now, parse);
              && (a.Err? ==> r == a)
              && (a.Ok? && !store.readOnly ==> r == a)
              && (a.Ok? && store.readOnly ==> r == Err(LicenseError.StorageError))
    ensures r == if old(store.Loaded()).Err? then old(store.Loaded())
                 else SavedOutcome(RenewalOutcome(old(store.Loaded()).value, reply, now, parse), !store.readOnly)
    ensures r.Ok? ==> store.Loaded() == r
    ensures r.Err? ==> store.file == old(store.file)
  {
    var loaded := store.Load();
    if loaded.Err? {
      return loaded;
    }
    var a := RenewalOutcome(loaded.value, reply, now, parse);
    if a.Err? {
      return a;
    }
    var saved := store.Save(a.value);
    if saved.Err? {
      return Err(saved.error);
    }
    r := a;
  }
}

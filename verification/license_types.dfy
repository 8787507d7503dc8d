/**
 * The license records of the desktop back end: the stored license, the five validation
 * outcomes, the error kinds with their display texts, and the JSON shapes exchanged with
 * the license server (with the camel-case field names the server uses).
 */
module LicenseTypes {
  import opened Wrappers
  import opened Text

  /** An instant, in milliseconds since the Unix epoch. */
  type Instant = int

  const MillisPerDay: int := 86_400_000

  /**
   * `(to - from).num_days()`: the signed number of whole days from `from` to `to`,
   * truncated toward zero.
   */
  function WholeDays(from: Instant, to: Instant): (d: int)
    ensures to >= from ==> 0 <= d && d * MillisPerDay <= to - from < (d + 1) * MillisPerDay
    ensures to < from ==> d <= 0 && (d - 1) * MillisPerDay < to - from <= d * MillisPerDay
  {
    TruncDiv(to - from, MillisPerDay)
  }

  /** The license as it is kept on disk after activation. */
  datatype LicenseInfo = LicenseInfo(
    key: string,
    machineCode: string,
    expires: Instant,
    productId: string,
    premium: bool,
    maxOfflineDays: int,
    lastActivation: Option<Instant>,
    cachedAt: Instant)

  /** The outcome of a validation; only `NearExpiration` carries a count (days left). */
  datatype LicenseStatus =
    | Valid
    | NearExpiration(days: int)
    | Expired
    | NotActivated
    | OfflineExpired

  datatype LicenseError =
    | NotActivated
    | Expired
    | InvalidKey
    | NetworkError
    | StorageError
    | ValidationError(msg: string)
    | OfflineExpired

  const ValidationPrefix := "Erro de validação: "
  const OfflineAdvice := " - conecte-se à internet"

  /** The `Display` text of each error kind. */
  function ErrorText(e: LicenseError): string {
    match e
    case NotActivated => "Produto não foi ativado"
    case Expired => "Licença expirada"
    case InvalidKey => "Chave de licença inválida"
    case NetworkError => "Erro de conexão com o servidor"
    case StorageError => "Erro ao acessar dados da licença"
    case ValidationError(msg) => ValidationPrefix + msg
    case OfflineExpired => "Período offline expirado" + OfflineAdvice
  }

  /** Two different errors never display the same text, so the text identifies the error. */
  lemma ErrorTextInjective(a: LicenseError, b: LicenseError)
    ensures ErrorText(a) == ErrorText(b) ==> a == b
  {
    if a.ValidationError? && b.ValidationError? {
      PrefixedInjective(ValidationPrefix, a.msg, b.msg);
    } else if a.ValidationError? || b.ValidationError? {
      var v := if a.ValidationError? then a else b;
      var o := if a.ValidationError? then b else a;
      var tv, to := ErrorText(v), ErrorText(o);
      assert tv[0] == 'E' && tv[5] == 'd' && tv[8] == 'v';
      match o
      case NotActivated => assert to[0] != tv[0];
      case Expired => assert to[0] != tv[0];
      case InvalidKey => assert to[0] != tv[0];
      case NetworkError => assert to[8] != tv[8];
      case StorageError => assert to[5] != tv[5];
      case OfflineExpired => assert to[0] == 'P';
    } else if a != b {
      FixedTextsDiffer(a, b);
    }
  }

  /** Texts that share a prefix are equal only when what follows it is. */
  lemma PrefixedInjective(p: string, x: string, y: string)
    ensures p + x == p + y ==> x == y
  {
    assert (p + x)[|p|..] == x && (p + y)[|p|..] == y;
  }

  /** The fixed messages all have different lengths. */
  lemma FixedTextsDiffer(a: LicenseError, b: LicenseError)
    requires !a.ValidationError? && !b.ValidationError? && a != b
    ensures |ErrorText(a)| != |ErrorText(b)|
  {
  }

  /** JSON values as the server exchanges them; dates travel as RFC 3339 strings. */
  datatype Json =
    | JNull
    | JBool(b: bool)
    | JInt(i: int)
    | JString(s: string)
    | JArray(elems: seq<Json>)
    | JObject(fields: map<string, Json>)

  /** A date formatter and a date parser that read back what the formatter writes. */
  ghost predicate DatesRoundTrip(format: Instant -> string, parse: string -> Option<Instant>) {
    forall t :: parse(format(t)) == Some(t)
  }

  predicate IsI32(n: int) { -0x8000_0000 <= n < 0x8000_0000 }

  /** Body of an activation request. */
  datatype ActivationRequest = ActivationRequest(key: string, machineCode: string)

  function EncodeActivationRequest(r: ActivationRequest): (o: map<string, Json>)
    ensures o.Keys == {"key", "machineCode"}
    ensures o["key"] == JString(r.key) && o["machineCode"] == JString(r.machineCode)
  {
    map["key" := JString(r.key), "machineCode" := JString(r.machineCode)]
  }

  /** The license record inside an activation reply. */
  datatype LicenseData = LicenseData(
    id: string,
    key: string,
    expires: Instant,
    productId: string,
    premium: bool,
    maxOfflineDays: int,
    machineCode: Option<string>,
    lastActivation: Option<Instant>)

  const LicenseDataKeys: set<string> :=
    {"id", "key", "expires", "productId", "premium", "maxOfflineDays", "machineCode", "lastActivation"}

  function EncodeLicenseData(d: LicenseData, format: Instant -> string): (o: map<string, Json>)
    ensures o.Keys == LicenseDataKeys
  {
    map[
      "id" := JString(d.id),
      "key" := JString(d.key),
      "expires" := JString(format(d.expires)),
      "productId" := JString(d.productId),
      "premium" := JBool(d.premium),
      "maxOfflineDays" := JInt(d.maxOfflineDays),
      "machineCode" := (match d.machineCode case None => JNull case Some(m) => JString(m)),
      "lastActivation" := (match d.lastActivation case None => JNull case Some(t) => JString(format(t)))]
  }

  /** A date field: a string the parser accepts. */
  function DecodeDate(o: map<string, Json>, k: string, parse: string -> Option<Instant>): Option<Instant> {
    if k in o && o[k].JString? then parse(o[k].s) else None
  }

  /** An optional field: absent or null reads as None, a present value must decode. */
  function DecodeOptionalString(o: map<string, Json>, k: string): Option<Option<string>> {
    if k !in o || o[k] == JNull then Some(None)
    else if o[k].JString? then Some(Some(o[k].s))
    else None
  }

  function DecodeOptionalDate(o: map<string, Json>, k: string, parse: string -> Option<Instant>): Option<Option<Instant>> {
    if k !in o || o[k] == JNull then Some(None)
    else if o[k].JString? && parse(o[k].s).Some? then Some(parse(o[k].s))
    else None
  }

  /**
   * Reads a `LicenseData` object under its camel-case field names. Required fields must be
   * present with the right type (an `i32` for `maxOfflineDays`); unknown fields are ignored.
   */
  function DecodeLicenseData(o: map<string, Json>, parse: string -> Option<Instant>): (r: Option<LicenseData>)
    ensures r.Some? ==> "productId" in o && o["productId"] == JString(r.value.productId)
    ensures r.Some? ==> "maxOfflineDays" in o && o["maxOfflineDays"] == JInt(r.value.maxOfflineDays)
    ensures r.Some? ==> IsI32(r.value.maxOfflineDays)
    ensures r.Some? ==> r.value.machineCode.Some? == ("machineCode" in o && o["machineCode"] != JNull)
    ensures r.Some? ==> r.value.lastActivation.Some? == ("lastActivation" in o && o["lastActivation"] != JNull)
    ensures "product_id" in o && "productId" !in o ==> r.None?
  {
    var expires := DecodeDate(o, "expires", parse);
    var mc := DecodeOptionalString(o, "machineCode");
    var la := DecodeOptionalDate(o, "lastActivation", parse);
    if && "id" in o && o["id"].JString?
       && "key" in o && o["key"].JString?
       && expires.Some?
       && "productId" in o && o["productId"].JString?
       && "premium" in o && o["premium"].JBool?
       && "maxOfflineDays" in o && o["maxOfflineDays"].JInt? && IsI32(o["maxOfflineDays"].i)
       && mc.Some? && la.Some?
    then
      Some(LicenseData(o["id"].s, o["key"].s, expires.value, o["productId"].s,
                       o["premium"].b, o["maxOfflineDays"].i, mc.value, la.value))
    else
      None
  }

  /** Every record the server can send (an `i32` day limit) reads back as itself. */
  lemma LicenseDataRoundTrip(d: LicenseData, format: Instant -> string, parse: string -> Option<Instant>)
    requires DatesRoundTrip(format, parse)
    requires IsI32(d.maxOfflineDays)
    ensures DecodeLicenseData(EncodeLicenseData(d, format), parse) == Some(d)
  {
    var o := EncodeLicenseData(d, format);
    assert parse(format(d.expires)) == Some(d.expires);
    assert DecodeDate(o, "expires", parse) == Some(d.expires);
    assert DecodeOptionalString(o, "machineCode") == Some(d.machineCode);
    if d.lastActivation.Some? {
      assert parse(format(d.lastActivation.value)) == Some(d.lastActivation.value);
    }
    assert DecodeOptionalDate(o, "lastActivation", parse) == Some(d.lastActivation);
  }

  /** The keys of a `LicenseData` object. */
  const LicenseKeys: set<string> :=
    {"id", "key", "expires", "productId", "premium", "maxOfflineDays", "machineCode", "lastActivation"}

  /** The fields of a `LicenseData` array, which serde reads in declaration order, under their keys. */
  function LicenseFields(e: seq<Json>): (o: map<string, Json>)
    requires |e| == 8
    ensures o.Keys == LicenseKeys
  {
    map["id" := e[0], "key" := e[1], "expires" := e[2], "productId" := e[3], "premium" := e[4],
        "maxOfflineDays" := e[5], "machineCode" := e[6], "lastActivation" := e[7]]
  }

  /**
   * serde's other form of `LicenseData`: an array of exactly the eight fields in declaration
   * order, each read as under its key; an optional field must be there, possibly null.
   */
  function DecodeLicenseSeq(e: seq<Json>, parse: string -> Option<Instant>): (r: Option<LicenseData>)
    ensures |e| != 8 ==> r.None?
    ensures r.Some? ==> e[3] == JString(r.value.productId) && e[5] == JInt(r.value.maxOfflineDays)
                        && IsI32(r.value.maxOfflineDays)
    ensures r.Some? ==> r.value.machineCode.Some? == (e[6] != JNull) && r.value.lastActivation.Some? == (e[7] != JNull)
  {
    if |e| == 8 then DecodeLicenseData(LicenseFields(e), parse) else None
  }

  /** An object's license fields in declaration order. */
  function InDeclarationOrder(o: map<string, Json>): (e: seq<Json>)
    requires LicenseKeys <= o.Keys
    ensures |e| == 8
  {
    [o["id"], o["key"], o["expires"], o["productId"], o["premium"], o["maxOfflineDays"],
     o["machineCode"], o["lastActivation"]]
  }

  /** An object carrying every license key and the array of its values decode to the same record. */
  lemma SeqAndObjectFormsAgree(o: map<string, Json>, parse: string -> Option<Instant>)
    requires LicenseKeys <= o.Keys
    ensures DecodeLicenseSeq(InDeclarationOrder(o), parse) == DecodeLicenseData(o, parse)
  {
    var f := LicenseFields(InDeclarationOrder(o));
    assert forall k :: k in LicenseKeys ==> f[k] == o[k];
  }

  /** A license value: an object or an array; anything else is refused. */
  function DecodeLicense(j: Json, parse: string -> Option<Instant>): (r: Option<LicenseData>)
    ensures r.Some? ==> j.JObject? || j.JArray?
    ensures j.JObject? ==> r == DecodeLicenseData(j.fields, parse)
    ensures j.JArray? ==> r == DecodeLicenseSeq(j.elems, parse)
  {
    match j
    case JObject(o) => DecodeLicenseData(o, parse)
    case JArray(e) => DecodeLicenseSeq(e, parse)
    case _ => None
  }

  /** The body of a successful activation reply. */
  datatype ActivationResponse = ActivationResponse(message: string, license: Option<LicenseData>)

  /** `message` is required; `license` may be absent or null; a malformed license fails the whole body. */
  function DecodeActivationResponse(o: map<string, Json>, parse: string -> Option<Instant>): (r: Option<ActivationResponse>)
    ensures r.Some? <==> "message" in o && o["message"].JString?
                         && ("license" !in o || o["license"] == JNull || DecodeLicense(o["license"], parse).Some?)
    ensures r.Some? ==> o["message"] == JString(r.value.message)
    ensures r.Some? && r.value.license.Some? ==>
              "license" in o && DecodeLicense(o["license"], parse) == r.value.license
    ensures r.Some? && r.value.license.None? ==> "license" !in o || o["license"] == JNull
  {
    if "message" in o && o["message"].JString? then
      if "license" !in o || o["license"] == JNull then
        Some(ActivationResponse(o["message"].s, None))
      else
        var d := DecodeLicense(o["license"], parse);
        if d.Some? then Some(ActivationResponse(o["message"].s, Some(d.value))) else None
    else
      None
  }

  /** The array form of the reply: exactly `[message, license]`, the license null or a license value. */
  function DecodeActivationSeq(e: seq<Json>, parse: string -> Option<Instant>): (r: Option<ActivationResponse>)
    ensures r.Some? <==> |e| == 2 && e[0].JString? && (e[1] == JNull || DecodeLicense(e[1], parse).Some?)
    ensures r.Some? ==> e[0] == JString(r.value.message)
    ensures r.Some? ==> (r.value.license.None? <==> e[1] == JNull)
    ensures r.Some? && r.value.license.Some? ==> DecodeLicense(e[1], parse) == r.value.license
  {
    if |e| == 2 && e[0].JString? then
      if e[1] == JNull then Some(ActivationResponse(e[0].s, None))
      else
        var d := DecodeLicense(e[1], parse);
        if d.Some? then Some(ActivationResponse(e[0].s, Some(d.value))) else None
    else
      None
  }

  /** A reply body: an object or an array; a string, number, boolean or null is refused. */
  function DecodeActivationBody(j: Json, parse: string -> Option<Instant>): (r: Option<ActivationResponse>)
    ensures r.Some? ==> j.JObject? || j.JArray?
    ensures j.JObject? ==> r == DecodeActivationResponse(j.fields, parse)
    ensures j.JArray? ==> r == DecodeActivationSeq(j.elems, parse)
  {
    match j
    case JObject(o) => DecodeActivationResponse(o, parse)
    case JArray(e) => DecodeActivationSeq(e, parse)
    case _ => None
  }
}

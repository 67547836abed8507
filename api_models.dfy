/**
 * The API record types of ArchiveBox: the bearer credential `APIToken`
 * (issuance default, validity against an optional expiry, the display
 * expiry, the redacted repr and the JSON projection) and the ABID
 * descriptors that `APIToken` and `OutboundWebhook` declare.
 *
 * Instants are integers: microseconds since 1970-01-01T00:00:00, limited to
 * the range of Python's `datetime` (year 1 to year 9999). The current time
 * is the parameter `now`, and `datetime.isoformat()` is the parameter
 * `isoformat`.
 */
module ApiModels {
  import opened Wrappers
  import opened Encoding

  // ---------------------------------------------------------------------
  // Time
  // ---------------------------------------------------------------------

  const MicrosPerSecond: int := 1_000_000
  const MicrosPerDay: int := 86_400 * MicrosPerSecond

  /** `datetime.min`, 0001-01-01T00:00:00. */
  const MinInstant: int := -62_135_596_800 * MicrosPerSecond
  /** `datetime.max`, 9999-12-31T23:59:59.999999. */
  const MaxInstant: int := 253_402_300_800 * MicrosPerSecond - 1

  type Instant = t: int | MinInstant <= t <= MaxInstant

  /** `timedelta(days=365 * 100)`: 36500 days, regardless of leap days. */
  const DisplayHorizon: int := 365 * 100 * MicrosPerDay

  /** Raised by datetime arithmetic whose result leaves the datetime range. */
  datatype DateError = OverflowError

  // ---------------------------------------------------------------------
  // The credential record
  // ---------------------------------------------------------------------

  /** `token = models.CharField(max_length=32, ...)`. */
  const TokenMaxLength: nat := 32

  predicate FitsTokenColumn(token: string) {
    |token| <= TokenMaxLength
  }

  /**
   * One row of `APIToken`. `abid` is the identifier text that the ABID
   * machinery computed for the row; `expires` is the nullable expiry.
   */
  datatype ApiToken = ApiToken(
    id: UuidBytes,
    abid: string,
    createdById: nat,
    token: string,
    created: Instant,
    expires: Option<Instant>)

  /**
   * `generate_secret_token()`, i.e. `secrets.token_hex(16)`: the sixteen
   * octets drawn from the secure random source, in lowercase hexadecimal.
   */
  function GenerateSecretToken(entropy: seq<byte>): (token: string)
    requires |entropy| == 16
    ensures |token| == 32 && IsHexString(token) && FitsTokenColumn(token)
    ensures HexDecode(token) == entropy
  {
    HexDecodeEncode(entropy);
    HexEncode(entropy)
  }

  /** The generator maps distinct random octets to distinct tokens. */
  lemma GeneratedTokensDistinct(e1: seq<byte>, e2: seq<byte>)
    requires |e1| == 16 && |e2| == 16
    ensures GenerateSecretToken(e1) == GenerateSecretToken(e2) <==> e1 == e2
  {
  }

  /**
   * A freshly created row: the column defaults give a generated token and
   * no expiry.
   */
  function NewApiToken(id: UuidBytes, abid: string, createdById: nat, created: Instant, entropy: seq<byte>): (t: ApiToken)
    requires |entropy| == 16
    ensures |t.token| == 32 && IsHexString(t.token) && FitsTokenColumn(t.token)
    ensures t.token == GenerateSecretToken(entropy) && t.expires == None
    ensures t.id == id && t.createdById == createdById && t.created == created && t.abid == abid
  {
    ApiToken(id, abid, createdById, GenerateSecretToken(entropy), created, None)
  }

  // ---------------------------------------------------------------------
  // Validity: is_valid(for_date=None)
  // ---------------------------------------------------------------------

  /**
   * `for_date or timezone.now()`. A datetime is never falsy, so only an
   * omitted date is replaced by the current time.
   */
  function EffectiveDate(forDate: Option<Instant>, now: Instant): (d: Instant)
    ensures forDate.Some? ==> d == forDate.value
    ensures forDate.None? ==> d == now
  {
    match forDate
    case Some(d) => d
    case None => now
  }

  /** `not (self.expires and self.expires < for_date)`. */
  predicate IsValid(t: ApiToken, forDate: Option<Instant>, now: Instant)
    ensures t.expires.None? ==> IsValid(t, forDate, now)
    ensures t.expires.Some? ==> (IsValid(t, forDate, now) <==> EffectiveDate(forDate, now) <= t.expires.value)
  {
    var d := EffectiveDate(forDate, now);
    match t.expires
    case None => true
    case Some(e) => !(e < d)
  }

  /** A token without expiry is valid whatever the date. */
  lemma NoExpiryAlwaysValid(t: ApiToken, forDate: Option<Instant>, now: Instant)
    requires t.expires == None
    ensures IsValid(t, forDate, now)
  {
  }

  /** A token is invalid exactly when it has an expiry strictly before the date checked. */
  lemma InvalidIffExpiredBefore(t: ApiToken, forDate: Option<Instant>, now: Instant)
    ensures !IsValid(t, forDate, now) <==>
      t.expires.Some? && t.expires.value < EffectiveDate(forDate, now)
  {
  }

  /** An omitted date means "now". */
  lemma OmittedDateIsNow(t: ApiToken, now: Instant)
    ensures IsValid(t, None, now) == IsValid(t, Some(now), now)
  {
  }

  /**
   * The comparison is strict: a token expiring at the date, or after it, is
   * still valid; one that expired a second earlier is not.
   */
  lemma ExpiryBoundary(t: ApiToken, d: Instant, now: Instant)
    requires t.expires.Some?
    ensures t.expires.value == d ==> IsValid(t, Some(d), now)
    ensures t.expires.value == d + 1 ==> IsValid(t, Some(d), now)
    ensures t.expires.value == d + MicrosPerSecond ==> IsValid(t, Some(d), now)
    ensures t.expires.value == d - MicrosPerSecond ==> !IsValid(t, Some(d), now)
  {
  }

  /** Validity only ever runs out: a token valid at some date was valid at every earlier date. */
  lemma ValidityIsDownwardClosed(t: ApiToken, earlier: Instant, later: Instant, now: Instant)
    requires earlier <= later
    ensures IsValid(t, Some(later), now) ==> IsValid(t, Some(earlier), now)
  {
  }

  /** Validity does not depend on anything but the expiry and the date. */
  lemma ValidityOnlyReadsExpiry(t: ApiToken, u: ApiToken, forDate: Option<Instant>, now: Instant, now': Instant)
    requires t.expires == u.expires && forDate.Some?
    ensures IsValid(t, forDate, now) == IsValid(u, forDate, now')
  {
  }

  // ---------------------------------------------------------------------
  // Display expiry: expires_as_iso8601
  // ---------------------------------------------------------------------

  /**
   * The `expiry_date` of `expires_as_iso8601`: the stored expiry, or else
   * `now` plus 36500 days, which raises once it passes `datetime.max`.
   */
  function ExpiryDate(t: ApiToken, now: Instant): (r: Result<Instant, DateError>)
    ensures t.expires.Some? ==> r == Ok(t.expires.value)
    ensures t.expires.None? ==> (r.Err? <==> now + DisplayHorizon > MaxInstant)
    ensures t.expires.None? && r.Ok? ==> r.value - now == DisplayHorizon
  {
    match t.expires
    case Some(e) => Ok(e)
    case None =>
      var sentinel := now + DisplayHorizon;
      if sentinel <= MaxInstant then Ok(sentinel) else Err(OverflowError)
  }

  /** `expires_as_iso8601`: the display expiry rendered by `isoformat`. */
  function ExpiresAsIso8601(t: ApiToken, now: Instant, isoformat: Instant -> string): (r: Result<string, DateError>)
    ensures r.Ok? <==> ExpiryDate(t, now).Ok?
    ensures r.Ok? ==> r.value == isoformat(ExpiryDate(t, now).value)
    ensures t.expires.Some? ==> r == Ok(isoformat(t.expires.value))
  {
    match ExpiryDate(t, now)
    case Ok(d) => Ok(isoformat(d))
    case Err(e) => Err(e)
  }

  /**
   * The sentinel is for display only: a token without expiry stays valid
   * at every date past the sentinel shown for it, whereas a token that
   * actually stored the sentinel as its expiry would be invalid there.
   */
  lemma SentinelNeverFeedsValidity(t: ApiToken, now: Instant, d: Instant)
    requires t.expires == None && ExpiryDate(t, now).Ok?
    requires d > ExpiryDate(t, now).value
    ensures IsValid(t, Some(d), now)
    ensures !IsValid(t.(expires := Some(ExpiryDate(t, now).value)), Some(d), now)
  {
  }

  // ---------------------------------------------------------------------
  // Redacted repr
  // ---------------------------------------------------------------------

  /** Python's `s[-4:]`: the last four characters, or all of a shorter string. */
  function Last4(s: string): (r: string)
    ensures |r| == if |s| < 4 then |s| else 4
    ensures r == s[|s| - |r|..]
  {
    if |s| >= 4 then s[|s| - 4..] else s
  }

  /** The token part of `__repr__`: twelve asterisks and the token's last four characters. */
  function TokenMask(token: string): (r: string)
    ensures |r| == 12 + |Last4(token)|
    ensures forall i :: 0 <= i < 12 ==> r[i] == '*'
    ensures r[12..] == token[|token| - (|r| - 12)..]
  {
    "************" + Last4(token)
  }

  /** Two tokens are masked alike exactly when their last four characters agree: nothing else leaks. */
  lemma MaskRevealsOnlyLast4(a: string, b: string)
    ensures TokenMask(a) == TokenMask(b) <==> Last4(a) == Last4(b)
  {
  }

  /**
   * For a generated token the repr shows sixteen characters and reveals the
   * last two random octets, and only those.
   */
  lemma GeneratedTokenMask(e1: seq<byte>, e2: seq<byte>)
    requires |e1| == 16 && |e2| == 16
    ensures |TokenMask(GenerateSecretToken(e1))| == 16
    ensures TokenMask(GenerateSecretToken(e1)) == TokenMask(GenerateSecretToken(e2)) <==> e1[14..] == e2[14..]
  {
    LastTwoOctets(e1);
    LastTwoOctets(e2);
    MaskRevealsOnlyLast4(GenerateSecretToken(e1), GenerateSecretToken(e2));
    HexEncodeInjective(e1[14..], e2[14..]);
  }

  /** The last four hex digits of sixteen octets encode the last two octets. */
  lemma LastTwoOctets(e: seq<byte>)
    requires |e| == 16
    ensures Last4(GenerateSecretToken(e)) == HexEncode(e[14..])
  {
    assert e == e[..14] + e[14..];
    HexEncodeAppend(e[..14], e[14..]);
  }

  // ---------------------------------------------------------------------
  // JSON projection: __json__
  // ---------------------------------------------------------------------

  const JsonKeys: set<string> := {"TYPE", "id", "abid", "created_by_id", "token", "created", "expires"}

  /**
   * `__json__`. It evaluates `expires_as_iso8601`, so it raises whenever
   * that does.
   */
  function Json(t: ApiToken, now: Instant, isoformat: Instant -> string): (r: Result<map<string, string>, DateError>)
    ensures r.Ok? <==> ExpiresAsIso8601(t, now, isoformat).Ok?
    ensures r.Ok? ==> r.value.Keys == JsonKeys
    ensures r.Ok? ==> r.value["TYPE"] == "APIToken" && r.value["abid"] == t.abid
    ensures r.Ok? ==> r.value["token"] == t.token && r.value["created"] == isoformat(t.created)
    ensures r.Ok? ==> r.value["expires"] == ExpiresAsIso8601(t, now, isoformat).value
    ensures r.Ok? ==> ParseUuid(r.value["id"]) == Some(t.id)
    ensures r.Ok? ==> IsCanonicalDecimal(r.value["created_by_id"])
    ensures r.Ok? ==> DecimalValue(r.value["created_by_id"]) == t.createdById
  {
    match ExpiresAsIso8601(t, now, isoformat)
    case Err(e) => Err(e)
    case Ok(expires) =>
      ParseUuidString(t.id);
      DecimalRoundTrip(t.createdById);
      Ok(map[
        "TYPE" := "APIToken",
        "id" := UuidString(t.id),
        "abid" := t.abid,
        "created_by_id" := DecimalString(t.createdById),
        "token" := t.token,
        "created" := isoformat(t.created),
        "expires" := expires])
  }

  /** A stored expiry can always be projected; only the sentinel can overflow. */
  lemma JsonWithStoredExpiry(t: ApiToken, now: Instant, isoformat: Instant -> string)
    requires t.expires.Some?
    ensures Json(t, now, isoformat).Ok?
    ensures Json(t, now, isoformat).value["expires"] == isoformat(t.expires.value)
  {
  }

  // ---------------------------------------------------------------------
  // ABID descriptors
  // ---------------------------------------------------------------------

  /**
   * What a record type declares for its ABID: the type prefix and the
   * attribute paths of the timestamp, URI, subtype and random sources.
   */
  datatype AbidDescriptor = AbidDescriptor(
    prefix: string,
    tsSrc: string,
    uriSrc: string,
    subtypeSrc: string,
    randSrc: string)

  /**
   * The class constants of `APIToken`: prefix `apt_`, timestamp from the
   * creation time, URI from the token, subtype from the owner's id, random
   * part from the primary key.
   */
  function ApiTokenAbid(): (d: AbidDescriptor)
    ensures d.prefix == "apt_"
    ensures SourceAttribute(d.tsSrc) == Some("created")
    ensures SourceAttribute(d.uriSrc) == Some("token")
    ensures SourceAttribute(d.subtypeSrc) == Some("created_by_id")
    ensures SourceAttribute(d.randSrc) == Some("id")
  {
    AbidDescriptor("apt_", "self.created", "self.token", "self.created_by_id", "self.id")
  }

  /**
   * The class constants of `OutboundWebhook`: prefix `whk_`, timestamp from
   * the creation time, URI from the endpoint, subtype from the watched
   * reference, random part from `id`.
   */
  function OutboundWebhookAbid(): (d: AbidDescriptor)
    ensures d.prefix == "whk_"
    ensures SourceAttribute(d.tsSrc) == Some("created")
    ensures SourceAttribute(d.uriSrc) == Some("endpoint")
    ensures SourceAttribute(d.subtypeSrc) == Some("ref")
    ensures SourceAttribute(d.randSrc) == Some("id")
  {
    AbidDescriptor("whk_", "self.created", "self.endpoint", "self.ref", "self.id")
  }

  /** The attributes an `APIToken` row has (`created_by_id` is the foreign key's column). */
  const ApiTokenAttributes: set<string> :=
    {"id", "uuid", "abid", "created_by", "created_by_id", "token", "created", "expires"}

  /** The `OutboundWebhook` attributes declared or customised in this module. */
  const OutboundWebhookAttributes: set<string> :=
    {"id", "uuid", "abid", "name", "signal", "ref", "endpoint"}

  /** A prefix is three lowercase letters and an underscore. */
  predicate WellFormedPrefix(p: string) {
    |p| == 4 && p[3] == '_' && forall i :: 0 <= i < 3 ==> 'a' <= p[i] <= 'z'
  }

  /** The attribute a `self.<name>` path names, if it has that shape. */
  function SourceAttribute(path: string): (r: Option<string>)
    ensures r.Some? <==> |path| > 5 && path[..5] == "self."
    ensures r.Some? ==> path == "self." + r.value
  {
    if |path| > 5 && path[..5] == "self." then Some(path[5..]) else None
  }

  /** The source path names one of the given attributes. */
  predicate NamesAttribute(path: string, attributes: set<string>) {
    var a := SourceAttribute(path);
    a.Some? && a.value in attributes
  }

  /**
   * The APIToken descriptor is well formed and each of its four sources
   * names an attribute of the row: creation time, token, owner id, key.
   */
  lemma ApiTokenAbidWellFormed()
    ensures WellFormedPrefix(ApiTokenAbid().prefix)
    ensures NamesAttribute(ApiTokenAbid().tsSrc, ApiTokenAttributes)
    ensures NamesAttribute(ApiTokenAbid().uriSrc, ApiTokenAttributes)
    ensures NamesAttribute(ApiTokenAbid().subtypeSrc, ApiTokenAttributes)
    ensures NamesAttribute(ApiTokenAbid().randSrc, ApiTokenAttributes)
  {
  }

  /**
   * The OutboundWebhook descriptor is well formed; its URI, subtype and
   * random sources name the endpoint, the watched reference and the id.
   */
  lemma OutboundWebhookAbidWellFormed()
    ensures WellFormedPrefix(OutboundWebhookAbid().prefix)
    ensures NamesAttribute(OutboundWebhookAbid().uriSrc, OutboundWebhookAttributes)
    ensures NamesAttribute(OutboundWebhookAbid().subtypeSrc, OutboundWebhookAttributes)
    ensures NamesAttribute(OutboundWebhookAbid().randSrc, OutboundWebhookAttributes)
  {
  }

  /** The two record types cannot be confused by their prefixes. */
  lemma AbidPrefixesDistinct()
    ensures ApiTokenAbid().prefix != OutboundWebhookAbid().prefix
  {
  }

  // ---------------------------------------------------------------------
  // Lifecycle scenario
  // ---------------------------------------------------------------------

  /**
   * A token issued at `t0` without expiry is valid fifty years (of 365
   * days) later; once its expiry is set to one day after `t0`, it is no
   * longer valid two days after `t0`.
   */
  lemma IssueThenExpireScenario(id: UuidBytes, abid: string, owner: nat, t0: Instant, entropy: seq<byte>, now: Instant)
    requires |entropy| == 16
    requires t0 + 50 * 365 * MicrosPerDay <= MaxInstant
    ensures IsValid(NewApiToken(id, abid, owner, t0, entropy), Some(t0 + 50 * 365 * MicrosPerDay), now)
    ensures !IsValid(NewApiToken(id, abid, owner, t0, entropy).(expires := Some(t0 + MicrosPerDay)),
                     Some(t0 + 2 * MicrosPerDay), now)
  {
  }
}

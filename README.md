# ArchiveBox API tokens and ABID descriptors, in Dafny

This project models the credential rules of ArchiveBox's `APIToken` record
(`archivebox/api/models.py`) and proves properties of them:

- how a secret bearer token is generated (`generate_secret_token`, i.e. `secrets.token_hex(16)`);
- when a token is valid (`is_valid`);
- which expiry is displayed (`expires_as_iso8601`), including the "100 years from now" sentinel;
- how `__repr__` masks the token;
- the `__json__` projection;
- the ABID descriptor constants of `APIToken` (`apt_`) and `OutboundWebhook` (`whk_`).

The code is pure and sequential, so the model is datatypes, functions and lemmas.

Files:

- `wrappers.dfy`: `Option` (for nullable columns and omitted arguments) and `Result` (for operations that raise).
- `encoding.dfy`: the text encodings the record relies on, each with its decoder and a proved round trip:
  - lowercase hexadecimal, as `token_hex` and `bytes.hex()` produce it;
  - the canonical 8-4-4-4-12 UUID text of `str(uuid)`;
  - the decimal text of `str(int)`.
- `api_models.dfy`: the `ApiToken` record, its operations and lemmas, and the ABID descriptors.

Modelling choices:

- An instant is an integer count of microseconds since 1970-01-01T00:00:00. It is restricted to Python's `datetime` range, `datetime.min` = 0001-01-01 to `datetime.max` = 9999-12-31T23:59:59.999999.
- `timezone.now()` becomes a parameter `now`.
- `datetime.isoformat()` becomes a function parameter `isoformat`. Its output string is not modelled.
- The random source behind `secrets.token_hex(16)` becomes a parameter: the sixteen octets it returned.
- `is_valid`'s `for_date or timezone.now()` becomes `Option<Instant>`. A Python `datetime` is never falsy, so only an omitted date falls back to `now`.
- `self.expires or (timezone.now() + timedelta(days=36500))` raises `OverflowError` when the sum passes `datetime.max`. `ExpiryDate` models this as `Err(OverflowError)`. `ExpiresAsIso8601` and `Json` pass the error on, because `__json__` evaluates `expires_as_iso8601`.
- The display sentinel is exactly 36500 days (`DisplayHorizon`), as the code computes it. That is 24 or 25 days short of 100 calendar years, because 100 Gregorian years hold 24 or 25 leap days. The docstring at line 72 says "100 years in the future"; the model follows the code.
- `created_by_id` is a `nat`, the integer key of the owning user. `str(created_by_id)` is its decimal text.
- `abid` is the identifier text the ABID machinery computed for the row.
- The record `ApiModels.ApiToken` carries the fields of lines 34-42 that these operations read: `id`, `abid`, `created_by_id`, `token`, `created` and `expires`. `ApiModels.JsonKeys` is the key set of the dict literal at lines 56-64.

## Model

| member | source | states |
|---|---|---|
| `ApiModels.GenerateSecretToken` | archivebox/api/models.py:18-20 | the token is 32 lowercase hex characters, fits the 32-character column, and decodes back to the sixteen random octets |
| `ApiModels.GeneratedTokensDistinct` | archivebox/api/models.py:18-20 | two generated tokens are equal exactly when the random octets were equal |
| `ApiModels.NewApiToken` | archivebox/api/models.py:39-42 | a new row gets a 32-hex-character token that fits its column, and no expiry |
| `ApiModels.EffectiveDate` | archivebox/api/models.py:78 | the date judged is the one passed, or `now` when none is passed |
| `ApiModels.IsValid` | archivebox/api/models.py:77-83 | a token without expiry is valid; a token with an expiry is valid exactly when the date judged is not after it |
| `ApiModels.NoExpiryAlwaysValid` | archivebox/api/models.py:77-83 | a token without expiry is valid for every date and every `now` |
| `ApiModels.InvalidIffExpiredBefore` | archivebox/api/models.py:80-83 | a token is invalid if and only if it has an expiry strictly earlier than the date checked |
| `ApiModels.OmittedDateIsNow` | archivebox/api/models.py:78 | omitting `for_date` gives the same answer as passing the current time |
| `ApiModels.ExpiryBoundary` | archivebox/api/models.py:80 | the comparison is strict: expiry at the date, 1 µs after it or 1 s after it is valid; expiry 1 s before it is invalid |
| `ApiModels.ValidityIsDownwardClosed` | archivebox/api/models.py:80-83 | a token valid at some date is valid at every earlier date |
| `ApiModels.ValidityOnlyReadsExpiry` | archivebox/api/models.py:77-83 | for an explicit date, validity depends only on the expiry, not on other fields or on `now` |
| `ApiModels.ExpiryDate` | archivebox/api/models.py:73 | a stored expiry is returned unchanged; without one it is `now` + 36500 days; it fails with OverflowError exactly when there is no expiry and that sum passes `datetime.max` |
| `ApiModels.ExpiresAsIso8601` | archivebox/api/models.py:71-75 | the result is `isoformat` of the display expiry and fails exactly when that expiry fails; with a stored expiry it is that expiry's rendering |
| `ApiModels.SentinelNeverFeedsValidity` | archivebox/api/models.py:71-83 | a token without expiry stays valid after its displayed sentinel; a token that stored the sentinel as its expiry would be invalid there |
| `ApiModels.Last4` | archivebox/api/models.py:53 | Python's `s[-4:]`: the final four characters, or the whole string when it is shorter |
| `ApiModels.TokenMask` | archivebox/api/models.py:53 | the token part of the repr is twelve `*` followed by the token's final characters (at most four) |
| `ApiModels.MaskRevealsOnlyLast4` | archivebox/api/models.py:53 | two tokens have the same mask exactly when their last four characters agree, so no other character leaks |
| `ApiModels.GeneratedTokenMask` | archivebox/api/models.py:53 | for a generated token the mask is 16 characters, and two masks agree exactly when the last two random octets agree |
| `ApiModels.Json` | archivebox/api/models.py:55-64 | the keys are exactly the seven listed and `TYPE` is `"APIToken"`; `expires` is the `expires_as_iso8601` value; `token`, `abid` and `created` are the row's; `id` parses back to the row's UUID and `created_by_id` to the owner's id; fails exactly when `expires_as_iso8601` does |
| `ApiModels.JsonWithStoredExpiry` | archivebox/api/models.py:55-64 | with a stored expiry the projection always succeeds and shows that expiry |
| `ApiModels.ApiTokenAbid` | archivebox/api/models.py:27-32 | the prefix is `apt_`; the sources are the attributes `created`, `token`, `created_by_id` and `id` |
| `ApiModels.OutboundWebhookAbid` | archivebox/api/models.py:97-101 | the prefix is `whk_`; the sources are the attributes `created`, `endpoint`, `ref` and `id` |
| `ApiModels.ApiTokenAbidWellFormed` | archivebox/api/models.py:27-42 | prefix `apt_` is three lowercase letters and `_`; all four sources name attributes declared on the row |
| `ApiModels.OutboundWebhookAbidWellFormed` | archivebox/api/models.py:97-105 | prefix `whk_` is well formed; the URI, subtype and random sources name attributes declared or customised in the module |
| `ApiModels.AbidPrefixesDistinct` | archivebox/api/models.py:97 | `whk_` differs from `apt_` |
| `ApiModels.IssueThenExpireScenario` | archivebox/api/models.py:77-83 | a token issued at t0 without expiry is valid at t0 + 50×365 days; with expiry t0 + 1 day it is invalid at t0 + 2 days |
| `Encoding.HexEncode` | archivebox/api/models.py:18-20 | `token_hex` output: two lowercase hex characters per octet |
| `Encoding.HexDecodeEncode` | archivebox/api/models.py:18-20 | decoding a hex encoding gives back the octets |
| `Encoding.HexEncodeDecode` | archivebox/api/models.py:18-20 | every even-length lowercase hex string is the encoding of its decoding |
| `Encoding.HexEncodeInjective` | archivebox/api/models.py:18-20 | two octet strings have equal encodings exactly when they are equal |
| `Encoding.UuidString` | archivebox/api/models.py:58 | `str(self.pk)` is 36 characters: the hex encoding of the sixteen octets in groups of 8, 4, 4, 4 and 12, separated by hyphens |
| `Encoding.ParseUuid` | archivebox/api/models.py:58 | whatever it accepts is the canonical text of the UUID it returns |
| `Encoding.ParseUuidString` | archivebox/api/models.py:58 | the canonical text of every UUID parses back to that UUID |
| `Encoding.DecimalString` | archivebox/api/models.py:60 | `str(created_by_id)` is non-empty digits with no leading zero |
| `Encoding.DecimalRoundTrip` | archivebox/api/models.py:60 | the decimal text reads back as the number |
| `Encoding.DecimalStringInjective` | archivebox/api/models.py:60 | distinct ids have distinct decimal text |

## Left out

- ABID computation: the timestamp, hash and random segments, `get_abid`, the `ulid` property (lines 66-68) and `ABIDField`. They live in `abid_utils`, which is not part of this model. Only the declared prefixes and source paths are modelled.
- OutboundWebhookAbidWellFormed: does not show that `self.created` names a webhook attribute. That field comes from `signal_webhooks.WebhookBase`, which is not part of this model.
- The webhook's random source `self.id` names a column declared nullable with no default (line 103). What the ABID machinery does with a null source is outside this model.
- Django ORM behaviour: persistence, `unique=True`, `auto_now_add`, cascade deletion, UUID defaults, `Meta` names. These belong to the framework.
- Token uniqueness. The `unique=True` constraint at line 39 is enforced by the database: saving a row whose generated token duplicates an existing one fails, and the source does not generate a new token and retry.
- `secrets.token_hex` randomness quality. Only the encoding of whatever sixteen octets the random source returns is modelled.
- `timezone.now()`, time zones and `datetime.isoformat()` text. These are parameters; comparison of aware datetimes is comparison of instants.
- The `user=` part of `__repr__` (line 53). The f-string evaluates `self.user.username` before the mask, and `APIToken` declares `created_by`, not `user`. Unless the base class `ABIDModel`, which is not part of this model, provides `user`, `__repr__` raises `AttributeError` as written. `TokenMask` models the token part of the string only.
- Json: a Dafny `map` has no order, so the model does not capture the insertion order of the dict at lines 56-64 (`TYPE`, `id`, `abid`, `created_by_id`, `token`, `created`, `expires`), which shows when the result is serialised.
- `__str__` (lines 49-50), which returns the raw token. It is not part of the modelled core.
- `OutboundWebhook` delivery (`WebhookBase`) and the admin help-text assignments (lines 107-114). The first is a foreign library; the second is admin-UI configuration.

# Brilliant PDF catalog: a verified model of its core

Brilliant PDF is a desktop tool for building jewellery catalogs. It has three parts:

- A React front end.
- A Rust (Tauri) back end, which keeps sections, items and item infos in SQLite.
- A Python script that draws the catalog PDF.

This project models the logic of the core in Dafny and proves properties of it:

- **License gate (front end).** The `useLicense` hook has the following state:
  - its React state;
  - a one-slot `localStorage` cache with a five-minute lifetime;
  - a process-wide "already verified" flag, which decides whether the back end is asked at all.

  `LicenseGuard` picks one of four screens: loading, error, activation or the app.
- **License classification (back end).** The license file is a single slot.
  - `validate_license` checks expiry first, then tries the server and falls back to the offline rules.
  - Activation, renewal and deactivation update the license file.
  - The commands map statuses and errors to response records and texts.
  - The guard keeps an `is_valid` flag.
  - `get_machine_code` produces a fixed format.
- **Data normalisation.**
  - Settings validation: length limits, a default name and a palette whitelist.
  - Image signature checks.
  - Item-code sanitising.
  - The `read_image` filter chain.
  - Orphan-image cleanup.
  - Backup retention.
  - Catalog import, export and clearing over an abstract store of sections, items and infos.
- **PDF data preparation.**
  - Grouping items under sections, and info lines.
  - The palette index and logo choice.
  - 3×3 pagination with padding.
  - Greedy word wrap.
  - Brazilian phone formatting.
  - Base64 padding repair.
- **Front-end helpers.** `capitalize`, the avatar initials and the image-upload hook.

Time is an integer number of milliseconds, passed in (one clock reading per call). Server replies, file contents, directory trees and database faults are also inputs. Code that mutates state step by step is modelled with Dafny classes and methods, and each method is proved against a specification function. Pure code is modelled with functions and lemmas.

A cached license verification is dropped by `loadFromCache` only when it is more than five minutes old (src/hooks/useLicense.ts:66), so a record exactly five minutes old is still served; see `UseLicense.CacheBoundary`.

## Model

| member | source | states |
|---|---|---|
| `Text.Take` | src-tauri/src/db/settings_db.rs:285-290 | `chars().take(n)`: the result is the first `min(n, len)` characters of the input |
| `Text.TrimBy` | src-tauri/src/db/settings_db.rs:280 | trimming gives the empty string exactly when every character is whitespace; otherwise the result starts and ends with a non-whitespace character; the result is a contiguous slice of the input, and everything dropped before and after it is whitespace |
| `Text.JoinSplit` | src/utils/capitalize/index.ts:3-5 | joining the pieces of `split(sep)` with `sep` gives back the original string |
| `Text.SplitJoin` | src/utils/capitalize/index.ts:3-5 | splitting a join of separator-free pieces (at least one) gives back the pieces |
| `Text.TruncDiv` | src-tauri/src/license/validator.rs:159 | division rounding toward zero, as chrono's `num_days` does: for `a >= 0` the quotient is non-negative and `b*q <= a < b*(q+1)`; for `a < 0` it is non-positive and `b*(q-1) < a <= b*q` |
| `LicenseTypes.WholeDays` | src-tauri/src/license/validator.rs:182 | `num_days`: for a non-negative span, `d` whole days fit and `d+1` do not; for a negative span the count is rounded toward zero |
| `LicenseTypes.ErrorTextInjective` | src-tauri/src/license/types.rs:56-68 | no two different `LicenseError`s have the same display text, including every `ValidationError(m)` ("Erro de validação: " + m) |
| `LicenseTypes.EncodeActivationRequest` | src-tauri/src/license/types.rs:16-21 | the activation request has exactly the keys `key` and `machineCode` |
| `LicenseTypes.EncodeLicenseData` | src-tauri/src/license/types.rs:29-43 | the license record is written under exactly the camel-case keys `id`, `key`, `expires`, `productId`, `premium`, `maxOfflineDays`, `machineCode`, `lastActivation` |
| `LicenseTypes.DecodeLicenseData` | src-tauri/src/license/types.rs:29-43 | a decoded record took `productId` and the `i32` `maxOfflineDays` from their camel-case keys; the optional fields are present exactly when non-null; an object with `product_id` instead of `productId` is refused |
| `LicenseTypes.LicenseDataRoundTrip` | src-tauri/src/license/types.rs:29-43 | decoding an encoded record (with an `i32` day limit and a date format that parses back) gives the record again |
| `LicenseTypes.DecodeLicenseSeq` | src-tauri/src/license/types.rs:29-43 | serde's array form of `LicenseData`: only an array of exactly eight fields decodes; each field is read as under its key, so `productId` is the fourth, the `i32` day limit the sixth, and the optional fields are present exactly when their element is not null |
| `LicenseTypes.SeqAndObjectFormsAgree` | src-tauri/src/license/types.rs:29-43 | an object holding every license key and the array of its values in declaration order decode to the same record, or both fail |
| `LicenseTypes.DecodeLicense` | src-tauri/src/license/types.rs:29-43 | a license value decodes only from an object (`DecodeLicenseData`) or an array (`DecodeLicenseSeq`) |
| `LicenseTypes.DecodeActivationResponse` | src-tauri/src/license/types.rs:23-27 | the object form of the reply decodes exactly when `message` is a string and `license` is absent, null or a decodable license value in either form; the license is `None` exactly when absent or null |
| `LicenseTypes.DecodeActivationSeq` | src-tauri/src/license/types.rs:23-27 | the array form decodes exactly when it is `[message, license]` with a string message and a null or decodable license; the license is `None` exactly when the second element is null |
| `LicenseTypes.DecodeActivationBody` | src-tauri/src/license/validator.rs:77-80 | a reply body decodes only from an object or an array, by the matching form; a string, number, boolean or null is refused |
| `LicenseStorage.LoadResult` | src-tauri/src/license/storage.rs:32-46 | loading succeeds only for a present file in an available directory; a missing file is `NotActivated`, anything else `StorageError` |
| `LicenseStorage.Store.constructor` | src-tauri/src/license/storage.rs:10-20 | the slot starts with the given directory, write permission and file state |
| `LicenseStorage.Store.Load` | src-tauri/src/license/storage.rs:32-46 | returns `LoadResult` of the current state and changes nothing |
| `LicenseStorage.Store.Save` | src-tauri/src/license/storage.rs:22-30 | succeeds exactly when the directory is available and writable; then the file holds the license and loads back as it; on failure `StorageError` and the file is unchanged |
| `LicenseStorage.Store.Delete` | src-tauri/src/license/storage.rs:48-56 | deleting an absent file from an available directory succeeds; after success no license exists and loading reports `NotActivated`; on failure `StorageError` and the file is unchanged |
| `LicenseValidator.HexRoundTrip` | src-tauri/src/license/validator.rs:55 | reading back `width` upper-case hex digits of `n < 16^width` gives `n` |
| `LicenseValidator.MachineCode` | src-tauri/src/license/validator.rs:54-55 | the machine code is "MC-" followed by exactly 16 upper-case hex digits |
| `LicenseValidator.MachineCodeHash` | src-tauri/src/license/validator.rs:54-55 | a code is read back only from the 19-character "MC-" form |
| `LicenseValidator.MachineCodeRoundTrip` | src-tauri/src/license/validator.rs:54-55 | every 64-bit hash is recovered from its code, so different hashes give different codes |
| `LicenseValidator.ExpiryStatus` | src-tauri/src/license/validator.rs:158-165 | for an unexpired license: `NearExpiration(d)` exactly when fewer than 8 whole days remain, with `0 <= d <= 7` the whole days left; otherwise `Valid` |
| `LicenseValidator.OfflineStatus` | src-tauri/src/license/validator.rs:172-197 | `validate_offline`: `Expired` iff `expires < now`; else `OfflineExpired` iff the whole days since the last activation exceed the limit; else `NearExpiration(d)` with `0 <= d <= 7` and `d` the whole days left (`d` days fit before expiry, `d+1` do not), or `Valid` with at least 8 days left; an unexpired license within its offline limit gets exactly `ExpiryStatus` of its expiry; never `NotActivated` |
| `LicenseValidator.OfflineLimitInMillis` | src-tauri/src/license/validator.rs:181-186 | the offline period has run out exactly when `maxOfflineDays + 1` full days (in milliseconds) have passed since the last activation |
| `LicenseValidator.OnlineStatus` | src-tauri/src/license/validator.rs:132-169 | `validate_online` succeeds exactly on an accepted reply, then with `ExpiryStatus` of the expiry: `NearExpiration(d)` with `d` the whole days left and `d <= 7`, else `Valid`; every failure is `NetworkError` |
| `LicenseValidator.Refreshed` | src-tauri/src/license/validator.rs:150-152 | the refreshed license has `last_activation = cached_at = now` and every other field unchanged |
| `LicenseValidator.ValidationOutcome` | src-tauri/src/license/validator.rs:112-129 | errors come only from loading the license; an expired license is `Expired` before any server check; for an unexpired license the result is `ExpiryStatus` of the expiry on an accepted reply and the offline status otherwise; an online success is never `OfflineExpired`; `NearExpiration` days are in 0..7; never `NotActivated` |
| `LicenseValidator.ValidateOnline` | src-tauri/src/license/validator.rs:132-169 | returns `OnlineStatus`; on an accepted reply the stored license is refreshed when the file can be written; a failed save is ignored |
| `LicenseValidator.ValidateLicense` | src-tauri/src/license/validator.rs:112-129 | returns `ValidationOutcome` of what loading returned; only an unexpired, accepted, writable case refreshes the stored license |
| `LicenseValidator.FailedReply` | src-tauri/src/license/validator.rs:75-108 | a transport failure is `NetworkError`; an error status is `ValidationError` carrying the reply text, or "Erro desconhecido" without one |
| `LicenseValidator.ActivationOutcome` | src-tauri/src/license/validator.rs:59-109 | success needs an accepted reply whose body decodes with a license; the result is that license with the local machine code and `last_activation = cached_at = now`; a non-success reply gives `FailedReply`; an accepted reply succeeds exactly when its body decodes, as an object or an array, with a license; a missing body, one that is neither object nor array, or an undecodable one gives `InvalidReply` ("Resposta inválida do servidor") and a decoded reply without a license `NoLicenseData` ("Dados de licença não recebidos") |
| `LicenseValidator.ArrayReplyWithoutLicense` | src-tauri/src/license/validator.rs:76-100 | an accepted array body `["ok", null]` decodes and then fails with "Dados de licença não recebidos" |
| `LicenseValidator.ActivateLicense` | src-tauri/src/license/validator.rs:59-109 | sends `{key, machineCode}` with the local code; returns `ActivationOutcome` of the reply, or `StorageError` when that license cannot be saved; stores and returns the activated license, and stores nothing on any error |
| `LicenseValidator.RenewalOutcome` | src-tauri/src/license/validator.rs:200-243 | succeeds exactly when an accepted reply has a parseable `newExpirationDate`; only `expires`, `last_activation` and `cached_at` change; a missing date gives "Nova data de expiração não recebida" |
| `LicenseValidator.RenewLicense` | src-tauri/src/license/validator.rs:200-243 | a load error is passed through; otherwise returns `RenewalOutcome` of the stored license, or `StorageError` when it cannot be saved; a renewed license is saved and loads back; nothing is stored on any error |
| `LicenseCommands.StatusNameDistinct` | src-tauri/src/license/commands.rs:55-86 | the five status strings are distinct: two statuses share a string only when both are `NearExpiration` |
| `LicenseCommands.StatusResponseOf` | src-tauri/src/license/commands.rs:55-86 | `is_valid` exactly for `Valid` and `NearExpiration`; `days_remaining` is `Some(d)` exactly for `NearExpiration(d)` |
| `LicenseCommands.StatusReply` | src-tauri/src/license/commands.rs:53-98 | a `NotActivated` error becomes the "not_activated" response; every other error becomes its display text; a valid response comes only from `Valid` or `NearExpiration` |
| `LicenseCommands.ValidateCurrentLicense` | src-tauri/src/license/commands.rs:50-99 | replies with `StatusReply` of the validation outcome |
| `LicenseCommands.NoLicenseIsNotAnError` | src-tauri/src/license/commands.rs:89-95 | without a stored license the command succeeds with `is_valid=false`, "not_activated", "Produto não ativado" |
| `LicenseCommands.LicenseInfoReply` | src-tauri/src/license/commands.rs:103-123 | copies the license fields, formats the expiry date and the last activation date the same way, and gives `days_until_expiry` as the whole days to expiry rounded toward zero; a load error becomes its display text |
| `LicenseCommands.GetLicenseInfo` | src-tauri/src/license/commands.rs:103-123 | replies with `LicenseInfoReply` of the stored license |
| `LicenseCommands.CommandReply` | src-tauri/src/license/commands.rs:42-45 | success gives the fixed message; an error gives its display text; the same shape recurs at lines 130-133 and 141-144 |
| `LicenseCommands.ActivateLicenseCommand` | src-tauri/src/license/commands.rs:39-46 | replies with `CommandReply` of the activation result (`ActivationOutcome`, or `StorageError` when the file cannot be written): "Produto ativado com sucesso!" on success, else the error's display text; on success the activated license, bound to this machine, is what loads back; on error nothing is stored |
| `LicenseCommands.RenewLicenseCommand` | src-tauri/src/license/commands.rs:127-134 | replies with `CommandReply` of the renewal result (the load error, `RenewalOutcome`, or `StorageError` when the file cannot be written): "Licença renovada com sucesso!" on success, else the error's display text; on success the renewed license is what loads back; on error the file is unchanged |
| `LicenseCommands.DeactivateLicenseCommand` | src-tauri/src/license/commands.rs:138-145 | succeeds exactly when the license directory is available and the file is absent or writable; on success says "Produto desativado com sucesso!" and no license exists; on error the file is unchanged |
| `LicenseGuard.CheckReply` | src-tauri/src/license/guard.rs:59-85 | `Ok` exactly for `Valid` and `NearExpiration`; the fixed message for each other status; a validation error as "Erro na validação da licença: " + its text |
| `LicenseGuard.Guard.constructor` | src-tauri/src/license/guard.rs:11-16 | the flag starts false |
| `LicenseGuard.Guard.CheckLicense` | src-tauri/src/license/guard.rs:54-86 | without a stored license: "not activated" error, no validation, flag unchanged; otherwise the flag becomes "usable" and the reply is `CheckReply`, so `Ok` iff the flag is set |
| `LicenseGuard.ValidationMessage` | src-tauri/src/license/guard.rs:99-106 | an error reads "Erro: " + its text; `NearExpiration(d)` reads "Licença expira em d dias" |
| `LicenseGuard.ValidationMessageDistinct` | src-tauri/src/license/guard.rs:99-106 | the messages of the statuses without a day count are pairwise different |
| `LicenseGuard.GetValidationMessage` | src-tauri/src/license/guard.rs:94-107 | "Produto não ativado" without a stored license (and no validation); otherwise the message of the validation outcome |
| `LicenseGuard.Middleware` | src-tauri/src/license/guard.rs:111-121 | succeeds exactly when a license is stored |
| `LicenseGuard.MiddlewareIgnoresExpiry` | src-tauri/src/license/guard.rs:111-121 | an expired stored license passes the middleware while the full check refuses it |
| `LicenseGate.Warning` | src/components/LicenseGuard/LicenseGuard.tsx:69 | the banner shows exactly for "near_expiration" with a present, non-zero `days_remaining`, and shows those days |
| `LicenseGate.WarningForBackendStatus` | src/components/LicenseGuard/LicenseGuard.tsx:69 | for a back-end status the banner appears exactly for `NearExpiration(d)` with `d != 0` |
| `LicenseGate.SelectScreen` | src/components/LicenseGuard/LicenseGuard.tsx:34-105 | loading iff `loading && !alreadyVerified`; otherwise error iff an error, not activated and not forced; otherwise activation iff `!canUseApp && !forceShowApp`; the app only when `canUseApp || forceShowApp`, with the deactivate button iff activated and the banner from `Warning` |
| `LicenseGate.Gate.constructor` | src/components/LicenseGuard/LicenseGuard.tsx:13 | `forceShowApp` starts false |
| `LicenseGate.Gate.HandleActivationSuccess` | src/components/LicenseGuard/LicenseGuard.tsx:15-18 | sets `forceShowApp` |
| `LicenseGate.Gate.HandleDeactivate` | src/components/LicenseGuard/LicenseGuard.tsx:20-32 | a declined confirmation leaves the gate, the hook and the runtime (calls, cache, process flag) unchanged; a confirmed one calls `deactivate_license` and leaves the process flag alone; success resets the hook's license state and error, clears `forceShowApp`, empties the cache and shows the activation screen; failure records the error and keeps `forceShowApp`, the cache and the license state |
| `UseLicense.CacheLookup` | src/hooks/useLicense.ts:57-76 | a stored record is served exactly when `now - timestamp <= 300000` |
| `UseLicense.CacheBoundary` | src/hooks/useLicense.ts:66 | a record exactly five minutes old is served; one millisecond later it is not; the five minutes are the constant of line 6 |
| `UseLicense.ErrorMessage` | src/hooks/useLicense.ts:83-97 | the `message` embedded in the error when there is a non-empty one, else the prefix, ": " and the error text |
| `UseLicense.ChecksSent` | src/hooks/useLicense.ts:99-117 | `is_license_activated` first and only once; `validate_current_license` iff activated; `get_license_info` iff activated and the status call succeeded |
| `UseLicense.CheckFailure` | src/hooks/useLicense.ts:127-128 | the failure reported is that of the first call that failed |
| `UseLicense.CheckRecord` | src/hooks/useLicense.ts:118-124 | the cache record is stamped `now`, marked verified, and holds status and info exactly when activated |
| `UseLicense.OneActivationCheck` | src/hooks/useLicense.ts:99-117 | one status check sends exactly one `is_license_activated` |
| `UseLicense.Runtime.constructor` | src/hooks/useLicense.ts:20 | a new process has the flag unset and has made no call |
| `UseLicense.Runtime.Reload` | src/hooks/useLicense.ts:20 | a reload keeps `localStorage` and resets the module flag |
| `UseLicense.Runtime.SaveToCache` | src/hooks/useLicense.ts:49-55 | the slot holds the record stamped `now` |
| `UseLicense.Runtime.LoadFromCache` | src/hooks/useLicense.ts:57-76 | returns `CacheLookup`, and empties the slot when the record is stale or missing |
| `UseLicense.Runtime.ClearCache` | src/hooks/useLicense.ts:78-80 | the slot is empty |
| `UseLicense.Runtime.Send` | src/hooks/useLicense.ts:102 | a back-end call is appended to the call log |
| `UseLicense.LicenseHook.constructor` | src/hooks/useLicense.ts:41-46 | not activated, no status or info, loading, no error, not verified |
| `UseLicense.LicenseHook.CheckActivationStatus` | src/hooks/useLicense.ts:99-132 | sends `ChecksSent`; on success stores `CheckRecord` and clears the error; on failure keeps the cache and records `ErrorMessage`; always ends not loading |
| `UseLicense.LicenseHook.RunAndRecheck` | src/hooks/useLicense.ts:156-190 | the request is sent; on success the status is re-checked, leaving activation, status, info and error exactly as `CheckActivationStatus` does and `alreadyVerified` unchanged, and the cache is emptied; on failure the error is recorded under the given prefix and no license state changes; loading ends false |
| `UseLicense.LicenseHook.Activate` | src/hooks/useLicense.ts:156-173 | sends the trimmed key; on success the hook holds the re-check's activation, status, info and error, as `CheckActivationStatus` leaves them, and the cache is empty; on failure records the error and changes no license state |
| `UseLicense.LicenseHook.Renew` | src/hooks/useLicense.ts:175-190 | on success the hook holds the re-check's activation, status, info and error, as `CheckActivationStatus` leaves them, and the cache is empty; on failure records the error and changes no license state |
| `UseLicense.LicenseHook.Deactivate` | src/hooks/useLicense.ts:192-209 | on success not activated, no status or info, not verified, no error, empty cache and `canUseApp` false; on failure the error only |
| `UseLicense.LicenseHook.ValidateLicense` | src/hooks/useLicense.ts:134-143 | sets the status on success, the error on failure |
| `UseLicense.LicenseHook.FetchLicenseInfo` | src/hooks/useLicense.ts:145-154 | sets the info on success, the error on failure |
| `UseLicense.LicenseHook.FetchMachineCode` | src/hooks/useLicense.ts:211-219 | passes the code through and records a failure as the error |
| `UseLicense.LicenseHook.Mount` | src/hooks/useLicense.ts:224-269 | a fresh verified record is adopted without any call and nothing else changes; otherwise a stale or unparsable record is dropped and, when the process flag is unset, the check runs with the same resulting state, calls, error and cache as `CheckActivationStatus`; with the flag set nothing else changes; afterwards the flag and `alreadyVerified` are set and loading is over |
| `UseLicense.MountAll` | src/hooks/useLicense.ts:224-269 | any number of mounts in one process, each settled before the next starts, send at most one `is_license_activated`, and none when the flag was already set; the module-level flag is declared at line 20 |
| `Settings.Default` | src-tauri/src/db/settings_db.rs:23-42 | id 1, "Meu Projeto", "classic", empty text fields and no blob; validation leaves it unchanged |
| `Settings.ValidName` | src-tauri/src/db/settings_db.rs:280-285 | at most 100 characters; a blank name becomes "Meu Projeto"; a short non-blank name is kept |
| `Settings.ValidPalette` | src-tauri/src/db/settings_db.rs:317-322 | always one of the ten ids; a listed id is kept, anything else becomes "classic" |
| `Settings.ValidateUserSettings` | src-tauri/src/db/settings_db.rs:278-325 | name, Instagram, website, YouTube, phone and email cut to 100/50/200/100/20/100 characters; palette whitelisted; id, paths, blob and times unchanged |
| `Settings.ValidatedWithinLimits` | src-tauri/src/db/settings_db.rs:285-322 | a validated record is within every limit and has a listed palette |
| `Settings.ValidateIdempotent` | src-tauri/src/db/settings_db.rs:280-285 | validating twice equals validating once exactly unless the name is non-blank but blank within its first 100 characters |
| `Settings.SettingsDb.constructor` | src-tauri/src/db/settings_db.rs:59-77 | the database starts with the given row (or none) |
| `Settings.SettingsDb.Connect` | src-tauri/src/db/settings_db.rs:112-144 | a missing row is created with the defaults; an existing row is kept |
| `Settings.SettingsDb.GetUserSettings` | src-tauri/src/db/settings_db.rs:171-235 | returns the validated row, within every limit, without rewriting it |
| `Settings.SettingsDb.SaveUserSettings` | src-tauri/src/db/settings_db.rs:237-264 | the row becomes `SavedRow`: validated input, the old id and creation time, `updated_at = now` |
| `Settings.SettingsDb.UpdatePalette` | src-tauri/src/db/settings_db.rs:266-276 | only the palette (unvalidated) and `updated_at` change |
| `Settings.SavedRow` | src-tauri/src/db/settings_db.rs:237-264 | keeps the stored id and creation time, stamps `now`, and is within every limit |
| `Settings.ReadAfterSave` | src-tauri/src/db/settings_db.rs:234-239 | reading a saved row gives exactly what was saved, unless the name is blank only after the cut |
| `Settings.PaletteNormalisedOnRead` | src-tauri/src/db/settings_db.rs:266-276 | an unlisted palette written by `update_palette` reads back as "classic"; the read side is lines 320-321 |
| `Commands.IsValidImage` | src-tauri/src/commands.rs:180-206 | true iff at least 8 bytes and the data starts with the PNG signature, FF D8 FF, "GIF8", or "RIFF" with "WEBP" at bytes 8..12 |
| `Commands.SignaturesExclusive` | src-tauri/src/commands.rs:185-203 | no data carries two of the four signatures |
| `Commands.SanitizeChar` | src-tauri/src/commands.rs:154 | the result is alphanumeric, '-' or '_', and such characters are kept |
| `Commands.SanitizeCode` | src-tauri/src/commands.rs:151-160 | same character count as the trimmed code, empty iff the code is blank, each character sanitised |
| `Commands.SanitizedIsPlainName` | src-tauri/src/commands.rs:151-163 | a sanitised code has no '.' and no path separator |
| `Commands.SanitizeIdempotent` | src-tauri/src/commands.rs:151-155 | sanitising twice equals sanitising once |
| `Commands.FileName` | src-tauri/src/commands.rs:227 | the last path component: a suffix of the path without separators that is either the whole path or preceded by a separator, so it is the entire component |
| `Commands.FileNameOfChild` | src-tauri/src/commands.rs:162-163 | the file name of `dir/name` is `name` |
| `Commands.NameExtension` | src-tauri/src/commands.rs:226-227 | the extension of a file name has no '.', and the name ends with "." + it after a non-empty stem |
| `Commands.Extension` | src-tauri/src/commands.rs:226-227 | the extension of the last path component has no '.' and no separator |
| `Commands.ExtensionAbsent` | src-tauri/src/commands.rs:226-233 | `Path::extension` is absent exactly for "..", a name without a dot, or a name whose only dot opens it |
| `Commands.ExtensionOfChild` | src-tauri/src/commands.rs:227 | `dir/stem.ext` has extension `ext`; the path is built at lines 162-163 |
| `Commands.ReadImage` | src-tauri/src/commands.rs:209-254 | succeeds exactly for a non-blank path to a file with a supported (lower-cased) extension, at most 10 MiB, with a valid signature, returning its bytes; each failed check, taken in the source's order, gives its own message |
| `Commands.Readable` | src-tauri/src/commands.rs:209-254 | a file passing every check is read back as it is |
| `Commands.ImageName` | src-tauri/src/commands.rs:162-163 | a path built as `dir/stem.ext` is non-blank and has extension `ext` |
| `Commands.UpperCaseExtensionAccepted` | src-tauri/src/commands.rs:228-229 | a ".PNG" file is accepted because the extension is compared in lower case |
| `Commands.ImagePathName` | src-tauri/src/commands.rs:162-163 | the stored image path always has the extension "png" |
| `Commands.SavedImageReadable` | src-tauri/src/commands.rs:209-254 | an image saved under a code reads back through `read_image`; the save side is lines 162-174 |
| `Commands.Orphans` | src-tauri/src/commands.rs:394-414 | the deleted files are files directly in the images folder, not referenced by an item and not locked, and none on a read-only disk |
| `Commands.OrphansGone` | src-tauri/src/commands.rs:394-414 | after the deletion there is no orphan left |
| `Commands.Backups` | src-tauri/src/commands.rs:458-470 | backups are files directly in the backup folder |
| `Commands.InsertNewest` | src-tauri/src/commands.rs:473 | inserting keeps the same elements plus the new one |
| `Commands.InsertOrdered` | src-tauri/src/commands.rs:473 | insertion keeps newest-first order |
| `Commands.InsertDistinct` | src-tauri/src/commands.rs:473 | insertion of a new element keeps the list free of repeats |
| `Commands.SortNewest` | src-tauri/src/commands.rs:473 | the sort is a permutation, newest first, and keeps a repeat-free list repeat-free |
| `Commands.CreateDirs` | src-tauri/src/commands.rs:146-149 | `create_dir_all` of `BrilliantPDF/images`: succeeds iff the images folder already exists as a folder, or is missing on a writable disk with no file at `BrilliantPDF`; creates the missing folder, and its missing parent; no existing entry changes |
| `Commands.WriteImage` | src-tauri/src/commands.rs:146-174 | the write succeeds iff `CreateDirs` succeeds, the disk is writable and the image path is not a folder (so a file at `BrilliantPDF` or at `images` fails it); the file holds the image, both folders exist, an existing file is copied to its backup, and nothing else changes |
| `Commands.Disk.constructor` | src-tauri/src/commands.rs:124 | the disk holds the given tree |
| `Commands.Disk.SaveImage` | src-tauri/src/commands.rs:124-177 | rejects in order an empty image, a blank code, a bad signature and a missing data directory, changing nothing; then "Erro ao criar pasta: …" with nothing changed when `CreateDirs` fails, "Erro ao salvar imagem: …" with only the folders created when the write fails, and otherwise the disk becomes `WriteImage` and the returned path reads back the image |
| `Commands.Disk.StoreImage` | src-tauri/src/commands.rs:146-174 | the disk steps of `save_image`: the error and the resulting tree for a failed `create_dir_all`, for a failed write after it, and for success |
| `Commands.Disk.CleanupOrphanedImages` | src-tauri/src/commands.rs:363-420 | no data directory is an error; a missing images folder gives 0; otherwise deletes exactly `Orphans` and returns their count; referenced files are never touched |
| `Commands.Disk.CleanupOldBackups` | src-tauri/src/commands.rs:457-485 | keeps the `max_backups` newest backups and deletes the others (except locked ones); other files are untouched; a missing folder is an error |
| `Commands.Disk.RemoveAll` | src-tauri/src/commands.rs:476-482 | every listed, unlocked path is removed on a writable disk; nothing else changes |
| `Commands.Listing` | src-tauri/src/commands.rs:458 | a directory listing holds each entry once |
| `Commands.KeepNewest` | src-tauri/src/commands.rs:473-476 | after a newest-first sort, the first `max_backups` entries are the newest ones and the rest are exactly the others |
| `Commands.ImageUpdateStored` | src-tauri/src/commands.rs:277-286 | saving the loaded settings with a new blob stores exactly that change, unless the name is blank only after the cut |
| `Commands.SavePathUpdateStored` | src-tauri/src/commands.rs:522-526 | the same for a new save path |
| `Commands.SaveUserImage` | src-tauri/src/commands.rs:277-286 | the row becomes `SavedRow` of the stored (or default) row and its validated settings with the new image; so the blob is the new image, and unless the stored name is blank only after the cut every other field is the validated stored value and `updated_at` is `now` |
| `Commands.UpdateSavePath` | src-tauri/src/commands.rs:522-526 | the row becomes `SavedRow` of the stored (or default) row and its validated settings with the new save path; so the path is the new one, and unless the stored name is blank only after the cut every other field is the validated stored value and `updated_at` is `now` |
| `Catalog.FindById` | src-tauri/src/db/section_repository.rs:25-38 | `get_section`: `None` iff no section has the id, else a stored section with it |
| `Catalog.FindByName` | src-tauri/src/db/section_repository.rs:40-53 | `get_section_by_name`: `None` iff no section has the name, else a stored section with it |
| `Catalog.ClearOutcome` | src-tauri/src/db/catalog_repository.rs:120-132 | deletes infos, then items, then sections; succeeds iff no delete fails, leaving all three empty; a failure keeps the earlier deletions; the store's constraints still hold |
| `Catalog.ImportSections` | src-tauri/src/db/catalog_repository.rs:74-82 | the old sections stay first, and each file section adds at most one row |
| `Catalog.ImportSectionsContents` | src-tauri/src/db/catalog_repository.rs:74-82 | the names become the union of old and incoming names; every id is an old one or one generated for the file |
| `Catalog.ImportSectionsUnique` | src-tauri/src/db/section_repository.rs:4-13 | with fresh ids, section ids and names stay unique |
| `Catalog.ImportKnownSections` | src-tauri/src/db/catalog_repository.rs:76-78 | sections whose names already exist add nothing |
| `Catalog.ImportItems` | src-tauri/src/db/catalog_repository.rs:85-101 | old items stay first, and each file item adds at most one row |
| `Catalog.ImportItemsContents` | src-tauri/src/db/catalog_repository.rs:85-101 | the codes become the old codes plus those of incoming items whose section id exists in the store; new items point to a stored section and get generated ids |
| `Catalog.FreshAppend` | src-tauri/src/db/item_repository.rs:5-18 | the id generated for the next item differs from every id already in the table |
| `Catalog.AppendUnique` | src-tauri/src/db/item_repository.rs:5-18 | appending an item with a new id and a new code keeps ids and codes unique |
| `Catalog.ImportItemsUnique` | src-tauri/src/db/item_repository.rs:5-18 | item ids and codes stay unique |
| `Catalog.ImportKnownItems` | src-tauri/src/db/catalog_repository.rs:91-99 | items whose codes already exist add nothing |
| `Catalog.ImportInfos` | src-tauri/src/db/catalog_repository.rs:104-115 | old infos stay first, and each file info adds at most one row |
| `Catalog.ImportInfosContents` | src-tauri/src/db/catalog_repository.rs:104-115 | the ids become the union; new rows come from the file; ids stay unique |
| `Catalog.ImportKnownInfos` | src-tauri/src/db/catalog_repository.rs:104-115 | infos whose ids already exist add nothing |
| `Catalog.ImportOutcome` | src-tauri/src/db/catalog_repository.rs:54-118 | a missing, unreadable or malformed file gives its error and leaves the store unchanged; a parsed file without faults imports successfully |
| `Catalog.ImportKeepsConstraints` | src-tauri/src/db/catalog_repository.rs:54-118 | with fresh ids, unique names, codes and ids hold after any import, including a partial one |
| `Catalog.MergeOutcome` | src-tauri/src/db/catalog_repository.rs:74-115 | the merge loops succeed iff no lookup fails, and every table keeps its old rows first |
| `Catalog.MergeKeepsConstraints` | src-tauri/src/db/catalog_repository.rs:74-115 | with fresh ids, the merge loops keep unique names, codes and ids however far they get |
| `Catalog.PreservingImportKeepsRows` | src-tauri/src/db/catalog_repository.rs:69-115 | with `preserve_current`, existing rows stay; on success the section names and info ids become the unions |
| `Catalog.ReplacingImportDropsItems` | src-tauri/src/db/catalog_repository.rs:69-101 | replacing with a file whose sections are re-created imports the sections but no item |
| `Catalog.ImportItemsRemapped` | src-tauri/src/db/catalog_repository.rs:85-101 | the corrected item import, in which items resolve their section through the file's section name: old items stay first, and each file item adds at most one row |
| `Catalog.ImportItemsRemappedContents` | src-tauri/src/db/catalog_repository.rs:85-101 | with the correction, the codes become the old codes plus those of items whose file section's name is in the store, and every new item points to a stored section |
| `Catalog.RemappedReplaceKeepsItems` | src-tauri/src/db/catalog_repository.rs:69-101 | with the correction, a replacing import keeps every item whose section is in the file, pointing to the new sections |
| `Catalog.ItemsOf` | src-tauri/src/db/item_repository.rs:63-80 | `list_items`: exactly the items of the section |
| `Catalog.InfosOf` | src-tauri/src/db/info_repository.rs:56-71 | `list_infos`: exactly the infos of the item code |
| `Catalog.ExportedItems` | src-tauri/src/db/catalog_repository.rs:19-31 | the exported items are exactly the items of some stored section |
| `Catalog.InfosOfAllContents` | src-tauri/src/db/catalog_repository.rs:24-28 | the infos gathered for a list of items are exactly the stored infos whose item code is one of theirs |
| `Catalog.Exported` | src-tauri/src/db/catalog_repository.rs:12-41 | version "1.0.0", the store's sections in order, the items of the stored sections and the infos of those items |
| `Catalog.ReimportExportChangesNothing` | src-tauri/src/db/catalog_repository.rs:8-118 | importing an export with `preserve_current` succeeds and leaves the store as it was |
| `Catalog.ReplaceWithExport` | src-tauri/src/db/catalog_repository.rs:8-118 | replacing with an export loses every item, while the corrected import keeps all their codes |
| `Catalog.CatalogDb.constructor` | src-tauri/src/db/connection.rs:4 | the store holds the given tables |
| `Catalog.CatalogDb.ClearDatabase` | src-tauri/src/db/catalog_repository.rs:120-132 | the reply and new tables are `ClearOutcome` |
| `Catalog.CatalogDb.ImportCatalog` | src-tauri/src/db/catalog_repository.rs:54-118 | the reply and new tables are `ImportOutcome`; the store's constraints hold afterwards |
| `Catalog.CatalogDb.ImportParsed` | src-tauri/src/db/catalog_repository.rs:68-117 | for a parsed file: the optional clear, then the merge loops; the reply and tables are `ImportOutcome` of the parsed file |
| `Catalog.CatalogDb.MergeCatalog` | src-tauri/src/db/catalog_repository.rs:74-117 | the three loops in order; the reply and tables are `MergeOutcome` |
| `Catalog.CatalogDb.MergeSections` | src-tauri/src/db/catalog_repository.rs:74-82 | the section loop: `ImportSections` of the incoming sections, or of those before the failing lookup |
| `Catalog.CatalogDb.MergeItems` | src-tauri/src/db/catalog_repository.rs:85-101 | the item loop: `ImportItems` of the incoming items, or of those before the failing lookup |
| `Catalog.CatalogDb.MergeItem` | src-tauri/src/db/catalog_repository.rs:87-100 | one item is added iff its section exists and its code is new |
| `Catalog.CatalogDb.MergeInfos` | src-tauri/src/db/catalog_repository.rs:104-115 | the info loop: `ImportInfos` |
| `Catalog.CatalogDb.ExportCatalog` | src-tauri/src/db/catalog_repository.rs:8-52 | a write failure gives "Erro ao salvar arquivo: " + its text; otherwise `Exported` of the store |
| `PdfGenerator.AllInfosMembership` | src-tauri/scripts/pdf_generator.py:82-95 | the lines are exactly "name: details" of the infos with non-empty name and details |
| `PdfGenerator.AllInfosAppend` | src-tauri/scripts/pdf_generator.py:86-93 | info lines keep input order |
| `PdfGenerator.GetAllInfos` | src-tauri/scripts/pdf_generator.py:82-95 | the loop builds `AllInfos` |
| `PdfGenerator.InfosOf` | src-tauri/scripts/pdf_generator.py:49 | exactly the infos of the item's code |
| `PdfGenerator.CardsOfMembership` | src-tauri/scripts/pdf_generator.py:46-65 | the cards are exactly those of the items in the section; none iff no item belongs to it |
| `PdfGenerator.CardsOfAppend` | src-tauri/scripts/pdf_generator.py:46-65 | cards keep item order |
| `PdfGenerator.LoadedSections` | src-tauri/scripts/pdf_generator.py:39-73 | at most one group per section, none empty |
| `PdfGenerator.LoadedSectionsAppend` | src-tauri/scripts/pdf_generator.py:43-71 | groups keep section order |
| `PdfGenerator.LoadedSingleSection` | src-tauri/scripts/pdf_generator.py:67-71 | a section with items gives one group with its name and cards; one without items is dropped |
| `PdfGenerator.LoadItems` | src-tauri/scripts/pdf_generator.py:39-73 | the nested loops build `LoadedSections` |
| `PdfGenerator.Chunk3` | src-tauri/scripts/pdf_generator.py:246-247 | `ceil(n/3)` rows, each of 3 slots |
| `PdfGenerator.PresentPad` | src-tauri/scripts/pdf_generator.py:246-247 | padding with `None` keeps the present elements |
| `PdfGenerator.Chunk3ReadBack` | src-tauri/scripts/pdf_generator.py:246-247 | the present slots of the rows, in order, are the input |
| `PdfGenerator.PagesHoldItems` | src-tauri/scripts/pdf_generator.py:246-247 | `ceil(n/9)` pages of 3 row slots, each present row of 3 slots; reading all present slots in order gives the items |
| `PdfGenerator.PresentSlotsAreRows` | src-tauri/scripts/pdf_generator.py:247 | every present page slot is one of the rows |
| `PdfGenerator.CountPages` | src-tauri/scripts/pdf_generator.py:235-286 | the last page number is the cover plus `ceil(n/9)` pages per section |
| `PdfGenerator.WrapWords` | src-tauri/scripts/pdf_generator.py:445-483 | each line fits the limit or is a single word; without empty words the non-empty lines joined by spaces give the text, and only the first line can be empty, exactly when the first word is too long; the wrap is greedy: a non-empty line plus a space plus the first word of the next line is over the limit |
| `PdfGenerator.Digits` | src-tauri/scripts/pdf_generator.py:221 | only digits remain |
| `PdfGenerator.FormattedDigits` | src-tauri/scripts/pdf_generator.py:223 | formatting keeps the digits |
| `PdfGenerator.FormattedFits` | src-tauri/scripts/pdf_generator.py:223 | 10 digits fit "(##) ####-####" and 11 fit "(##) #####-####" |
| `PdfGenerator.PhoneText` | src-tauri/scripts/pdf_generator.py:377-384 | printed iff at least 10 digits, keeping them; 10 and 11 digits formatted, more printed bare; the digit filter is lines 219-224 |
| `PdfGenerator.PalletIndex` | src-tauri/scripts/pdf_generator.py:119-134 | a listed id maps to its position in the settings whitelist, anything else (or nothing) to 0 |
| `PdfGenerator.SettingsPaletteDrawn` | src-tauri/scripts/pdf_generator.py:119-134 | every palette the settings accept is drawn as itself |
| `PdfGenerator.GetLogo` | src-tauri/scripts/pdf_generator.py:139-156 | `image_base64` when non-empty; when it is absent or empty, a non-empty blob as a blob logo; else none |
| `PdfGenerator.ImagePayload` | src-tauri/scripts/pdf_generator.py:316-320 | `split(",")[1]` of a data URL: the text from its first comma up to the next comma or the end, and nothing when it has no comma; other text is taken as is; the same split recurs at lines 499-503 |
| `PdfGenerator.FixPadding` | src-tauri/scripts/pdf_generator.py:325-327 | the input followed by fewer than four '=' to a multiple of 4; the same padding recurs at lines 421-423 and 506-508 |
| `PdfGenerator.FixPaddingShortest` | src-tauri/scripts/pdf_generator.py:325-327 | it is the shortest such extension and is idempotent |
| `CapitalizeUtil.CapitalizeWord` | src/utils/capitalize/index.ts:4 | same length, first character upper-cased, the rest lower-cased; an empty word stays empty |
| `CapitalizeUtil.Capitalize` | src/utils/capitalize/index.ts:1-6 | nothing for a non-string; otherwise same length, and each character upper-cased when it starts the text or follows a space, lower-cased otherwise |
| `CapitalizeUtil.CapitalizeAt` | src/utils/capitalize/index.ts:3-5 | split-map-join agrees with the character-by-character definition |
| `CapitalizeUtil.CapitalizeKeepsWords` | src/utils/capitalize/index.ts:3-5 | the result splits into the capitalised words, so the word count is kept |
| `CapitalizeUtil.CapitalizeKeepsSpaces` | src/utils/capitalize/index.ts:3-5 | spaces stay exactly where they were |
| `CapitalizeUtil.CapitalizeIdempotent` | src/utils/capitalize/index.ts:3-5 | capitalising twice equals capitalising once |
| `Profile.GetInitials` | src/routes/profile.tsx:39-46 | at most two characters, none lower-case |
| `Profile.AvatarInitials` | src/routes/profile.tsx:46 | an empty name gives "U" |
| `Profile.HeadsAreWordStarts` | src/routes/profile.tsx:39-41 | `split(' ').map(n => n[0]).join('')` is the sequence of characters that start a word |
| `Profile.InitialsAreWordStarts` | src/routes/profile.tsx:39-46 | the initials are the first two word starts, upper-cased |
| `Profile.BlankNameHasNoInitials` | src/routes/profile.tsx:39-46 | a name of spaces only gives empty initials |
| `Profile.TwoWordInitials` | src/routes/profile.tsx:39-46 | two words give the upper-cased first letter of each |
| `ImageUpload.CheckFile` | src/hooks/useImageUpload.ts:9-17 | accepted iff the type starts with "image/" and the size is at most 5 MiB; the type is checked first |
| `ImageUpload.SizeLimitInclusive` | src/hooks/useImageUpload.ts:14-17 | exactly 5 MiB is accepted, one byte more is refused |
| `ImageUpload.ImageUploadHook.constructor` | src/hooks/useImageUpload.ts:5-6 | not uploading and no preview URL |
| `ImageUpload.ImageUploadHook.UploadImage` | src/hooks/useImageUpload.ts:8-41 | a refused file changes nothing and calls nothing; an accepted one sets `isUploading` to true and then false whatever happens; the preview URL is set and the row stored only when `save_user_image` succeeds, and then it is the row `Commands.SaveUserImage` writes |
| `ImageUpload.ImageUploadHook.SaveRequest` | src/hooks/useImageUpload.ts:27 | the `save_user_image` call stores the row `Commands.SaveUserImage` writes, whose blob is the new bytes, and leaves the hook's own state alone |
| `ImageUpload.ImageUploadHook.ShowPreview` | src/hooks/useImageUpload.ts:30-32 | `setImageUrl` sets the preview URL and changes nothing else, the stored row included |
| `ImageUpload.ImageUploadHook.EndUpload` | src/hooks/useImageUpload.ts:38-40 | the `finally` block records `setIsUploading(false)` and changes nothing else, the stored row included |
| `ImageUpload.ImageUploadHook.LoadUserImage` | src/hooks/useImageUpload.ts:43-61 | a URL exactly when the call succeeds and the stored image is non-empty; the hook's state is not touched |
| `ImageUpload.ImageUploadHook.ClearImage` | src/hooks/useImageUpload.ts:63-68 | a present URL is revoked and cleared; without one nothing happens |

## Left out

- HTTP, clocks, the file system and SQLite are replaced by inputs: the server's reply, the time, the directory tree and a fault. SQL errors other than the modelled lookup and delete failures are not modelled.
- The hourly re-validation task in `start_validation` (src-tauri/src/license/guard.rs:19-51) is concurrency and is not modelled.
- `DefaultHasher` and the environment values hashed by `get_machine_code` are an input hash; only the "MC-" format is modelled.
- The regular-expression and JSON scan in `extractErrorMessage` is not modelled: the error carries its embedded message, already extracted.
- JSON parsing of the cache record and of the catalog file is abstract: a record is stored or unparseable, a file is parsed or malformed with a message. A JSON `null` or a non-string value in a field the Python script reads is not modelled, and `OrEmpty` stands for `.get(key, '')`.
- Case mapping covers ASCII letters only. JavaScript's `toUpperCase`, Python's `\d` and Rust's `is_alphanumeric` also handle other Unicode characters. `Text.IsAlphanumeric` covers ASCII and Latin-1/Latin Extended letters.
- JavaScript strings are UTF-16. The model counts Unicode scalar values, so `slice`, `charAt` and `length` differ for characters outside the Basic Multilingual Plane.
- `_get_item_image`, base64 encoding and decoding, image decoding and all ReportLab drawing are not part of this model.
- The `settings.json` repository whose value `export_catalog` embeds is a parameter. Serialising the catalog to JSON cannot fail in the model.
- Path normalisation is not modelled: paths are compared as strings.
- `read_image`'s `metadata` and `read` failures ("Erro ao verificar arquivo", "Erro ao ler imagem") are not modelled: an entry of the tree can always be read.
- `migrate_settings_database`, `open_external_url`, `select_save_folder`, the PDF process launch and the other CRUD commands of `commands.rs` are I/O wrappers and are not modelled.
- Catalog import assumes the fresh UUIDs (sections) and ids (items) are distinct from each other and from every stored id, as random v4 UUIDs are in practice.
- `export_catalog`'s query errors are not modelled; only the final write can fail.
- `Catalog.ImportOutcome`: its own contract covers only the error cases and the success reply. The resulting tables are stated by `Catalog.ImportKeepsConstraints`, `Catalog.PreservingImportKeepsRows`, `Catalog.ReplacingImportDropsItems` and `Catalog.ReimportExportChangesNothing`.
- `UseLicense.MountAll`: mounts are sequential, each one's check settled before the next starts. The source sets the module flag only after `checkActivationStatus` resolves (src/hooks/useLicense.ts:242-255), so overlapping mounts (React's `StrictMode` running the effect twice, src/main.tsx:15, or a remount before the first check resolves) each send `is_license_activated`; that interleaving is not modelled.
- `ImageUpload.ImageUploadHook.UploadImage`: `file.arrayBuffer()` and the `Blob`/object URL are not modelled; the URL is an input and the bytes are the file's. The intermediate render while uploading is seen only through the recorded sequence of `setIsUploading` values.
- `Commands.SaveUserImage`, `Commands.UpdateSavePath`: `get_user_settings` and `save_user_settings` cannot fail in the model.
- `Commands.CreateDirs`: the data directory itself is taken to exist as a folder; only `BrilliantPDF` and `images` below it are checked and created.
- `LicenseTypes.DecodeLicenseData`, `LicenseTypes.DecodeActivationResponse`: JSON numbers are integers and objects have distinct keys, so a fractional `maxOfflineDays` (which serde refuses for an `i32`) and a duplicated key (which serde refuses) cannot be written in the model.

## Findings

| source | as written | input that shows it | evidently intended | confidence | as-written member | corrected member |
|---|---|---|---|---|---|---|
| src-tauri/src/db/catalog_repository.rs:69-101 | with `preserve_current=false` the store is cleared and the file's sections are re-inserted under fresh ids, but items are accepted only when their recorded `section_id` exists in the store, so none is | a replacing import of any export that holds items, e.g. one section "Anéis" with one item: afterwards the section exists and the item table is empty | items follow their section by name into the re-created sections | not executed | `Catalog.ReplacingImportDropsItems` | `Catalog.RemappedReplaceKeepsItems` |

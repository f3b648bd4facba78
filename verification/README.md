# wa-monitor core, modelled in Dafny

wa-monitor links WhatsApp accounts to a web dashboard and tracks when chosen
contacts come online. For each linked session it keeps a live chat socket.
It subscribes to the presence of the tracked numbers and logs every
online/offline interval in SQLite. The credentials of each session are
stored encrypted, so a session can be restored after a restart.

This project models the logic between the chat socket and the tables:

- **Auth-state codec.**
  - The JSON replacer/reviver pair (modules `BufferJson`, `Json`, `Base64`). As written, a Node `Buffer` reaches `JSON.stringify` through its own `toJSON` and is written as `{type: 'Buffer', data: [bytes]}`, and the replacer writes a bare `Uint8Array` as `{type: 'Buffer', data: <decimal bytes joined by ','>}`. Only the Node `Buffer` survives the reviver byte-exactly (see "## Findings").
  - The blob stored in `auth_sessions`: `iv(12) ‖ tag(16) ‖ ciphertext`, base64-encoded, or plain base64 of the JSON text when no key is configured (module `AuthCodec`).
- **In-memory auth state.** The two-level key store with its `get`/`set`, and the `toJSON` snapshot (module `KeyStore`).
- **Tables.** Each table is a sequence of rows, and each query is a function over it (modules `SessionStore`, `TrackedNumbers`, `StatusLog`, with the SQL building blocks in `Seqs`). The tables are:
  - `auth_sessions`: upsert by session id; get, latest, pending/linked, all, delete;
  - `trackedNumber`: find-or-create, the per-user queries, recent activity;
  - `statusLog`: the open/close rule of `logStatus`, `getLastSeen`, `getHistory` and the clock formatter.
- **Session layer.** This is `src/utils/whatsapp.js` (module `WhatsApp`):
  - the registry of live sockets and the `initSession` guard;
  - the `connection.update` handler's close, open and QR branches;
  - the presence filter, `subscribe`/`unsubscribe` and each socket's map of tracked numbers;
  - `endSession` and the QR data-URL cache.

  Events arrive one at a time through `WhatsApp.Step`. Phone numbers and JIDs are handled in module `Phone`.
- **Controller.** The request handlers with logic of their own (module `Controller`):
  - the session id they generate;
  - the `statusCache` transitions on start, QR link and credentials;
  - the QR and status replies;
  - the single-use public QR page;
  - the request guards.

  The display formatters are in module `FormatUtils`.

The foreign parts are inputs or abstract functions:

- **AES-256-GCM** is a `seal`/`open` pair. Every lemma that needs it to invert itself takes `AuthCodec.AeadInverts` as a hypothesis.
- **JSON text** is a `stringify`/`parse` pair. Lemmas assume `AuthCodec.TextRoundTrips`.
- **The chat socket.** The outcome of each call into it is an event field or a parameter: presence subscription, logout, profile picture and phone save.
- **Randomness, the clock and the QR image** are parameters as well.

Times are integers: `statusLog` times are whole seconds and the formatters take milliseconds, in place of the `YYYY-MM-DD HH:mm:ss` text the code stores (see "## Left out"). Dafny's `/` by a positive divisor is JavaScript's `Math.floor`. JavaScript's `%` is written out as `StatusLog.JsRem`.

Behaviour of the code that the model keeps as written:

- With `AUTH_ENCRYPTION_KEY` unset the codec only warns and stores plain base64 of the JSON text (src/models/authSessionsModel.js:8-10, 50-51).
- Both `bufferReplacer` functions write a bare `Uint8Array` as its decimal bytes, so it is not read back with its bytes (see "## Findings").
- `logStatus` neither deduplicates repeated "available" events nor clamps a negative duration.
- `logStatus` is keyed by the participant's phone string.
- `getRecentActivityByUserId` joins `statusLog.trackingId` against `trackedNumber.id`, so a log keyed by phone strings matches only a number whose decimal id equals the key. `TrackedNumbers.OwnerOf` models that join as written.

## Model

| member | source | states |
|---|---|---|
| Base64.RoundTrip | src/models/authSessionsModel.js:70-71 | decoding the base64 text of any byte sequence gives back exactly those bytes |
| Hex.RoundTrip | src/controllers/watrackController.js:21 | the hex text of any bytes decodes back to those bytes |
| Hex.Injective | src/controllers/watrackController.js:21 | different bytes never give the same hex text |
| BufferJson.Replace | src/utils/whatsapp.js:27-32 | as written: non-buffers pass unchanged; a buffer becomes a tag whose data is base64 for a Node Buffer but the decimal comma join for a bare Uint8Array |
| BufferJson.ReplaceCorrected | src/models/authSessionsModel.js:12-14 | the replacer its doc comment describes, which the code does not implement: every buffer becomes a tag carrying its base64 text; everything else passes unchanged |
| BufferJson.DecimalJoin | src/utils/whatsapp.js:29 | what `toString('base64')` on a Uint8Array writes: empty exactly for no bytes, otherwise only digits and commas |
| BufferJson.Revive | src/utils/whatsapp.js:37-43 | a value that does not look tagged passes unchanged; a tagged one revives, when it can, to a Node Buffer |
| BufferJson.ReplaceRevive | src/models/authSessionsModel.js:19-39 | reviving the replacer's tag of a Node Buffer gives the same bytes back |
| BufferJson.ReplaceCorrectedRevive | src/utils/whatsapp.js:24-43 | with the replacer the doc comment describes, every buffer of either kind revives to a Node Buffer with the same bytes |
| BufferJson.Stringified | src/models/authSessionsModel.js:48 | what `JSON.stringify` writes holds no buffers at all |
| BufferJson.StringifiedPlain | src/models/authSessionsModel.js:48 | a value without buffers is written as itself, whichever replacer is given |
| BufferJson.NodeBuffersIgnoreReplacer | src/utils/whatsapp.js:28-29 | Node Buffers are written by their own `toJSON` before any replacer sees them, so on them the replacer as written and the intended one agree |
| BufferJson.ReviveNumbers | src/utils/whatsapp.js:40 | the byte array a Node Buffer writes revives element by element, and `Buffer.from` of it gives the bytes back |
| BufferJson.NodeBufferRoundTrip | src/utils/whatsapp.js:37-43 | a Node Buffer, empty included, is written and revived with the same bytes |
| BufferJson.Uint8ArrayRoundTrip | src/models/authSessionsModel.js:12-39 | with the replacer the doc comment describes, a bare Uint8Array, empty included, revives to a Node Buffer with the same bytes |
| BufferJson.BufferRoundTrip | src/utils/whatsapp.js:24-43 | with the replacer the doc comment describes, any buffer is written and revived with the same bytes |
| BufferJson.RoundTrip | src/models/authSessionsModel.js:19-39 | for every value whose buffers are all Node Buffers and that holds no tag-like object, writing with either replacer and reading with the reviver gives the value back |
| BufferJson.AsRead | src/models/authSessionsModel.js:19-39 | what the code reads back for a value: same shape, lengths and keys, scalars unchanged, every buffer a Node Buffer, a Node Buffer's bytes kept and a bare Uint8Array's bytes replaced by the base64 decoding of their decimal join |
| BufferJson.AsReadIdentity | src/models/authSessionsModel.js:19-39 | a value whose buffers are all Node Buffers is read back unchanged |
| BufferJson.AsWrittenRoundTrip | src/models/authSessionsModel.js:19-39 | for every value without tag-like objects, writing with the replacer as written and reading with the reviver gives exactly the value's read-back form, never a failure |
| BufferJson.BareRead | src/models/authSessionsModel.js:19-22 | a bare Uint8Array is written by the replacer as written and revived as the base64 decoding of its decimal join |
| BufferJson.ReadTaggedText | src/models/authSessionsModel.js:34-36 | a tag whose data is a string revives to a Node Buffer of that string's base64 decoding |
| BufferJson.CorrectedRoundTrip | src/models/authSessionsModel.js:12-39 | with the replacer the doc comment describes, every value without tag-like objects comes back with each buffer a Node Buffer of the same bytes |
| BufferJson.DeepCopyIdentity | src/utils/whatsapp.js:50-57 | the deep copy made when seeding an in-memory state changes nothing in a value of Node Buffers without tag-like objects |
| BufferJson.Uint8ArrayLost | src/utils/whatsapp.js:27-32 | as written, a bare Uint8Array [5] is read back as an empty Buffer |
| BufferJson.Uint8ArrayFieldLost | src/models/authSessionsModel.js:19-39 | as written, an object field holding the bare Uint8Array [5] is read back as an empty Buffer |
| AuthCodec.Unframe | src/models/authSessionsModel.js:74-77 | the slices [0,12), [12,28) and [28,end) of a blob of at least 28 bytes have lengths 12, 16 and the rest; a shorter blob yields a short tag and no ciphertext |
| AuthCodec.UnframeFrame | src/models/authSessionsModel.js:59 | slicing the concatenation of a 12-byte iv, a 16-byte tag and a ciphertext gives back exactly those three parts |
| AuthCodec.FrameUnframe | src/models/authSessionsModel.js:74-77 | every blob of at least 28 bytes is the concatenation of its three slices |
| AuthCodec.Plaintext | src/models/authSessionsModel.js:68-82 | without a key the text is the base64 decoding of the blob; a key that is not 32 bytes, or a blob shorter than 28 bytes, is an error |
| AuthCodec.Encrypt | src/models/authSessionsModel.js:46-60 | fails exactly when a key is configured that is not 32 bytes; without a key the blob is the base64 of the text the replacer as written serializes |
| AuthCodec.Seal | src/models/authSessionsModel.js:50-59 | the sealing step fails exactly when a key is configured that is not 32 bytes, and then with the key-length error |
| AuthCodec.Decrypt | src/models/authSessionsModel.js:68-86 | a key that is not 32 bytes gives the key-length error, a keyed blob shorter than iv plus tag fails, and success needs the text to decrypt and parse |
| AuthCodec.NoKeyBlob | src/models/authSessionsModel.js:50-51 | without a key the blob is the plain base64 of the serialized text, and reading it yields that text again |
| AuthCodec.KeyedBlob | src/models/authSessionsModel.js:54-59 | with a valid key the blob decodes to the iv, then the tag, then the ciphertext the cipher sealed from the serialized text |
| AuthCodec.PlaintextOfBlob | src/models/authSessionsModel.js:46-82 | with or without a key, decrypting the blob gives back the serialized JSON text |
| AuthCodec.RoundTrip | src/models/authSessionsModel.js:46-86 | with or without a key, `encrypt` succeeds on a value without tag-like objects and `decrypt` gives back its read-back form: the value itself when its buffers are all Node Buffers, a bare Uint8Array's bytes otherwise replaced by the decoding of their decimal join |
| AuthCodec.EncryptDecrypt | src/models/authSessionsModel.js:46-86 | decrypting an encrypted value gives exactly what the reviver makes of the replacer's output, or the reviver's failure |
| AuthCodec.StoredUint8ArrayLost | src/models/authSessionsModel.js:19-24 | as written, an auth state holding the bare Uint8Array [5] is encrypted and decrypted to one holding an empty Buffer |
| AuthCodec.CorrectedRoundTrip | src/models/authSessionsModel.js:12-14 | with the replacer the doc comment describes, every value without tag-like objects is decrypted with each buffer a Node Buffer of the same bytes |
| AuthCodec.PlainRoundTrip | src/models/authSessionsModel.js:46-86 | a buffer-free value is stored and read back as the reviver reads it |
| AuthCodec.BadKeyLength | src/models/authSessionsModel.js:54-56 | a configured key that is not 32 bytes makes both encrypt and decrypt fail |
| AuthCodec.ShortBlob | src/models/authSessionsModel.js:74-80 | with a key, a blob shorter than iv plus tag cannot be decrypted |
| AuthCodec.NullAuth | src/models/authSessionsModel.js:46-86 | a null auth state is stored as a non-empty blob that decrypts to null |
| KeyStore.Lookup | src/utils/whatsapp.js:65 | a lookup is either a truthy stored entry or null, and a truthy result is the stored entry |
| KeyStore.Get | src/utils/whatsapp.js:62-68 | `get` answers exactly the requested ids, each with its lookup |
| KeyStore.Set | src/utils/whatsapp.js:69-74 | after `set` the categories are the old ones plus those written |
| KeyStore.SetThenGet | src/utils/whatsapp.js:62-74 | after `set(data)`, `get` reads data's entry for every id data sets in that category, and the old entry for every other id |
| KeyStore.NeverSetIsNull | src/utils/whatsapp.js:62-74 | an id that neither the store nor data ever held reads as null |
| KeyStore.SetIdempotent | src/utils/whatsapp.js:69-74 | setting the same data twice equals setting it once |
| KeyStore.Snapshot | src/utils/whatsapp.js:78-81 | `toJSON` holds no buffers, and is the snapshot written with the replacer as it stands in the code |
| KeyStore.SnapshotWith | src/utils/whatsapp.js:78-81 | the snapshot under a replacer holds no buffers, and its creds and keys are the written forms of the credentials and key store |
| KeyStore.InitInMemory | src/utils/whatsapp.js:49-57 | without truthy stored creds the state starts from fresh credentials, and without truthy stored keys from an empty key store |
| KeyStore.ReviveSnapshot | src/utils/whatsapp.js:78-81 | reading a snapshot with the reviver gives the read-back forms of the credentials and key store, and exactly them when their buffers are all Node Buffers |
| KeyStore.ReviveCorrectedSnapshot | src/utils/whatsapp.js:78-81 | with the replacer the doc comment describes, reading a snapshot gives the credentials and keys back with every buffer a Node Buffer of the same bytes |
| KeyStore.ReadStore | src/utils/whatsapp.js:49-57 | the key store as read back is the read-back form of the stored key store |
| KeyStore.RestoreRevived | src/utils/whatsapp.js:50-57 | seeding an in-memory state from an already revived saved state reproduces that state |
| KeyStore.PersistRestore | src/utils/whatsapp.js:49-86 | a state saved through `toJSON` and `encrypt`, then restored through `decrypt` and seeding, is the state's read-back form, and the same state when its buffers are all Node Buffers |
| KeyStore.StoreValueInjective | src/utils/whatsapp.js:49-57 | two key stores with the same JSON value are the same store |
| Seqs.TakeKeepsLargest | src/models/trackedNumbersModel.js:102-103 | a LIMIT on a descending result keeps it sorted, keeps only its rows, and leaves out nothing later than what it keeps |
| StatusLog.NewestOpen | src/models/watrackModel.js:19 | picks an open row of the number with the largest id, or reports that none is open |
| StatusLog.LogStatus | src/models/watrackModel.js:4-42 | "available" appends one open row for the number at now; other statuses add no row; a status other than the two, or "unavailable" with nothing open, changes nothing |
| StatusLog.UnavailableClosesNewest | src/models/watrackModel.js:17-28 | "unavailable" closes only the newest open row of the number, with offline time now and duration the floor of the elapsed seconds; every other row is unchanged |
| StatusLog.DurationExample | src/models/watrackModel.js:25 | online at 100 s and offline at 160 s gives a duration of 60 |
| StatusLog.DurationNotClamped | src/models/watrackModel.js:25 | a clock that moved back gives a negative duration |
| StatusLog.OpenCountAvailable | src/models/watrackModel.js:6-9 | "available" adds exactly one open interval for its number and none for any other |
| StatusLog.OpenCountUnavailable | src/models/watrackModel.js:17-28 | "unavailable" closes exactly one open interval of its number when one is open, and none of any other number |
| StatusLog.AvailableTwice | src/models/watrackModel.js:6-9 | two "available" events in a row leave two more open intervals: nothing deduplicates |
| StatusLog.JsRem | src/models/watrackModel.js:46-47 | JavaScript's remainder: Dafny's for non-negative operands, and always strictly inside (-b, b) |
| StatusLog.ClockFields | src/models/watrackModel.js:44-49 | for d >= 0 the text splits at ':' into three digit fields of at least two characters, worth h, m and s with h*3600 + m*60 + s == d and m, s < 60 |
| StatusLog.ClockText | src/models/watrackModel.js:44-49 | the clock of d >= 0 is its hours, minutes and seconds, each padded to two digits |
| StatusLog.GetLastSeen | src/models/watrackModel.js:79-113 | the latest open interval's online time as online; otherwise the latest offline time as offline; null only for a number without rows |
| StatusLog.LatestOnline | src/models/watrackModel.js:80-87 | none exactly when the number has no open interval; otherwise the online time of one of its open intervals, no earlier than any other |
| StatusLog.LatestOffline | src/models/watrackModel.js:97-104 | none exactly when the number has no closed interval; otherwise the offline time of one of its closed intervals, no earlier than any other |
| StatusLog.GetHistory | src/models/watrackModel.js:60 | exactly the rows of the number, with their multiplicities, ordered by online time descending |
| StatusLog.AvailableThenLastSeen | src/models/watrackModel.js:4-9 | right after "available", `getLastSeen` reports the number online since now |
| FormatUtils.DurationRoundTrip | src/utils/formatUtils.js:1-8 | every duration, a falsy one counting as 0, is recovered from the words `formatDuration` writes |
| FormatUtils.ParseOnlyFormatted | src/utils/formatUtils.js:1-8 | the reader accepts only text `formatDuration` writes: what parses to n is exactly the text written for n |
| FormatUtils.ParseIffFormatted | src/utils/formatUtils.js:1-8 | text reads as n exactly when it is `formatDuration(n)`, which pins "0 min", "<s> sec", "<m> min <r> sec" and the trailing space of "<m> min " |
| FormatUtils.Classify | src/utils/formatUtils.js:11-25 | "Online" exactly for a missing or zero time; otherwise the bucket follows whole minutes, hours and days of the difference, with negative differences as "Just now" |
| FormatUtils.FloorChain | src/utils/formatUtils.js:17-19 | flooring minutes to hours and hours to days equals flooring the milliseconds directly |
| FormatUtils.FormatLastSeen | src/utils/formatUtils.js:11-26 | "Online" exactly when no offline time is given; otherwise "Just now" under a minute, whole minutes under an hour, whole hours under a day, "Yesterday" under two days, whole days after |
| FormatUtils.RenderOnline | src/utils/formatUtils.js:12-25 | only the online bucket reads "Online" |
| Phone.Normalise | src/utils/whatsapp.js:309 | the result starts with "91", ends with the input, and equals the input exactly when the input already starts with "91" |
| Phone.NormaliseIdempotent | src/utils/whatsapp.js:309 | normalising twice equals normalising once |
| Phone.UserPart | src/utils/whatsapp.js:236 | the participant holds no '@' and is a prefix of the presence id |
| Phone.PhoneOfJid | src/utils/whatsapp.js:201 | the number read from a JID holds neither '@' nor ':' |
| Phone.UserPartOfJid | src/utils/whatsapp.js:236 | the participant of a user JID is the number it was built from |
| Phone.PhoneOfDeviceJid | src/utils/whatsapp.js:201 | the number read from `n:d@s.whatsapp.net` is n |
| Phone.PhoneOfPlainJid | src/utils/whatsapp.js:201 | the number read from `n@s.whatsapp.net` is n |
| Phone.ParticipantOfSubscription | src/utils/whatsapp.js:309-310 | presence for a subscribed number comes from its normalised form, which is the key it was stored under exactly when it already starts with "91" |
| SessionStore.Upsert | src/models/authSessionsModel.js:92-99 | afterwards there is exactly one row for the session id, holding the given blob, user and status; the other rows are unchanged and the ids stay unique |
| SessionStore.SaveOrUpdate | src/models/authSessionsModel.js:88-107 | succeeds exactly when encryption does, and then upserts the encrypted blob |
| SessionStore.Open | src/models/authSessionsModel.js:118 | an empty blob reads as a null auth; otherwise the auth is the blob's decryption, and the row fails exactly when decryption does |
| SessionStore.GetSession | src/models/authSessionsModel.js:109-133 | null exactly when no row has the id; a found auth is the opened form of a row with that id, and an error is the failure of opening such a row; when every such row opens, the read succeeds |
| SessionStore.GetLatest | src/models/authSessionsModel.js:135-208 | null exactly when no row of the user (with the required status, for the pending and linked variants) exists; a result or an error comes from opening such a row with the largest updatedAt; when every such row opens, the read succeeds |
| SessionStore.LatestRow | src/models/authSessionsModel.js:139-143 | none exactly when no row is selected; otherwise a selected row no older than any other selected row |
| SessionStore.GetAll | src/models/authSessionsModel.js:210-229 | every row opened, in order; an error exactly when some row fails to open |
| SessionStore.Delete | src/models/authSessionsModel.js:231-238 | only the rows with that id are removed, and the count is 1 if one existed and 0 otherwise |
| SessionStore.SaveThenGet | src/models/authSessionsModel.js:88-133 | a truthy auth without tag-like objects saved for a session is read back in its read-back form, with the given user and status; exactly as saved when its buffers are all Node Buffers |
| SessionStore.SaveNullThenGet | src/models/authSessionsModel.js:88-133 | a session saved with a null auth reads back with auth null although its blob is not empty |
| SessionStore.DeleteThenGet | src/models/authSessionsModel.js:231-238 | after a delete, `getSession` finds nothing for the id |
| TrackedNumbers.FindOrCreate | src/models/trackedNumbersModel.js:10-26 | returns the id of the pair's row; an existing pair leaves the table unchanged, and a new pair adds exactly one row with a fresh id |
| TrackedNumbers.FindOrCreateIdempotent | src/models/trackedNumbersModel.js:12-23 | repeating a pair returns the same id and changes nothing |
| TrackedNumbers.GetTrackedPhoneNumbersByUser | src/models/trackedNumbersModel.js:71-81 | exactly the phone numbers of the user's rows, each once |
| TrackedNumbers.GetTrackingIdByPhoneNumber | src/models/trackedNumbersModel.js:114-125 | the id of some row with that phone under any user, or null exactly when there is none |
| TrackedNumbers.Latest | src/models/trackedNumbersModel.js:52-60 | the log row with the latest online time for the key, or none exactly when the key has no rows |
| TrackedNumbers.GetTrackedNumbersByUser | src/models/trackedNumbersModel.js:34-69 | the user's rows with their multiplicities, createdAt descending, each with its latest interval and online exactly when that interval is open |
| TrackedNumbers.OnlineIffLatestOpen | src/models/trackedNumbersModel.js:46-60 | every tracked number of the user is listed, and online exactly when its latest interval has no offline time |
| TrackedNumbers.ViewsCoverUser | src/models/trackedNumbersModel.js:51-61 | the listed numbers are exactly the user's rows |
| TrackedNumbers.OwnerOf | src/models/trackedNumbersModel.js:100 | the row whose id, in decimal, equals the log key, or none exactly when no id matches |
| TrackedNumbers.Joined | src/models/trackedNumbersModel.js:99-101 | exactly the log rows joined to a tracked number of the user |
| TrackedNumbers.JoinRows | src/models/trackedNumbersModel.js:99-101 | an activity for exactly the given log rows whose tracking id names a number of the user, each carrying that number |
| TrackedNumbers.RecentActivity | src/models/trackedNumbersModel.js:93-102 | those joined rows ordered by online time descending |
| TrackedNumbers.GetRecentActivityByUserId | src/models/trackedNumbersModel.js:91-112 | at most `limit` of those rows, all the user's, online time descending; all of them for a negative or large limit |
| TrackedNumbers.RecentActivityKeepsLatest | src/models/trackedNumbersModel.js:102-103 | an interval of the user that is left out is no later than any that is kept |

| WhatsApp.Client | src/utils/whatsapp.js:272-274 | a socket exactly when the registry holds the session, and it is that session's socket |
| WhatsApp.MetaUser | src/utils/whatsapp.js:151 | a user exactly when one is given and it is not 0 |
| WhatsApp.InitSession | src/utils/whatsapp.js:96-161 | an open socket is returned with nothing changed; otherwise the stale entry is dropped and exactly one new socket is registered, in memory exactly when the auth is truthy, every other socket and registry entry unchanged |
| WhatsApp.OnWsOpen | src/utils/whatsapp.js:100 | once a socket's web socket is open, every session registered to that socket passes the reuse test, and nothing but that socket's open flag changes |
| WhatsApp.RestartDuringQr | src/utils/whatsapp.js:96-102 | a session started again after its web socket opened and a QR code was shown gets the first socket back, with nothing changed |
| WhatsApp.StartClient | src/utils/whatsapp.js:259-261 | a start never fails, and a new socket uses the multi-file store |
| WhatsApp.OnQr | src/utils/whatsapp.js:166-172 | with a code and a callback the data URL is cached under a fresh hex id and the link to it is handed over; otherwise nothing changes |
| WhatsApp.GetQrData | src/utils/whatsapp.js:264-266 | the cached data URL exactly when the id is cached |
| WhatsApp.DeleteQrData | src/utils/whatsapp.js:268-270 | the id reads as absent afterwards and every other id reads as before |
| WhatsApp.QrCacheRoundTrip | src/utils/whatsapp.js:166-172 | the data URL of a QR code can be read back under the id in its link, and not after that id is deleted |
| WhatsApp.SavedAuth | src/utils/whatsapp.js:182-184 | a reconnect only ever starts from a truthy saved auth |
| WhatsApp.CloseHandling | src/utils/whatsapp.js:174-195 | every close drops the session from the registry; loggedOut deletes its row and starts nothing; any other reason starts exactly one in-memory socket when a usable saved auth exists, and none otherwise |
| WhatsApp.CloseSocket | src/utils/whatsapp.js:174-177 | the closed socket is no longer open and its session leaves the registry; sockets, sessions and the socket counter are kept |
| WhatsApp.CloseLoggedOut | src/utils/whatsapp.js:192-194 | a loggedOut close removes the session's row, keeps every other row and starts no socket |
| WhatsApp.CloseReconnects | src/utils/whatsapp.js:179-191 | any other close starts one in-memory socket for the session when a usable saved auth exists, and none otherwise, leaving the saved sessions alone |
| WhatsApp.Subscribe | src/utils/whatsapp.js:301-320 | nothing without a socket or when the lookup fails; otherwise the tracked number is found or created, and only on a successful subscription does the map gain number → {user, id}; no other socket changes |
| WhatsApp.Unsubscribe | src/utils/whatsapp.js:322-340 | goes through the numbers in order with each call's own outcome, and removes exactly the numbers one of whose calls succeeds |
| WhatsApp.FailedAll | src/utils/whatsapp.js:328-338 | a number is kept by the loop exactly when it is listed and every one of its calls fails |
| WhatsApp.RepeatedNumber | src/utils/whatsapp.js:328-338 | a number listed twice leaves when the second call succeeds after the first failed, and stays only when both fail |
| WhatsApp.Remaining | src/utils/whatsapp.js:328-339 | the kept entries are exactly those not among the succeeding numbers, with their old values |
| WhatsApp.UnsubscribeKeepsOthers | src/utils/whatsapp.js:328-339 | succeeding numbers leave the map, and every other entry stays with its value |
| WhatsApp.EndSession | src/utils/whatsapp.js:276-298 | nothing without a socket; otherwise every tracked number is first unsubscribed, so the map keeps exactly the numbers whose unsubscription failed; after a successful logout the session leaves the registry and loses its row, and nothing else leaves either; a failed logout keeps both |
| WhatsApp.StatusOf | src/utils/whatsapp.js:248 | the reported presence when it is non-empty, and otherwise a non-empty default |
| WhatsApp.NotificationsOf | src/utils/whatsapp.js:247-252 | one notification per presence entry, in order, carrying the map's user and id |
| WhatsApp.OnPresence | src/utils/whatsapp.js:235-253 | an untracked participant changes nothing; a tracked one gets one `logStatus` and one notification per entry, in order, and nothing else changes |
| WhatsApp.LogPresences | src/utils/whatsapp.js:247-252 | the entries are logged in order and each yields one notification with its status, "unknown" when absent |
| WhatsApp.Restore | src/utils/whatsapp.js:213-224 | the socket's map ends with one entry per restored number carrying that number's id, whatever `subscribe` did |
| WhatsApp.SubscribeOverwritten | src/utils/whatsapp.js:215-219 | the entry set after `subscribe` hides whatever `subscribe` wrote under that number |
| WhatsApp.RestoredKeys | src/utils/whatsapp.js:213-224 | the restored map's keys are the old keys and the restored numbers, no other |
| WhatsApp.RestoredValues | src/utils/whatsapp.js:213-224 | every restored entry is the old one or comes from a number bearing its key |
| WhatsApp.RestoreTracked | src/utils/whatsapp.js:312-314 | the socket's map is present afterwards with its old entries, and nothing else changes |
| WhatsApp.OnOpen | src/utils/whatsapp.js:196-232 | the socket is open afterwards; when the phone save fails or the saved session has no user the map is unchanged; otherwise it is rebuilt from the user's tracked numbers |
| WhatsApp.RestoreUser | src/utils/whatsapp.js:208-209 | the restored user is non-zero and is the user of the session's row |
| WhatsApp.RestoredCoversUser | src/utils/whatsapp.js:208-224 | after `open` the map has a key for exactly the numbers the user tracks, each with the id of its row |
| WhatsApp.OnCreds | src/utils/whatsapp.js:122-158 | an in-memory socket takes the new credentials and hands its snapshot to `onCreds`; a multi-file socket saves `{creds, keys}` as LINKED, a failed save changing nothing |
| WhatsApp.MultiFileAuth | src/utils/whatsapp.js:144-147 | the saved object has the credentials and an empty keys object |
| WhatsApp.OnKeys | src/utils/whatsapp.js:69-74 | an in-memory socket's key store takes the written keys; a multi-file socket changes nothing the model keeps |
| WhatsApp.Step | src/utils/whatsapp.js:163-253 | each event keeps the state well-formed, and an event for an unknown socket changes nothing |

| Controller.UserTag | src/controllers/watrackController.js:21 | a non-empty tag without '_', which is "anon" exactly when the user is missing or 0 |
| Controller.GenerateSessionId | src/controllers/watrackController.js:20-22 | the user's tag, '_', then twelve lower-case hex digits that decode to the random bytes |
| Controller.SessionIdDetermines | src/controllers/watrackController.js:20-22 | equal session ids come from the same random bytes and the same tag |
| Controller.CreateSession | src/controllers/watrackController.js:24-34 | the new id is saved with a null auth as PENDING and returned; a failed save gives 500 and changes nothing |
| Controller.Start | src/controllers/watrackController.js:36-73 | 400 exactly without a session id; otherwise the cache entry is reset to not connected and PENDING, and `initSession` runs with the saved truthy auth or null and the saved user |
| Controller.OnQrLink | src/controllers/watrackController.js:52-55 | the entry keeps its fields and gains the link; no other entry changes |
| Controller.OnCredsSaved | src/controllers/watrackController.js:56-64 | the entry becomes connected and LINKED with no link, and the credentials are saved as LINKED for the session's user |
| Controller.GetQr | src/controllers/watrackController.js:89-101 | 400 without an id; 200 with the link exactly when the entry has a non-empty one; 202 otherwise |
| Controller.ShownStatus | src/controllers/watrackController.js:107-112 | an uncached session shows PENDING whatever the table says; a cached non-empty status wins; otherwise the saved status, then PENDING |
| Controller.GetStatus | src/controllers/watrackController.js:103-114 | fails exactly when reading the session fails; `linked` exactly when the saved auth is truthy |
| Controller.GetQrPublic | src/controllers/watrackController.js:116-135 | a cached non-empty data URL is served and evicted; otherwise 404 |
| Controller.QrPageSingleUse | src/controllers/watrackController.js:119-134 | after one successful read, a second read of the same id gets 404 and changes nothing |
| Controller.SubscribeRequest | src/controllers/watrackController.js:138-153 | 400 exactly when the session id, user or number is missing; 500 when the lookup fails; otherwise subscribes and reports the tracking id |
| Controller.SubscribeReportsMappedId | src/controllers/watrackController.js:145-148 | the id a successful subscribe reports is the one the socket's map then holds for the number |
| Controller.UnsubscribeRequest | src/controllers/watrackController.js:155-167 | 400 exactly when the session id is missing or the numbers are not a non-empty array; otherwise the string entries are unsubscribed |
| Controller.EndSessionRequest | src/controllers/watrackController.js:75-87 | 400 exactly without an id; otherwise ends the session, 200 unless a socket existed and its logout failed |
| Controller.StartShowsPending | src/controllers/watrackController.js:42 | right after a start, the status reads PENDING whatever the table says |
| Controller.StartThenQr | src/controllers/watrackController.js:52-54 | a QR link issued after a start is what `getQrController` returns |
| Controller.CredsThenStatus | src/controllers/watrackController.js:56-64 | once credentials are saved, the QR reply is 202 again and the status reads linked and LINKED |
| Controller.CreatedIsPending | src/controllers/watrackController.js:24-34 | a session just created reads as not linked, and as PENDING unless the cache already holds a status for its id |

## Left out

- The chat socket: `makeWASocket`, `presenceSubscribe`, `logout`, `profilePictureUrl` and `fetchStatus`. The outcome of each call is an input.
- The multi-file auth store on disk, and the `fs` calls that make or remove `auth_info/<sessionId>`. These are file-system effects outside the model.
- AES-256-GCM itself, `crypto.randomBytes`, `qrcode.toDataURL` and `initAuthCreds`. They are abstract functions or parameters, and the model assumes the cipher and the JSON text syntax invert themselves.
- `moment()` and `Date`. The clock is a parameter, and a presence update uses one clock reading for all its entries.
- Console logging, and the asynchronous interleaving of handlers. Events are handled one at a time, and the `qr` and `connection` parts of one update are separate events.
- SQLite driver errors. Only the failures that decide a branch are modelled: the reads that fail to decrypt, the tracked-number lookup of `subscribe` and the phone save of `open`.
- SQLite type affinity: `statusLog.trackingId` is declared INTEGER, yet holds the phone strings `logStatus` is given. It is modelled as a string.
- `userModel.updateUserPhoneBySession` records only the phone per session (`State.phones`). The `user` table is not part of this model.
- `QR_URL_BASE` (src/utils/whatsapp.js:19) is read from the environment. The model takes the resulting prefix as the parameter `Env.qrBase`.
- `getProfilePicture` (src/utils/whatsapp.js:356-373) only forwards the socket's `profilePictureUrl` for the normalised JID, with a placeholder on failure. It has no logic of its own beyond the socket call, which is outside the model.
- `getTrackedNumbersByUser` also selects the display columns `tn.name` and `tn.profilePicUrl` (src/models/trackedNumbersModel.js:40-41). `TrackedNumbers.View` leaves them out, because no modelled logic reads them.
- WhatsApp.InitSession: the web socket's `readyState` is an event of its own (`WsOpened`) that the model does not tie to any other event, so the model also admits runs where a QR code arrives before it.
- KeyStore.StoreOf: a saved key store is read as an object of objects. A category holding a truthy value that is not an object is dropped, whereas `keys[type] = keys[type] || {}` keeps it and `Object.assign` merges into it (src/utils/whatsapp.js:69-71).
- `Buffer.from` of an array is modelled through `BufferJson.ToUint8` for numbers, booleans and digit strings. JavaScript's ToNumber of other strings (signs, spaces, hex, exponents) and of nested arrays gives 0 here, and `Buffer.from` of an array-like object with a `length` is treated as a throw.
- `isInContacts` and `getContactDetails`. The first refers to an undefined socket and the second only logs.
- The HTTP glue without logic: `getProfilePicController`, `checkInContactsController`, `getHistoryController`, `getLastSeenController`, the routes, the middleware, `server.js` and `src/utils/generics.js`.
- `getStatusController` awaits the session read without a `try`. `Controller.GetStatus` gives `Err` for that rejection; what reply, if any, the web framework then sends is not modelled.
- FormatUtils.FormatDuration: its contract is stated through `FormatUtils.ParseIffFormatted` rather than as an ensures of its own. A text is what it writes for n exactly when the reader, which accepts only the four shapes the code writes, reads it as n.
- WhatsApp.OnClose: its own contract says only that the state stays well-formed. What close does is stated by `WhatsApp.CloseHandling`.
- WhatsApp.Step: states only well-formedness and the unknown-socket case. Each handler it dispatches to carries its own contract.
- StatusLog.FormatClock: its contract is stated through `StatusLog.ClockFields` and `StatusLog.ClockText` rather than as an ensures of its own.
- BufferJson.RoundTrip: the exact round trip holds only for values whose buffers are all Node Buffers. The replacer as written loses the bytes of a bare `Uint8Array`, so for other values `BufferJson.AsWrittenRoundTrip` states what is read back instead.
- AuthCodec.RoundTrip: gives back the value itself only when its buffers are all Node Buffers, for the same reason; otherwise it states the read-back form `BufferJson.AsRead`.
- KeyStore.ReviveSnapshot: the credentials and keys come back exactly only when their buffers are all Node Buffers (`KeyStore.NodeOnly`), for the same reason; otherwise their read-back forms.
- KeyStore.PersistRestore: restores the same state only when its buffers are all Node Buffers, for the same reason; otherwise the read-back state.
- SessionStore.SaveThenGet: reads the auth back exactly only when its buffers are all Node Buffers, for the same reason; otherwise its read-back form.
- JSON numbers are safe integers (below 2^53 in magnitude, which the JSON text round trip assumes). Fractions, `NaN`, `Infinity`, `undefined` fields and `Date` objects, which `JSON.stringify` drops or rewrites, are not modelled.
- `getLatestSessionByUserId`, `getPendingSessionByUserId` and `getLinkedSessionByUserId` call `decrypt` inside the SQLite callback without a `try` (src/models/authSessionsModel.js:147-154). A blob that fails to decrypt is then an uncaught throw, not a rejection of the promise. The model's `Err` stands for that throw.
- `logStatus` stores `moment().format('YYYY-MM-DD HH:mm:ss')` local-time text and computes the duration by parsing it back (src/models/watrackModel.js:5, 25). The model uses whole seconds from one clock parameter. The second clock reading `offlineTimestamp` (src/models/watrackModel.js:24) is never written, so leaving it out changes nothing the code stores.
- The default `limit = 20` of `getRecentActivityByUserId` (src/models/trackedNumbersModel.js:91) is not modelled: `TrackedNumbers.GetRecentActivityByUserId` always takes the limit as an argument, and no handler in this model calls the function.
- `userId` is an integer or missing, although the handlers read it from the request body (src/controllers/watrackController.js:26, 139). A string user containing '_' would put '_' into the session id's tag, so the `'_' !in tag` guarantee of `Controller.UserTag` rests on the integer type.

## Findings

| source | as written | input that shows it | evidently intended | confidence | as-written member | corrected member |
|---|---|---|---|---|---|---|
| src/utils/whatsapp.js:27-32 | `value.toString('base64')` on a bare `Uint8Array` ignores its argument and writes the decimal bytes joined by ','; the reviver then decodes that text as base64 | a `Uint8Array` holding [5] is written as data "5", which base64 decoding reads as no bytes, so it comes back as an empty Buffer | every buffer written as base64 and read back byte-exactly, as for a Node `Buffer` | high, not executed | BufferJson.Uint8ArrayLost | BufferJson.Uint8ArrayRoundTrip |
| src/models/authSessionsModel.js:19-24 | `encrypt` serializes with the same replacer, so a bare `Uint8Array` in an auth state is stored as its decimal bytes | an auth state `{key: Uint8Array [5]}` is encrypted with data "5" and decrypted to `{key: Buffer []}` | the base64 text of every buffer, as the doc comment at lines 12-14 says, so that `decrypt(encrypt(x))` keeps every byte | high, not executed | AuthCodec.StoredUint8ArrayLost | AuthCodec.CorrectedRoundTrip |

# Matrix bot daemon: a verified model

This project models the Matrix side of jfa-go's notification daemon
(`matrix.go`). The daemon logs in as a bot account and reads room events. It
pairs users to private direct rooms by sending them a PIN. It answers the
`!lang` command, and it pushes notifications to paired rooms over plaintext
or end-to-end encryption.

The Go type `MatrixDaemon` keeps four maps, and they are the state modelled
here:

- `tokens`: pending PIN → `UnverifiedUser`;
- `languages`: room → language code;
- `isEncrypted`: room → encryption flag;
- `app.storage.matrix`: room → persisted `MatrixUser` binding.

The model also keeps two logs. `stores` holds every snapshot passed to the
binding store. `outbox` holds every delivery attempted: the room, the
transport, the content, and whether it succeeded.

Modules:

- `MatrixTypes` (`types.dfy`): the records (`MatrixUser`, `UnverifiedUser`,
  `Event`, `Content`, `Delivery`, …).
- `Commands` (`commands.dfy`): `strings.Split(body, " ")`, the `!lang`
  dispatch and the catalog listing. The listing loop is the method
  `BuildListing`.
- `Routing` (`routing.dfy`): transport choice for `send` and `Send`, and the
  fail-fast sequence of deliveries `Send` attempts (`Trace`).
- `DaemonSpec` (`state.dfy`): the daemon state as a value (`DaemonState`)
  and one step function per operation.
- `DaemonProperties` (`properties.dfy`): what the operations promise, proved
  about the step functions for all inputs.
- `MatrixDaemon` (`daemon.dfy`): the class `Daemon`. Its fields are the maps,
  and its methods update them in place the way the Go methods do. Each
  method is proved to leave exactly the state its step function gives.

The model takes these collaborators as parameters:

- the language catalog, a map from code to display name;
- the Go map iteration order, a duplicate-free enumeration of the keys;
- the outcome of creating a room, `RoomResult`, including what enabling
  encryption wrote to the encryption cache;
- the generated PIN;
- the catalog's welcome strings;
- the markdown renderer, a function `string -> string`;
- the rooms whose delivery fails, a set;
- whether the client and the crypto setup could be created, two booleans.

Behaviour one might expect to differ, as the code has it:

- The body is split on single spaces, not on whitespace. So `!lang  fr`
  (two spaces) has three pieces and shows the listing.
- The listing is shown for `!lang`, for `!lang ` and for `!lang` with two or
  more arguments, not only for `!lang` with no argument.
- The listing is always sent in plaintext, even to an encrypted room.
  `SendText` does not go through `send`.
- `Send` stops at the first failing recipient. It does not try the others.
- No check makes the PIN unique. The new token replaces any pending entry
  under the same PIN.
- `handleMessage` works out the room's effective language and passes it to
  `commandLang`, which never uses it.

## Model

| member | source | states |
|---|---|---|
| `Commands.Split` | matrix.go:152 | the pieces contain no space, there is at least one, and joining them with single spaces gives back the body |
| `Commands.SplitUnique` | matrix.go:152 | Split is the only list of space-free pieces that joins back to the body |
| `Commands.ParseNoCommandIff` | matrix.go:152-160 | a body is ignored if and only if it is neither `!lang` nor starts with `!lang ` |
| `Commands.ParseCodeIff` | matrix.go:152-156 | a non-empty code is passed to `commandLang` if and only if the body is `!lang <code>` and the code contains no space |
| `Commands.ParseListingIff` | matrix.go:152-159 | the empty code (the listing) is chosen if and only if the body is `!lang`, is `!lang `, or is `!lang ` followed by text that contains another space |
| `Commands.Parse` | matrix.go:152-160 | the dispatch itself: a first piece `!lang` with exactly two pieces selects the second as the code, with any other count the empty code, otherwise nothing; its meaning is stated by the three lemmas above |
| `Commands.ListingComplete` | matrix.go:165-168 | for any iteration order, the listing is the usage hint followed by exactly one `code: name\n` line per entry of the order, which has one entry per catalog code, so every code appears once and nothing else follows |
| `Commands.Listing` | matrix.go:165-168 | the accumulated listing text; it always starts with `!lang <lang>\n` |
| `Commands.ListingShape` | matrix.go:165-168 | the listing built by appending equals the hint followed by the codes' lines concatenated front to back |
| `Commands.IterationOrderLength` | matrix.go:166 | an iteration order over the catalog has exactly as many entries as the catalog has codes |
| `Commands.BuildListing` | matrix.go:165-168 | the accumulation loop produces exactly the listing of the codes in iteration order |
| `Routing.ViaPlaintextIff` | matrix.go:240-245 | a recipient gets plaintext if and only if neither its binding nor the room cache marks it encrypted; an encrypted cache entry always wins |
| `Routing.Route` | matrix.go:241-245 | `send`'s choice: encrypted when the room's cached flag is present and true, plaintext otherwise (stated by ViaPlaintextIff and StickyEncryption) |
| `Routing.Via` | matrix.go:267-271 | `Send`'s choice per recipient: encrypted for an encrypted binding, otherwise `send`'s choice (stated by ViaPlaintextIff) |
| `Routing.TraceFailFast` | matrix.go:266-276 | recipients are tried in order, each with its own transport; every attempt but the last succeeded; it stops early only right after a failure, so later recipients are never tried |
| `Routing.TraceNoErrorIff` | matrix.go:266-276 | `Send` returns no error if and only if every recipient is reachable |
| `Routing.TraceFirstError` | matrix.go:266-276 | when recipient k is the first unreachable one, `Send` returns k's room as the error |
| `Routing.Trace` | matrix.go:266-276 | the attempts `Send` makes; there are never more than recipients (order and stopping stated by TraceFailFast) |
| `Routing.BuildContent` | matrix.go:253-265 | the body is always the plain text; the formatted body is the rendered markdown when the markdown is non-empty and empty otherwise; the HTML format is set exactly when the formatted body is non-empty |
| `DaemonSpec.StartMillis` | matrix.go:77 | the start time is the clock's nanoseconds in milliseconds, truncated toward zero as Go divides |
| `DaemonSpec.EffectiveLanguage` | matrix.go:146-151 | the language is `en-us` or a catalog code; it differs from `en-us` only when it is the room's cached code; a cached catalog code is always chosen |
| `DaemonSpec.SeedCaches` | matrix.go:88-93 | the seeding loop changes only the two caches |
| `DaemonSpec.Dropped` | matrix.go:139-144 | the filter: events from before the start or sent by the bot (stated by DroppedEventChangesNothing) |
| `DaemonSpec.HandleMessage` | matrix.go:138-161 | handling an event never touches tokens, the encryption cache or the set of persisted rooms, and sends at most one message |
| `DaemonSpec.CommandLang` | matrix.go:163-189 | `!lang` never touches tokens, the encryption cache or the set of persisted rooms, and sends at most one message |
| `DaemonSpec.CreateRoom` | matrix.go:191-205 | creating a room changes only the encryption cache, and only at the new room |
| `DaemonSpec.SendToRoom` | matrix.go:240-250 | `send` adds exactly one delivery, to the given room, changes nothing else, and reports no error exactly when the room is reachable |
| `DaemonSpec.SendStart` | matrix.go:207-238 | pairing start leaves languages and storage alone, changes the encryption cache only as room creation does, and succeeds only when a room was created |
| `DaemonSpec.SendAll` | matrix.go:252-277 | `Send` only appends to the outbox, at most one delivery per recipient |
| `DaemonProperties.SeededCaches` | matrix.go:88-93 | with bindings filed by room and empty caches, seeding gives every persisted room its encryption flag and every room with a non-empty language that language, whatever the order |
| `DaemonProperties.DroppedEventChangesNothing` | matrix.go:139-144 | an event older than the start, or sent by the bot, changes no map and sends nothing |
| `DaemonProperties.OtherTextChangesNothing` | matrix.go:152-160 | a body that is not a `!lang` command changes nothing and sends nothing |
| `DaemonProperties.LangCodeRoundTrip` | matrix.go:152-156 | `!lang <code>` with a catalog code sets the room's cached language to that code, other rooms unchanged, and it becomes the room's effective language |
| `DaemonProperties.UnknownCodeChangesNothing` | matrix.go:178-180 | `!lang <code>` with a code outside the catalog changes nothing and sends nothing |
| `DaemonProperties.ListingRequests` | matrix.go:155-159 | `!lang`, `!lang ` and `!lang a b` all take the listing path |
| `DaemonProperties.ParseExamples` | matrix.go:152-160 | how `!lang`, `!lang `, `!lang fr`, `!lang a b`, `!lang  fr`, `!language` and `hi !lang` are dispatched |
| `DaemonProperties.ListingReply` | matrix.go:164-177 | the listing path adds exactly one plaintext message to the event's room; its body is the listing, that is the usage hint then one line per catalog code with each code once; no map is touched |
| `DaemonProperties.ListingScenario` | matrix.go:165-168 | with catalog `en-us: English`, `fr: French`, the listing contains both lines and the hint, in either order, and the order has two entries |
| `DaemonProperties.ListingOfTwo` | matrix.go:165-168 | a catalog of two distinct codes is listed, in either order, with the hint and both lines over an order of two entries |
| `DaemonProperties.UnknownCodeIgnored` | matrix.go:178-180 | `commandLang` with an unknown non-empty code leaves the whole state unchanged |
| `DaemonProperties.KnownCodeUpdates` | matrix.go:181-188 | a known code sets only the room's cache entry; a persisted binding of the room gets that `Lang` with its other fields kept, and is stored exactly once; without one, storage is untouched and nothing is stored; tokens, encryption flags and outbox are unchanged |
| `DaemonProperties.StartWithoutRoom` | matrix.go:208-212 | if room creation fails, the result is false and nothing changes |
| `DaemonProperties.StartRegistersPin` | matrix.go:202-237 | the PIN maps to an unverified `en-us` binding for the room, replacing any earlier entry; the encryption cache is as room creation left it; one welcome message containing the PIN goes to the room over the transport that cache selects; the result is whether that send succeeded; the token stays either way |
| `DaemonProperties.StartPlaintextScenario` | matrix.go:213-231 | a room unknown to the cache and left so by room creation, where encryption could not be enabled, gets its welcome in plaintext and an unencrypted pending binding |
| `DaemonProperties.StartEncryptedScenario` | matrix.go:202-231 | a room whose encryption was enabled and recorded in the cache gets its welcome encrypted and an encrypted pending binding |
| `DaemonProperties.SendAllOutcome` | matrix.go:266-276 | `Send` appends only its fail-fast attempts, at most one per recipient and in order; it reports no error if and only if all recipients are reachable, and then tries them all |
| `DaemonProperties.StepsPreserveInvariants` | matrix.go:138-276 | handling events and sending never change the encryption cache or the set of persisted rooms; pairing start changes the cache at most at the new room, and no true flag turns false unless that room was already cached and creation recorded it as unencrypted; every pending pairing stays unverified and in `en-us` |
| `DaemonProperties.StickyEncryption` | matrix.go:240-276 | once the cache marks a room encrypted, `send` and `Send` reach it only through the encrypted transport |
| `MatrixDaemon.Daemon.constructor` | matrix.go:70-78 | the daemon starts with empty maps and its start time in milliseconds |
| `MatrixDaemon.Daemon.SeedCaches` | matrix.go:88-93 | the in-place seeding loop leaves the state `DaemonSpec.SeedCaches` gives |
| `MatrixDaemon.Daemon.HandleMessage` | matrix.go:138-161 | filtering, splitting and dispatch leave the state `DaemonSpec.HandleMessage` gives |
| `MatrixDaemon.Daemon.CommandLang` | matrix.go:163-189 | the in-place updates leave the state `DaemonSpec.CommandLang` gives |
| `MatrixDaemon.Daemon.CreateRoom` | matrix.go:191-205 | returns the created room's id and encryption flag, and applies the encryption helper's write to the cache, as `DaemonSpec.CreateRoom` gives |
| `MatrixDaemon.Daemon.SendStart` | matrix.go:207-238 | the token registration and the welcome send leave the state and result `DaemonSpec.SendStart` gives |
| `MatrixDaemon.Daemon.SendToRoom` | matrix.go:240-250 | one delivery over the transport the cache selects, with its error |
| `MatrixDaemon.Daemon.SendEncrypted` | matrix.go:242 | the encryption gateway's send appends one encrypted delivery and reports its failure |
| `MatrixDaemon.Daemon.SendToUser` | matrix.go:267-271 | one recipient is tried over its own transport (the binding's flag, else the cache's) and its error returned |
| `MatrixDaemon.Daemon.Send` | matrix.go:252-277 | the recipient loop with early return leaves the outbox and error `DaemonSpec.SendAll` gives |
| `MatrixDaemon.NewMatrixDaemon` | matrix.go:66-96 | the new daemon has seeded caches when its client could be made, empty caches otherwise; it is ok only when the client and crypto setup both succeed |

## Left out

- `generateAccessToken`, `run` and `Shutdown` (login, the long-poll sync loop, stopping sync and closing the shutdown channel) are network I/O and concurrency.
- `CreateRoom` calls the homeserver client and the encryption helper `EncryptRoom`, whose code is not part of this model. Their outcome is the `RoomResult` parameter. Its `effect` field says what `EncryptRoom` left in `isEncrypted` for the new room: nothing, or some flag. The model does not assume which.
- `InitMatrixCrypto`, `SendEncrypted`, `CryptoShutdown` and `HandleSyncerCrypto` live outside this file. Encrypted delivery is an outbox entry whose outcome comes from the failure set, and crypto setup is a boolean.
- A delivery's outcome depends only on its room (the failure set). Transport errors that vary between the two transports or between two sends to one room are not modelled.
- Markdown rendering and the `![` → `[` rewrite before it are one opaque `render` function. The model records only how its output fills the content.
- The catalog's contents, the welcome and language-help template strings, and `genAuthToken`'s randomness are parameters.
- `storeMatrixUsers` is recorded as the snapshot it receives. Its error is only logged by the source, so it has no effect on the state and is not modelled.
- Logging, the debug `fmt.Printf`, the `matrixFilter` constant and configuration lookups are not modelled.
- Concurrent access to the unsynchronised maps is not modelled. Each operation is one sequential, atomic step.
- The message type (`m.text` everywhere) and the event type are not modelled. Only `m.room.message` events reach `handleMessage`.
- A body field that is not a string makes the source's type assertion panic. `BodyReadable` is a precondition of `HandleMessage` for this reason: every event that passes the filters must have a textual body.
- PIN verification and removal happen outside this file, so pending tokens are never confirmed or removed here.

# message-mod submission path, modelled in Dafny

This project models the core of a Fabric mod that lets a player type a
short message on the client. The mod sends the message to the server in a
custom packet and stores it, with the player's UUID, through Hibernate.
Three pieces of the mod's own logic are modelled:

- **The server receiver and the payload codec** (`NetworkHandler`), in
  `handler.dfy` and `codec.dfy`. The receiver parses the protobuf message
  and cuts a text longer than 256 UTF-16 code units to its first 256. When
  the database is initialized it saves `(player UUID, text)` and sends the
  success notice. Otherwise it sends the "database unavailable" notice. A
  parse failure gives the processing-error notice. The codec frames the
  payload bytes with a VarInt length and then exactly that many bytes.
- **The database manager** (`DatabaseManager`), in `database.dfy`. It is a
  singleton that holds no factory, an open factory, or a closed factory.
  The start and stop hooks of `MessageMod` drive it, in `lifecycle.dfy`.
- **The client submit path** (`MessageScreen`), in `screen.dfy`. The field
  text is trimmed the way `String.trim` does it. A blank field is a no-op.
  Otherwise one payload is sent and the screen closes. The Enter key takes
  this path when the text field does not consume it.

`scenarios.dfy` puts the pieces together end to end.

Texts are sequences of UTF-16 code units (`Base.JString`), because Java's
`length`, `substring` and `trim` count code units. Java `int` and `byte`
are newtypes of their exact ranges.

The following are parameters of the model: the protobuf parser and
serializer, `MessageRepository.save`, building the session factory,
`ClientPlayNetworking.send` and the probe `testConnection`. Each one can
succeed or fail. The sender's UUID is supplied by the server context and
is never read from the payload.

Behaviours of the code worth knowing, all of which the model keeps:

- A `save` that throws is not caught by the receiver. Only
  `InvalidProtocolBufferException` is caught. So no error notice is sent
  for a store failure; the exception escapes to the server's task runner.
- The result of `testConnection` at start-up is only logged. It does not
  turn submissions on or off.
- The screen closes only after `send` has returned. If building the
  message or sending throws, the screen stays open.
- `initialize` replaces a stored factory without closing it.

## Model

| member | source | states |
|---|---|---|
| Codec.Encode | src/main/java/com/example/messagemod/network/NetworkHandler.java:75-78 | the encoder writes a length prefix equal to the number of bytes that follow it, and those bytes are the payload's data |
| Codec.Decode | src/main/java/com/example/messagemod/network/NetworkHandler.java:79-84 | decoding fails exactly when the VarInt is unreadable, the length is negative (one error each), or more bytes are declared than remain (`Truncated`); on success the payload has the declared length and payload plus unread bytes are the whole body |
| Codec.EncodeThenDecode | src/main/java/com/example/messagemod/network/NetworkHandler.java:74-85 | decoding what the encoder wrote, with any bytes after it, returns the same payload and leaves exactly the following bytes unread |
| Codec.DecodeThenEncode | src/main/java/com/example/messagemod/network/NetworkHandler.java:74-85 | whenever decoding succeeds, the buffer was the encoding of the decoded payload followed by the unread bytes |
| Handler.Truncate | src/main/java/com/example/messagemod/network/NetworkHandler.java:37-40 | the kept text is a prefix of the received text of length min(length, 256) |
| Handler.TruncateIdempotent | src/main/java/com/example/messagemod/network/NetworkHandler.java:37-40 | a text of at most 256 code units passes the length check unchanged, so cutting twice is cutting once |
| Handler.Receive | src/main/java/com/example/messagemod/network/NetworkHandler.java:28-65 | a parse failure gives only the processing-error notice; at most one record and one notice per payload; a record is committed only for a parsed text on an initialized database, with the server-side sender and the text cut to 256; an uninitialized database gives only the unavailable notice; on an initialized database a record is committed iff `save` of the sender and the cut text returns; the success notice is sent iff a record was committed, after it; a save that throws gives no record and no notice, and its exception escapes; a throwing save happens only on an initialized database; `getSessionFactory` never throws there; the manager is left as `getInstance` finds it |
| Handler.ReceiveAllBounds | src/main/java/com/example/messagemod/network/NetworkHandler.java:28-65 | over any run of deliveries there are no more records than deliveries, every record's UUID is one of the senders, and no stored text exceeds 256 |
| Database.GetInstance | src/main/java/com/example/messagemod/database/DatabaseManager.java:19-24 | the returned manager is the stored instance; once one exists nothing changes; a new instance has no factory; the constructor runs at most once |
| Database.GetInstanceStable | src/main/java/com/example/messagemod/database/DatabaseManager.java:19-24 | a second `getInstance` returns the same manager and creates nothing |
| Database.Initialize | src/main/java/com/example/messagemod/database/DatabaseManager.java:26-48 | it throws iff the build fails; a successful build stores a new open factory so the manager is initialized; a failed build leaves the manager as it was |
| Database.GetSessionFactory | src/main/java/com/example/messagemod/database/DatabaseManager.java:50-55 | it throws iff no factory is stored, and otherwise returns the stored factory, closed or not |
| Database.IsInitialized | src/main/java/com/example/messagemod/database/DatabaseManager.java:57-59 | initialized iff `getSessionFactory` would return a factory that is not closed |
| Database.Shutdown | src/main/java/com/example/messagemod/database/DatabaseManager.java:61-67 | afterwards the manager is not initialized; an open factory is closed and kept; with no factory or a closed one nothing changes; `getSessionFactory` succeeds afterwards iff it did before |
| Database.ShutdownIdempotent | src/main/java/com/example/messagemod/database/DatabaseManager.java:61-67 | shutting down twice is the same as shutting down once |
| Database.PhaseQueries | src/main/java/com/example/messagemod/database/DatabaseManager.java:50-59 | `isInitialized` holds exactly in the ready phase, and `getSessionFactory` throws exactly in the uninitialized phase |
| Database.ApplyFollowsStep | src/main/java/com/example/messagemod/database/DatabaseManager.java:26-67 | `initialize` and `shutdown` move the manager as the three-state table uninitialized / ready / closed says |
| Database.ApplyAllFollowsStepAll | src/main/java/com/example/messagemod/database/DatabaseManager.java:26-67 | every run of `initialize` and `shutdown` calls follows the three-state table |
| Database.FactoryNeverForgotten | src/main/java/com/example/messagemod/database/DatabaseManager.java:50-55 | once a factory is stored, `getSessionFactory` keeps succeeding whatever runs afterwards, `shutdown` included |
| Lifecycle.OnServerStarting | src/main/java/com/example/messagemod/MessageMod.java:21-41 | the start hook never throws; afterwards the manager is initialized iff the build succeeded or it already was; the manager afterwards is exactly what `initialize` with that build makes of it, so a successful start stores the factory it built and the probe's answer changes nothing |
| Lifecycle.OnServerStopping | src/main/java/com/example/messagemod/MessageMod.java:43-46 | the manager afterwards is exactly `shutdown` of the one before, so it is not initialized and a stored factory is kept, now closed |
| Lifecycle.RunKeepsSingleton | src/main/java/com/example/messagemod/database/DatabaseManager.java:19-24 | however many times the server starts and stops, the manager is constructed at most once |
| Lifecycle.StopIdempotent | src/main/java/com/example/messagemod/MessageMod.java:43-46 | running the stop hook twice is the same as running it once |
| Lifecycle.RestartAfterStop | src/main/java/com/example/messagemod/MessageMod.java:21-46 | after a stop, a start makes the manager initialized iff its build succeeds |
| Screen.LeadingBlanks | src/main/java/com/example/messagemod/client/gui/MessageScreen.java:75 | `trim`'s forward scan skips only code units up to U+0020 and stops at the first other one |
| Screen.TrailingBlanks | src/main/java/com/example/messagemod/client/gui/MessageScreen.java:75 | `trim`'s backward scan drops only code units up to U+0020 and stops at the last other one |
| Screen.Trim | src/main/java/com/example/messagemod/client/gui/MessageScreen.java:75 | the trimmed text is empty iff the field holds only code units up to U+0020, and otherwise starts and ends with a code unit above U+0020 and is the slice between the two scans' stopping points |
| Screen.LeadingBlanksStopsAt | src/main/java/com/example/messagemod/client/gui/MessageScreen.java:75 | the forward scan stops exactly at the first code unit above U+0020 |
| Screen.TrailingBlanksStopsAt | src/main/java/com/example/messagemod/client/gui/MessageScreen.java:75 | the backward scan stops exactly at the last code unit above U+0020 |
| Screen.TrimIsTrimmedSlice | src/main/java/com/example/messagemod/client/gui/MessageScreen.java:75 | any slice with only blanks outside it and no blank at its ends is exactly what trimming returns |
| Screen.TrimIdempotent | src/main/java/com/example/messagemod/client/gui/MessageScreen.java:75 | trimming a trimmed text changes nothing |
| Screen.OnSendButtonPressed | src/main/java/com/example/messagemod/client/gui/MessageScreen.java:74-98 | a blank field sends nothing and keeps the screen; at most one payload is sent, iff the trimmed text is non-empty, serializing returns and the send returns; the payload carries the serialized trimmed text; the screen closes iff the payload was sent |
| Screen.KeyPressed | src/main/java/com/example/messagemod/client/gui/MessageScreen.java:115-128 | the submit path runs iff the key is Enter (257) and the text field did not consume it, and then it is exactly the send button's path; a key the field or the submit path took counts as handled |
| Screen.SentTextFitsField | src/main/java/com/example/messagemod/client/gui/MessageScreen.java:39 | with the field capped at 256, the trimmed text sent is at most 256 code units |
| Scenarios.SubmittedTextIsStored | src/main/java/com/example/messagemod/client/gui/MessageScreen.java:74-98 | a non-blank field sent to an initialized server whose save returns closes the screen, and the server stores exactly one record of the sender's UUID and the trimmed text, then sends the success notice |
| Scenarios.BlankSubmitSendsNothing | src/main/java/com/example/messagemod/client/gui/MessageScreen.java:77-80 | a blank field makes no network call and keeps the screen open |
| Scenarios.OverlongTextIsCut | src/main/java/com/example/messagemod/network/NetworkHandler.java:37-47 | a 300-code-unit text of `a`s reaching an initialized server is stored as exactly 256 `a`s |

## Left out

- The VarInt byte layout of `writeVarInt` / `readVarInt` belongs to the host buffer. A `Codec.Frame` holds the value the reader yields, or `None` when it cannot read one.
- Protobuf serialization and parsing are parameters. `MessageProto` is not part of this model.
- `MessageRepository` (Hibernate sessions, transactions, rollback, `SELECT 1`) is not part of this model. `save` is a parameter that returns or throws. The model assumes a throwing save committed nothing. In the repository a `close()` that throws after a successful commit would make `save` throw with the row already stored.
- `MessageEntity` is reduced to `Handler.Record` (UUID and text). The database assigns the id, which is not modelled.
- Rendering, layout and widget construction in `MessageScreen` (`init`, `render`, `charTyped`, `mouseClicked`, `close` beyond "the screen is closed") are host UI.
- What the text field and the inherited `Screen.keyPressed` do with a key are parameters of `Screen.KeyPressed`.
- `MessageModClient` (the key binding and tick loop that open the screen) is host plumbing.
- Payload registration and the hand-off from the network thread to the server thread (`server.execute`) are host plumbing and a concurrency concern. The model runs the receiver body directly.
- Memory is not modelled. The decoder allocates `new byte[length]` before `readBytes` checks the readable bytes, so a short frame declaring close to 2^31 bytes first asks for a 2 GiB array; the model reports `Truncated` at once.
- Logging is not modelled. The chat notices are named, not spelled out.

# Realtime presence and fan-out of the pulse chat backend, in Dafny

This project models the core of the pulse chat server. It covers five parts:

- **Connection registry** (`socket_manager.dfy`, module `SocketManager`). This is the process-wide
  map from a user id to that user's live socket ids, with `addSocket`, `removeSocket`,
  `getUserSockets` and `broadcastToUser`. The map is the field `userSocketMap` of a `Registry`
  object. A JavaScript `Set` iterates in insertion order and never holds a value twice, so each
  user's sockets are a sequence without duplicates. The socket.io server is a `SocketServer`
  object. Its `emitted` log records every emission (socket id, event, payload) in order.
- **Socket gateway** (`gateway.dfy`, module `SocketGateway`). It covers the connect handler:
  choosing the credential, then either sending one connection-error event or registering the
  socket under the resolved user. It also covers the private-message relay, the disconnect
  cleanup, and `emitSocketEvent`. The participant-notification loop of the chat controller is
  included as a client of `emitSocketEvent`.
- **Helpers** (`helpers.dfy`, module `Helpers`). These are `generateOtpNumber` (its random
  draws are a parameter), `getAttachmentType`, `getLocalPath` and `getStaticFilePath`.
- **Message schema** (`message_model.dfy`, module `MessageModel`). It covers the attachment
  type enumeration, the required attachment fields, the "content or at least one attachment"
  validator, the reaction emoji limit, and the `isRead` membership test.
- **OTP lifecycle** (`otp_controller.dfy`, module `OtpController`). `generateOtp`, `resendOtp`
  and `verifyOtp` are methods of an `OtpTable` object that holds the OTP records. The current
  time is a parameter. So are the answers of the user lookup, the SMS provider and the token
  issuer.

`wrappers.dfy` holds `Option`, `Result` and JavaScript truthiness of an optional string.

Main results:

- **Registry invariant.** No user maps to an empty collection, and no socket id is listed
  twice. `Registry.Valid`, `AddTo` and `RemoveFrom` state this.
- **History lemma.** After any history of add and remove calls, a user's sockets are exactly
  those added and not removed since (`ReplayHoldsLiveSockets`).
- **Fan-out.** A fan-out reaches each socket of the user exactly once and forwards the event
  and payload unchanged (`FanoutReachesEachSocketOnce`).
- **Relay.** A relayed private message reaches each socket of the target once and each socket
  of the sender once, and no other socket (`RelayReachesTargetAndSenderOnly`). So a message a
  user sends to themself reaches each of their sockets twice.
- **OTP table.** Each handler preserves the property that a number has at most one live
  (unverified, unexpired) record. Under that property, `findOne` with a number and code has
  only one candidate (`FindOneIsForced`).

Where the design description and the code differ, the model follows the code:

- A refused connection gets the error event, but the socket is not disconnected.
- A socket that never authenticated has no disconnect handler.
- The registry calls contain no `await`, so each runs to completion. The connect handler is not atomic, though: it awaits the user lookup before it registers the socket and installs the disconnect listener.
- There is no authentication timeout.
- A malformed relay payload is not dropped. It throws inside the event handler.

## Model

| member | source | states |
|---|---|---|
| `SocketManager.Lookup` | src/socket/socket_manager.ts:51-53 | on a well-formed map, the sockets of a user have no duplicates and are empty exactly when the user has no entry |
| `SocketManager.Without` | src/socket/socket_manager.ts:32 | deleting a socket id keeps exactly the other ids and never introduces a duplicate |
| `SocketManager.AddTo` | src/socket/socket_manager.ts:11-15 | after adding, the user has an entry holding the old sockets plus the new one; the keys gain only this user and every other user's entry is unchanged; the registry invariant is preserved |
| `SocketManager.RemoveFrom` | src/socket/socket_manager.ts:30-35 | an unknown user leaves the map unchanged; otherwise the user's sockets lose exactly this id, the key is dropped when none remain, other entries are unchanged, and the invariant is preserved |
| `SocketManager.AddIsIdempotent` | src/socket/socket_manager.ts:12-15 | adding the same (user, socket) pair twice gives the same map as adding it once |
| `SocketManager.AddThenRemoveRestores` | src/socket/socket_manager.ts:11-35 | removing a socket that was just added, and was not present before, restores the original map, including dropping a key created by the add |
| `SocketManager.Replay` | src/socket/socket_manager.ts:11-35 | any history of add and remove calls from an empty registry yields a map without empty entries or duplicate ids |
| `SocketManager.ReplayHoldsLiveSockets` | src/socket/socket_manager.ts:11-53 | after any history of calls, a socket is listed for a user exactly when it was added for that user and not removed since |
| `SocketManager.ReplayKeysAreLiveUsers` | src/socket/socket_manager.ts:30-35 | after any history of calls, a user has a key exactly when at least one of their sockets is live, so no key outlives its last socket |
| `SocketManager.FanoutReachesEachSocketOnce` | src/socket/socket_manager.ts:62-79 | a fan-out over distinct sockets delivers to each of them exactly once and to no other socket, with event and payload unchanged; an empty list yields no emission |
| `SocketManager.SocketServer.Emit` | src/socket/socket_manager.ts:73 | an emission appends exactly one (socket, event, payload) entry to the server's log |
| `SocketManager.Registry.constructor` | src/socket/socket_manager.ts:4 | the registry starts empty and valid |
| `SocketManager.Registry.AddSocket` | src/socket/socket_manager.ts:11-23 | creates the entry when absent and adds the socket; the new map is `AddTo` of the old one and the invariant holds |
| `SocketManager.Registry.RemoveSocket` | src/socket/socket_manager.ts:30-44 | deletes the socket and drops an emptied entry; the new map is `RemoveFrom` of the old one and the invariant holds |
| `SocketManager.Registry.GetUserSockets` | src/socket/socket_manager.ts:51-53 | returns no ids when the user has no entry, otherwise each id of the entry exactly once |
| `SocketManager.Registry.BroadcastToUser` | src/socket/socket_manager.ts:62-79 | appends one emission per socket of the user, in the entry's order, with event and payload unchanged; the registry is not modified |
| `SocketGateway.SelectToken` | src/socket/index.ts:16-20 | the credential is `auth.token` when truthy; otherwise it is the `accessToken` cookie when a cookie header was sent; otherwise there is none |
| `SocketGateway.Authenticate` | src/socket/index.ts:22-39 | no truthy token gives "No authentication token provided"; the socket is admitted exactly when verification finds a user, and then under that user's id; a missing user or a thrown value gives its error message |
| `SocketGateway.NoCredentialIsRefused` | src/socket/index.ts:16-24 | without a truthy auth token and without a truthy access-token cookie, the connection is refused with the fixed message, whatever the verifier would answer |
| `SocketGateway.OnConnection` | src/socket/index.ts:14-96 | a refused socket receives exactly one error event on itself, and the registry and socket are unchanged; an admitted socket gets its user set and is registered under that user, and nothing is emitted |
| `SocketGateway.RelayReachesTargetAndSenderOnly` | src/socket/index.ts:58-80 | a relayed message reaches each target socket once plus each sender socket once and no other socket, always as the private-message event with payload {id: sender, message} |
| `SocketGateway.OnPrivateMessage` | src/socket/index.ts:54-81 | the relay emits the payload first to all of the target's sockets, then to all of the sender's sockets, and nothing else |
| `SocketGateway.OnDisconnect` | src/socket/index.ts:84-88 | an authenticated socket is removed from its user's entry and is absent from later lookups; an unauthenticated one changes nothing |
| `SocketGateway.EmitSocketEvent` | src/socket/index.ts:102-115 | produces exactly the emissions of `broadcastToUser` for the same user, event and payload |
| `SocketGateway.NewChatSkipsRequester` | src/controllers/chat.controller.ts:161-170 | every new-chat emission goes to a socket of a participant other than the requester and carries the chat payload unchanged |
| `SocketGateway.NewChatReachesOtherParticipants` | src/controllers/chat.controller.ts:161-170 | every socket of every participant other than the requester receives the new-chat event |
| `SocketGateway.NotifyParticipants` | src/controllers/chat.controller.ts:161-170 | the participant loop emits exactly the new-chat fan-outs of all participants but the requester, in participant order |
| `Helpers.GenerateOtpNumber` | src/utils/helpers.ts:7-14 | the code has exactly `length` characters (none when `length` is not positive), every character is a decimal digit, and reading the digits back gives the draws |
| `Helpers.GetAttachmentType` | src/utils/helpers.ts:45-51 | "image", "video" and "audio" are chosen exactly by the first matching prefix in that order; "pdf" is chosen exactly for "application/pdf"; "other" is chosen for everything else; the result is always a valid attachment type |
| `Helpers.GetLocalPath` | src/utils/helpers.ts:41-43 | the path is "public/images/" followed by exactly the file name |
| `Helpers.LocalPathRoundTrip` | src/utils/helpers.ts:41-43 | the local path of a file gives back that file name, and every path under the images directory is the local path of its name |
| `Helpers.GetStaticFilePath` | src/utils/helpers.ts:37-39 | the URL starts with protocol "://" host (the host prints as "undefined" when absent) and ends with "/images/" and the file name |
| `Helpers.ServedAndStoredNameAgree` | src/utils/helpers.ts:37-43 | for one file name, the URL built by `getStaticFilePath` and the path built by `getLocalPath` end in that same name |
| `MessageModel.ParseAttachmentType` | src/models/message.model.ts:54-58 | the enum validator accepts exactly the five names, and an accepted string is the name of the kind it yields |
| `MessageModel.NameParses` | src/models/message.model.ts:3 | each attachment kind's name is accepted and read back as that kind |
| `MessageModel.Utf16Length` | src/models/message.model.ts:116-120 | a string's UTF-16 length lies between its character count and twice that |
| `MessageModel.AttachmentFailures` | src/models/message.model.ts:47-62 | an attachment fails no path exactly when url, type and filename are present and non-empty and type is one of the five names |
| `MessageModel.AttachmentsFailures` | src/models/message.model.ts:44-76 | an attachment array fails no path exactly when every element is a valid attachment |
| `MessageModel.ReactionsFailures` | src/models/message.model.ts:110-122 | the reactions fail no path exactly when every emoji is present, non-empty and at most 5 UTF-16 code units long |
| `MessageModel.Failures` | src/models/message.model.ts:36-93 | no path fails exactly when the message is valid; the attachments path fails exactly when there is neither truthy content nor an attachment; sender and chat fail exactly when absent |
| `MessageModel.Validate` | src/models/message.model.ts:34-129 | a message is accepted exactly when every schema rule holds, and then it has truthy content or an attachment, every attachment's url, kind and filename come from the input, and every emoji is within the limit |
| `MessageModel.EmptyMessageRejected` | src/models/message.model.ts:77-87 | with no content and attachments left at their default `[]`, the message is rejected on `attachments` |
| `MessageModel.AstralEmojiLimit` | src/models/message.model.ts:116-120 | an emoji made only of characters outside the Basic Multilingual Plane passes with one or two characters and fails with three or more |
| `MessageModel.Includes` | src/models/message.model.ts:135 | the linear scan finds a value exactly when it occurs in the array |
| `MessageModel.IsRead` | src/models/message.model.ts:131-136 | `isRead(userId)` holds exactly when the user id occurs in `readBy` |
| `OtpController.FindOne` | src/controllers/otp.controller.ts:128-133 | the query yields the first record with the number (and code, when given) that is unexpired and unverified, or nothing when no record qualifies |
| `OtpController.WithoutNumber` | src/controllers/otp.controller.ts:78 | `deleteMany` keeps exactly the records of other numbers |
| `OtpController.WithoutId` | src/controllers/otp.controller.ts:51 | `deleteOne` by id keeps exactly the records with another id |
| `OtpController.DeleteCreatedRestores` | src/controllers/otp.controller.ts:50-53 | deleting the record just created restores the table as it was before the create |
| `OtpController.DeleteUniqueAt` | src/controllers/otp.controller.ts:160 | with unique ids, deleting a record by id removes exactly that record |
| `OtpController.AtMostOneLiveLater` | src/controllers/otp.controller.ts:20-28 | if a number has at most one live record at some time, it still has at most one at any later time |
| `OtpController.FindOneIsForced` | src/controllers/otp.controller.ts:128-137 | when each number has at most one live record, the verification query has at most one candidate, so which record it returns is determined |
| `OtpController.WithoutNumberKeepsAtMostOneLive` | src/controllers/otp.controller.ts:78 | deleting every record of a number keeps at most one live record per number |
| `OtpController.CreateKeepsAtMostOneLive` | src/controllers/otp.controller.ts:20-36 | creating a live record for a number that has no live record keeps at most one live record per number |
| `OtpController.OtpTable.Create` | src/models/otp.model.ts:14-22 | a created record is unverified, expires two minutes after now, gets a fresh id, and is appended |
| `OtpController.OtpTable.DeleteOne` | src/controllers/otp.controller.ts:51 | deleting by id keeps the ids unique and removes exactly the records with that id |
| `OtpController.OtpTable.GenerateOtp` | src/controllers/otp.controller.ts:13-69 | missing number gives 400 and a live record gives 429, both leaving the table unchanged; otherwise exactly one unverified six-digit record expiring now + 2 min is added while the reply reports now + 5 min; a failed production SMS deletes it again with 500; at most one live record per number is kept |
| `OtpController.OtpTable.ResendOtp` | src/controllers/otp.controller.ts:71-119 | missing number gives 400 and changes nothing; otherwise all records of the number are deleted with no 429 guard and one new record is created, which afterwards is the number's only record; a failed production SMS deletes it again with 500; at most one live record per number is kept |
| `OtpController.OtpTable.VerifyOtp` | src/controllers/otp.controller.ts:121-185 | a missing input or no live matching record gives 400 and changes nothing; otherwise the matching record is marked verified and kept when the user is new, or removed when the user exists and the tokens are issued; a failed token issue gives 500 and keeps the record verified |

## Left out

- Concurrency is not modelled. Every handler runs to completion before the next one starts. The source interleaves awaits and has no locking, no authentication timeout and no guard that runs disconnect cleanup only once. Concurrent `generateOtp` calls can therefore both pass the 429 check, which the model does not capture.
- `OnDisconnect`: "absent from later lookups" holds only when handlers run one after another. In the source a client can disconnect while the connect handler awaits `User.findById` (src/socket/index.ts:33). The disconnect listener is installed only after `addSocket` (index.ts:45, 84), so that disconnect is never seen, and the dead socket id stays registered for good. The model does not capture this stale registration.
- socket.io rooms (`socket.join`, `socket.leave`) are not modelled. They duplicate the registry, and nothing in the core reads them.
- `JSON.parse` of the private-message body is not modelled. The relay takes the already-parsed `{message, id}`. A malformed body throws inside the handler, outside the connect handler's try/catch.
- `jwt.verify` and `User.findById` are one parameter, `verify`. It returns the user id, "not found", or a thrown value.
- `cookie.parse(...).accessToken` is the parameter `accessTokenCookie`.
- The event names are a closed datatype `ChatEvent`. src/constants is not part of this model, so the wire-level event strings are not modelled.
- Controller payloads are the opaque `Document` value.
- `userSocketMap` is a plain object in the source, so inherited names such as "constructor" read as non-Set values there. The model treats every user id as an ordinary key. Real ids are ObjectId strings.
- `Math.random` and `Math.floor` are replaced by a sequence of digit indices in [0, 10).
- `GenerateOtpNumber` takes `length` as an integer. A fractional length, allowed by the JavaScript loop, is not modelled.
- `generateAccessAndRefreshToken` is the Boolean parameter `tokensIssued`.
- Twilio delivery is the Boolean parameter `smsDelivered`.
- The environment is the Boolean parameter `production`.
- `OtpSent` always carries the code and the reported expiry. The production response carries only a message.
- MongoDB's TTL index on `expiresAt` purges expired records in the background. This is not modelled; the handlers' queries filter on expiry themselves.
- `findOne` returns the first matching record in table order. MongoDB does not promise an order. `FindOneIsForced` shows that the choice does not matter while each number has at most one live record.
- `new Date()` in the query and `Date.now()` in the schema default are the same `now`.
- The body fields `mobileNumber` and `otp` are optional strings. Other JavaScript values are not modelled.
- `isRead`: mongoose calls a virtual getter with (value, virtual, document), not with a caller's argument. The model gives the membership test the getter evidently means.
- Mongoose validation is modelled for a new document. Required ObjectIds are presence checks. ObjectId cast errors are not modelled. `duration` and `pages` are integers. Update validation of modified paths only is not modelled.
- `removeLocalFile` (the file system), the Redis rate limiter, the logger and all `console.log` output are not modelled. Neither are `asyncHandler` and `ApiError` response plumbing, the routes, application setup, the user controller, the Cloudinary upload, and the aggregation pipelines of the chat and message controllers.

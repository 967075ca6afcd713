# ChattingApp server core, modelled in Dafny

This project models the server side of a small WhatsApp-style chat relay.

- The HTTP and socket server (`server/index.js`) stores chat messages and members in a MongoDB database. It serves conversations grouped by the conversation key `wa_id`. It pushes each newly posted message to every socket that joined the room named by its `wa_id`.
- The payload script (`server/process_payloads.js`) replays webhook payload files into the same message collection. It inserts messages whose `id` is not stored yet, and applies delivery and read receipts to stored messages.

Modules, one per concern:

- `Values` (values.dfy): JSON scalars (`Null`, integers, strings). It also defines JavaScript truthiness (`!x`) and the database's comparison order: null, then numbers, then strings by code point.
- `Records` (records.dfy): the message, member and receipt documents, plus the database's lookups by `id` and `wa_id`. It also holds the `$set` of `status` and `status_timestamp` on the first matching message.
- `Store` (store.dfy): class `Db`, holding the `processed_messages` and `members` collections as sequences in natural order. The server and the script share it. Each method is one collection call.
- `Queries` (queries.dfy): `GET /api/messages/:wa_id` and `GET /api/conversations`, written as functions.
- `Server` (server.dfy): class `ChatServer`. It holds the socket room table (`map<Value, set<ConnId>>`) and a log of every `new_message` emission with its recipients. Its methods are the `join` handler, `POST /api/members`, `GET /api/members` and `POST /api/messages`.
- `Reconciler` (reconciler.dfy): the script's loops over files, over the messages of a payload, and over the receipts of a payload. Each loop is proved against a function over the message sequence. The console lines become a returned log of outcomes.

Each handler runs atomically, one after another. The current time is a parameter of `PostMessage`.

How some JavaScript and MongoDB details are modelled:

- A field value is `Null` (missing or null), `Num` or `Str`.
- Filters `{id: msg.id}` with a missing id match the documents that have no id, because `Null == Null`.
- A group key or timestamp sorts the way the database sorts those types. Webhook timestamps are strings and posted ones are numbers, so posted messages sort before imported ones.

## Notes on the code's behaviour

- `POST /api/messages` always overwrites `timestamp` and `status`, even when the client supplied them (`Server.Stamped`).
- Nothing makes message ids unique. `POST /api/messages` never checks `id`, so the store can hold duplicates. A receipt then updates only the first message with that id (`Records.SetStatus`, `Reconciler.ApplyReceiptsAt`).
- One `try`/`catch` wraps the script's whole loop. A file that cannot be read, is not JSON, or is the JSON `null` (its `.messages` throws) therefore ends the run before any of its records, and no later file is applied (`Reconciler.AbortSkipsRest`). Errors are not isolated per record: a `null` record inside a payload also throws, and then ends the run after the file's earlier records were applied. The model does not have such records (see "Left out").
- When a payload repeats an id the store lacks, the first message with it is stored and the later ones are skipped, because each `findOne` sees the earlier inserts (`Reconciler.InsertAbsentAppends`, `Reconciler.FirstDuplicateWins`).
- Under Express 4 routing, the catch-all `GET *` (server/index.js:128) is registered when the module loads. `GET /api/members` (server/index.js:68) is registered only after the database connects (server/index.js:42-47). The catch-all would therefore answer `GET /api/members` with `index.html`, and the handler `Server.ChatServer.GetMembers` models would not be reached. This follows from the registration order in the code; `POST /api/members` is not affected.
- Each payload is idempotent on its own (`Reconciler.InsertAbsentIdempotent`, `Reconciler.ApplyReceiptsIdempotent`). Re-running a whole directory is not. A receipt listed before the message it names finds nothing on the first run and updates the message on the second (`Reconciler.RerunCanChangeStore`).
- A status update emits nothing to the socket rooms, so subscribers never see delivery or read changes live. The model keeps this: only `PostMessage` appends to the emission log.
- The order of messages with equal timestamps is left to the database. The model sorts stably, and its contract promises only "sorted, and a permutation".

## Model

| member | source | states |
|---|---|---|
| `Values.Truthy` | server/index.js:51 | JavaScript `!v` (here and at index.js:107) holds exactly for null/missing, `0` and the empty string |
| `Values.StrLess` | server/index.js:83 | definition: the database's string order (also the timestamp sort at index.js:96), character by character |
| `Values.StrLessLexicographic` | server/index.js:83-96 | `a` sorts before `b` exactly when `a` is a proper prefix of `b` or has the smaller character where they first differ |
| `Values.Less` | server/index.js:83-96 | definition: the database's cross-type order (null, then numbers by value, then strings by `StrLess`) |
| `Values.LessIrreflexive` | server/index.js:83-96 | no value sorts before itself |
| `Values.LessTransitive` | server/index.js:83-96 | the order is transitive |
| `Values.LessTotal` | server/index.js:83-96 | any two distinct values are ordered one way, so sorting and grouping keys is well defined |
| `Records.FirstIndexOf` | server/process_payloads.js:40-42 | the match `updateOne`/`findOne` picks: none exactly when no message has the id; otherwise an index holding the id with no earlier index holding it |
| `Records.SetStatus` | server/process_payloads.js:40-42 | same length; no message changes anything but `status`/`status_timestamp`; unknown id leaves the store unchanged; otherwise the first message with the id gets the new status and time, and every other message is unchanged |
| `Records.FirstMember` | server/index.js:55 | any member found is stored and has the requested `wa_id` |
| `Records.FirstMemberIsFirst` | server/index.js:55 | `findOne({wa_id})` finds none exactly when no member has the `wa_id`; otherwise the member at a position holding that `wa_id` with no earlier position holding it |
| `Store.Db.constructor` | server/index.js:43-45 | the collections start with the given contents (an initialised database) |
| `Store.Db.FindMessage` | server/process_payloads.js:29 | finds nothing exactly when no message has the id; otherwise returns the first message with it |
| `Store.Db.InsertMessage` | server/process_payloads.js:31 | appends exactly that message; members unchanged |
| `Store.Db.UpdateStatus` | server/process_payloads.js:40-43 | `matchedCount` is set exactly when a message has the id; the store becomes `SetStatus` of the old store; members unchanged |
| `Store.Db.FindMember` | server/index.js:55 | finds nothing exactly when no member has the `wa_id`; otherwise the first member in natural order with it |
| `Store.Db.InsertMember` | server/index.js:60 | appends exactly that member; messages unchanged |
| `Queries.Select` | server/index.js:96 | every selected message carries the requested `wa_id` |
| `Queries.SelectCount` | server/index.js:96 | each message is selected as many times as it is stored if its `wa_id` matches, never otherwise |
| `Queries.SelectAppend` | server/index.js:82 | selection distributes over concatenation, so store order is kept and later inserts come last |
| `Queries.InsertByTime` | server/index.js:96 | inserting into a timestamp-sorted list keeps it sorted and adds exactly that message |
| `Queries.SortByTime` | server/index.js:96 | the result is non-decreasing in `timestamp` (database order) and a permutation of the input |
| `Queries.MessagesFor` | server/index.js:93-97 | `GET /api/messages/:wa_id` returns exactly the stored messages with that `wa_id`, as a permutation, in non-decreasing timestamp order; empty exactly when none is stored |
| `Queries.InsertKey` | server/index.js:82-83 | adding a key to a strictly ascending key list keeps it strictly ascending and adds exactly that key |
| `Queries.GroupKeys` | server/index.js:82-83 | the group keys are strictly ascending and are exactly the `wa_id`s present in the store |
| `Queries.Conversations` | server/index.js:79-86 | one conversation per distinct `wa_id`, `_id`s strictly ascending, every stored `wa_id` has one, and each holds only messages with its `_id` |
| `Queries.ConversationContents` | server/index.js:82 | a conversation holds every stored message with its key, with multiplicity, and no other |
| `Queries.EachMessageInOneConversation` | server/index.js:82 | each stored message is in exactly one conversation, the one whose `_id` is its `wa_id` |
| `Queries.ConversationsNonEmpty` | server/index.js:82 | no conversation is empty |
| `Server.Joined` | server/index.js:34-36 | after a join the room holds its old connections plus this one; every other room is unchanged |
| `Server.JoinIdempotent` | server/index.js:35 | joining the same room twice leaves the table as one join does |
| `Server.Received` | server/index.js:114 | the messages a connection has received, in emission order; never more than the emissions so far |
| `Server.ReceivedAppend` | server/index.js:114 | one emission is received by exactly its recipients, after what they had received before |
| `Server.ReceivedNothing` | server/index.js:114 | a connection that is no emission's recipient has received nothing |
| `Server.Stamped` | server/index.js:110-111 | the stored message has `timestamp` = now and `status` = `'sent'`; every other field is the body's; it is well-formed exactly when the body is |
| `Server.SuppliedIdKept` | server/index.js:106-115 | a posted body that carries its own `_id` is well-formed exactly when the same body without it is, and the stored message keeps that `_id` |
| `Server.ChatServer.constructor` | server/index.js:28-32 | no rooms and no emissions yet; the invariant holds |
| `Server.ChatServer.Join` | server/index.js:34-36 | the room table becomes `Joined` of the old one; nothing is emitted; the invariant (every emission went to joined connections) is kept |
| `Server.ChatServer.AddMember` | server/index.js:48-65 | 400 and no change when `wa_id` or `name` is falsy; 409 and no change when the `wa_id` is stored; otherwise 201, exactly `{wa_id, name}` appended and returned; distinct `wa_id`s stay distinct; messages untouched |
| `Server.ChatServer.GetMembers` | server/index.js:68-75 | returns every stored member in stored order |
| `Server.ChatServer.PostMessage` | server/index.js:104-119 | for a well-formed body: 400 with nothing stored or emitted when `wa_id` or `text` is falsy; otherwise 201, exactly the stamped message appended and returned, one `new_message` emitted to room `wa_id` with that room's connections as recipients; each connection's received messages grow by that message exactly when it is in the room; rooms and members unchanged |
| `Server.ChatServer.NeverJoinedReceivesNothing` | server/index.js:34-36 | a connection in no room has received no message |
| `Reconciler.IsJson` | server/process_payloads.js:22 | definition: `endsWith('.json')` |
| `Reconciler.IsJsonSuffix` | server/process_payloads.js:22 | a name is kept exactly when it is some stem followed by `.json` |
| `Reconciler.JsonFiles` | server/process_payloads.js:22 | exactly the listed entries whose names end in `.json` are kept |
| `Reconciler.JsonFilesAppend` | server/process_payloads.js:22-23 | filtering keeps the listing order |
| `Reconciler.InsertAbsent` | server/process_payloads.js:28-36 | definition: the messages loop over the store, one `findOne`/`insertOne` per message, each seeing the earlier inserts |
| `Reconciler.InsertLog` | server/process_payloads.js:32-34 | definition: the console line of each message of that loop |
| `Reconciler.InsertAbsentAppends` | server/process_payloads.js:28-31 | a messages payload appends exactly the first message carrying each id the store lacked, in payload order, and nothing else |
| `Reconciler.FirstDuplicateWins` | server/process_payloads.js:28-31 | two messages with the same new id: the first is stored, the second skipped |
| `Reconciler.InsertAbsentShape` | server/process_payloads.js:28-36 | a messages payload never changes or removes a stored message; each appended record comes from the payload and has an id the store lacked; no id is appended twice |
| `Reconciler.InsertAbsentHasId` | server/process_payloads.js:28-35 | afterwards an id is stored exactly when it was stored before or occurs in the payload |
| `Reconciler.InsertAllPresent` | server/process_payloads.js:29-34 | a payload whose ids are all stored changes nothing |
| `Reconciler.InsertAbsentIdempotent` | server/process_payloads.js:26-36 | applying the same messages payload twice gives the store one application gives |
| `Reconciler.InsertLogAt` | server/process_payloads.js:28-35 | the k-th message is reported inserted exactly when its id was neither stored nor carried by an earlier message of the payload; otherwise it is reported as already existing |
| `Reconciler.ApplyReceipts` | server/process_payloads.js:39-48 | definition: the statuses loop, one `SetStatus` per receipt in order |
| `Reconciler.ReceiptLog` | server/process_payloads.js:43-47 | definition: the console line of each receipt of that loop |
| `Reconciler.ApplyReceiptsSkeleton` | server/process_payloads.js:39-48 | a statuses payload keeps the store's length and changes no field but `status`/`status_timestamp` |
| `Reconciler.ApplyReceiptsAt` | server/process_payloads.js:39-42 | after a statuses payload, the first message with an id that some receipt names carries the last such receipt's status and time; every other message is unchanged |
| `Reconciler.ApplyReceiptsIdempotent` | server/process_payloads.js:39-48 | applying the same statuses payload twice gives the store one application gives |
| `Reconciler.ReceiptLogAt` | server/process_payloads.js:42-47 | each receipt is reported updated exactly when a message with its id is stored, and not found otherwise |
| `Reconciler.KindOf` | server/process_payloads.js:26-49 | definition: the branch a payload takes, `messages` tested before `statuses` |
| `Reconciler.PayloadBranches` | server/process_payloads.js:26-51 | a payload with `messages` is a messages payload whatever else it holds; one with only `statuses` is a statuses payload; one with neither array changes nothing and is reported unknown |
| `Reconciler.ApplyFiles` | server/process_payloads.js:23-54 | definition: the loop over files, stopping at the first file that throws |
| `Reconciler.FilesLog` | server/process_payloads.js:23-54 | definition: the console lines of that loop, ending with the error when a file throws |
| `Reconciler.ApplyFilesExtends` | server/process_payloads.js:23-52 | a run never deletes a message and changes nothing in a stored message but its delivery fields |
| `Reconciler.ApplyFilesAppend` | server/process_payloads.js:23-52 | files are applied one after another in listing order: when every file of the first part parses, running a listing split in two is running the first part, then the second on its result |
| `Reconciler.FilesLogAppend` | server/process_payloads.js:23-52 | when every file of the first part parses, the reports of a run are those of its two parts, concatenated in listing order |
| `Reconciler.AbortSkipsRest` | server/process_payloads.js:18-54 | a file that cannot be read, does not parse, or is `null` ends the run: nothing after it is applied, and the error is the last report |
| `Reconciler.RerunCanChangeStore` | server/process_payloads.js:23-52 | a concrete two-file batch whose second run changes the store that the first run left |
| `Reconciler.ProcessMessage` | server/process_payloads.js:29-35 | one message: `findOne` by id, then `insertOne` only when nothing matched; the store is `Admit` of the old store and the report says which branch ran |
| `Reconciler.ProcessMessages` | server/process_payloads.js:28-36 | the loop leaves the store and log of `InsertAbsent`/`InsertLog` on the old store; members unchanged |
| `Reconciler.ProcessStatuses` | server/process_payloads.js:39-48 | the loop leaves the store and log of `ApplyReceipts`/`ReceiptLog` on the old store; members unchanged |
| `Reconciler.ProcessPayload` | server/process_payloads.js:26-51 | one parsed file: store and log as `ApplyPayload`/`PayloadLog` give them (messages tested before statuses) |
| `Reconciler.ProcessFiles` | server/process_payloads.js:18-54 | the whole run leaves the store and log of `ApplyFiles`/`FilesLog` over the `.json` entries, in order, stopping at the first file that throws on reading, parsing or `.messages`; members unchanged |

## Left out

- The MongoDB client, `connectDB`, and registering the member routes inside its continuation. The database is assumed connected; `Store.Db` is an in-memory stand-in.
- Storage failures and the HTTP 500 responses they produce. In the script, a failing `findOne`, `insertOne` or `updateOne` would end the run like a parse error; the only errors modelled are files that cannot be read, do not parse, or parse to `null`.
- The `_id` that `insertOne` generates and writes into the inserted object, and therefore into the response and the emitted message. An `_id` supplied in a posted body or payload record is kept in `rest` and stored like any other field; the duplicate-key error `insertOne` raises when that `_id` is already stored is not modelled.
- The socket.io transport, connection lifecycle (including the room each connection gets under its own id) and disconnect cleanup. Rooms only grow in the model, since the source itself never removes a connection from a room.
- Express setup, CORS, static files, the SPA catch-all and `server.listen`.
- dotenv, `process.exit`, `fs.readdirSync`/`readFileSync`, `JSON.parse` and console output. The listing is an input sequence, each file is either a parsed payload or unreadable, and console lines are returned outcomes.
- `Date.now()`, which becomes the `now` parameter.
- Interleaving of async handlers: every handler is atomic.
- JSON values other than null, integers and strings as field values: booleans, floats, objects and arrays, with their truthiness and sort order. Also `messages`/`statuses` fields that are truthy but not arrays.
- The React client (`client/src/App.jsx`): UI state, fetch calls, mock data and optimistic appends.
- Payload records that are not JSON objects. A `null` element of `messages` or `statuses` throws at `msg.id` or `status.id` (server/process_payloads.js:29, 40), ending the run with the file's earlier records already applied. Numbers, strings and arrays as records are not modelled either. Every modelled record is an object, and a record-level abort is not modelled.
- JSON objects with a key that duplicates a named field (`id`, `wa_id`, `text`, `timestamp`, `status`, `status_timestamp`), which a parsed JSON object cannot have: `Records.WellFormed` keeps `rest` apart from those names, and posted bodies and payload records are required to satisfy it.
- Server.ChatServer.NeverJoinedReceivesNothing: socket.io also puts each connection in a room named by its own socket id, and the model creates no such room. A post whose `wa_id` equals a socket id reaches that socket without a `join`, so for a live socket the lemma's premise never holds.

# Uptime validator network: hub and validator node

This project models the two cooperating processes of an uptime-monitoring
network in Dafny and proves properties of the model.

- **The hub** (`src/hub/index.ts`) coordinates the network. It keeps:
  - a registry of signed-up socket connections;
  - a correlation table of pending probes, keyed by callback id;
  - a validator store, a website store and an append-only list of ticks.

  It handles four kinds of event:
  - a `signup`: verify the signature, find or create the validator row, answer, register the connection;
  - a `validate` reply: run the pending probe once and remove it;
  - a socket `disconnect`: remove the first registry entry on that socket;
  - the periodic task: send one probe per (website not disabled, registry entry) pair.

  Completing a probe verifies the reply signature against the public key of the connection the probe went to. It then records a tick and credits the validator 100 (`COST_PER_VALIDATION`) in one transaction.
- **The validator node** (`src/validator/index.ts`) works as follows:
  - on connecting, it signs up;
  - it queues probe requests until the hub assigns it a validator id, then drains the queue in arrival order;
  - it answers each request with status `Good` exactly when the fetch returned HTTP 200. A failed fetch is answered `Bad` with latency 1000;
  - every reply carries a signature over `Replying to {callbackId}`.
- **The signature wire format** is shared by both sides. The node writes the signature bytes as a JSON array of decimals. The hub parses that text back into a `Uint8Array`.

Each process state is an immutable record, and each event is a pure step function from state to (state, messages sent). The signature scheme is kept abstract as a `Scheme`, a key-decoding function plus a detached check, and a `KeyPair`, a public key plus a signing function. `Matches(scheme, keys)` states that a key pair is genuine. Values the code generates, such as uuids, new row ids and fetch outcomes, arrive as inputs of the event.

Modules, in dependency order:

- `Wrappers`: `Option`.
- `SignatureWire`: the byte-array codec and its round trip.
- `Protocol`: the messages, the two signed texts, and `VerifyMessage`.
- `HubModel`: the hub's state and stores.
- The four hub handlers: `HubSignup`, `HubRegistry`, `HubScheduler`, `HubCompletion`.
- `HubEvents`: the event loop, the consistency invariant and payout accounting.
- `ValidatorNode`: the node.
- `EndToEnd`: the two processes together, including one full round with concrete values.

Three behaviours of the code worth knowing:

- **Who gets paid.** No check ties the claimed `validatorId` to the connection's key. The hub verifies the reply against the public key of the connection the probe went to (src/hub/index.ts:148). It credits whichever `validatorId` the reply names (src/hub/index.ts:168, 176). `CreditFollowsClaim` states this.
- **The node's signup callback.** The node looks its signup callback up under the field `callback`. The hub's answer carries `callbackId`, so the lookup key is the string `undefined`, and the callback registered on connect is never removed (`SignupCallbackStays`).
- **A claimed id missing from the store.** If the reply names an id with no row in the store, the transaction fails, so nothing is committed. `Commits` requires that the id is a row of the store.

## Model

| member | source | states |
|---|---|---|
| SignatureWire.Decimal | src/validator/index.ts:142 | The decimal text of a number is non-empty, all digits, has no leading zero unless it is `0`, and is one character long exactly when the number is below 10 |
| SignatureWire.DecimalRoundTrip | src/validator/index.ts:142 | Reading back the decimal text of any number gives that number |
| SignatureWire.ParseDecimal | src/hub/index.ts:109 | The decimal text of a byte followed by a delimiter is parsed as that byte, leaving the delimiter |
| SignatureWire.ParseJoined | src/hub/index.ts:109 | The comma-joined decimals of a non-empty byte sequence, closed by `]`, parse back to exactly that sequence |
| SignatureWire.DecodeSignature | src/hub/index.ts:109 | Any text the hub accepts as a signature starts, after whitespace, with `[` |
| SignatureWire.JoinDecimals | src/validator/index.ts:142 | The elements written between the brackets start with a digit whenever there is at least one element |
| SignatureWire.ParseNumber | src/hub/index.ts:109 | Reading one array element consumes at least one character of the text |
| SignatureWire.ParseElements | src/hub/index.ts:109 | Every element list accepted after an opening bracket holds at least one number (the empty array is handled apart) |
| SignatureWire.EncodeSignature | src/validator/index.ts:142 | The wire form of a signature is bracketed: it starts with `[` and ends with `]` |
| SignatureWire.SignatureRoundTrip | src/validator/index.ts:139-143 | The hub decodes the wire form the node writes back to exactly the signature bytes, for every byte sequence including the empty one |
| SignatureWire.EncodeSignatureInjective | src/validator/index.ts:142 | Two signatures with the same wire text are equal |
| Protocol.VerifyMessage | src/hub/index.ts:104-116 | A signature text or public key that does not decode makes verification answer false rather than fail |
| Protocol.SignMessage | src/validator/index.ts:139-143 | The wire text of a signed message is what the hub decodes back to exactly the bytes the node's signing function produced |
| Protocol.SignupText | src/hub/index.ts:41 | The signup text puts the callback id right after the fixed prefix and ends with the public key |
| Protocol.SignupTextInjective | src/hub/index.ts:41 | The signup text binds the signature to one callback id and one public key, provided the key holds no comma (a base58 key never does): equal signup texts have equal ids and keys |
| Protocol.ReplyText | src/hub/index.ts:147 | The reply text is the fixed prefix followed by exactly the callback id, which can be read back from it |
| Protocol.SignedMessageVerifies | src/hub/index.ts:104-116 | Whatever a genuine key pair signs, the hub's verification accepts under that pair's public key |
| Protocol.ReplyTextInjective | src/hub/index.ts:146-150 | The reply text binds the signature to one callback id: equal reply texts have equal ids |
| Protocol.TemplatesDiffer | src/hub/index.ts:40-44 | The signup text and the reply text never coincide, whatever the ids and key |
| HubModel.CountPublicKey | src/hub/index.ts:71 | The number of store rows with a public key is zero exactly when no row has it |
| HubSignup.SignupVerified | src/hub/index.ts:40-44 | A signup that passes verification carries a signature text and a public key that both decode |
| HubSignup.FindByPublicKey | src/hub/index.ts:71 | The lookup finds the first row with the public key, and finds nothing exactly when no row has it |
| HubSignup.HandleSignup | src/hub/index.ts:70-101 | An unverified signup (lines 40-51) changes nothing and sends nothing. A verified one reuses the row with that key, or appends exactly one row (fresh id, given ip, key, location `unknown`, pending payouts 0). It answers the same socket with the row's id and the echoed callback id, and appends one registry entry with the row's id and key. The correlation table, websites and ticks stay as they were |
| HubSignup.FindAppended | src/hub/index.ts:71-83 | A row created for a key the store lacked is the one later lookups find |
| HubSignup.SignupKeepsOneRow | src/hub/index.ts:71-84 | Find-or-create: after a verified signup the store holds exactly one row for the key |
| HubSignup.RepeatedSignupSameId | src/hub/index.ts:71-74 | Signing up twice with one key yields the same validator id and no second row |
| HubRegistry.FindSocket | src/hub/index.ts:61 | The position found is the first entry on the socket, and none is found exactly when no entry is on it |
| HubRegistry.HandleDisconnect | src/hub/index.ts:60-66 | With no entry on the socket nothing changes. Otherwise exactly the first entry on it is spliced out, the rest keep their order, and no other part of the hub changes |
| HubRegistry.DisconnectRemovesOne | src/hub/index.ts:60-66 | A disconnect removes one entry of that socket when there is one and none otherwise, so the registry shrinks by at most one |
| HubRegistry.DisconnectKeepsOthers | src/hub/index.ts:60-66 | A disconnect leaves every other socket with all of its entries |
| HubScheduler.ActiveWebsites | src/hub/index.ts:122-124 | The websites loaded are exactly the stored ones that are not disabled, each as often as it is stored, so their number is the number of rows not disabled |
| HubScheduler.Row | src/hub/index.ts:129-141 | For one website, the j-th send goes to the j-th registry entry with the j-th callback id |
| HubScheduler.FanOut | src/hub/index.ts:128-141 | Both loops together make one send per generated callback id |
| HubScheduler.RegisterAll | src/hub/index.ts:142 | After registration the table's keys are the old keys plus the callback ids of the sends |
| HubScheduler.RegisterAllKeeps | src/hub/index.ts:142 | Entries under ids the run does not use are unchanged |
| HubScheduler.RegisterAllLast | src/hub/index.ts:142 | A send's probe is what its callback id maps to, unless a later send reuses the id |
| HubScheduler.SchedulerTick | src/hub/index.ts:119-188 | The periodic task changes only the correlation table, and sends one message per (website, entry) pair |
| HubScheduler.TimesIsProduct | src/hub/index.ts:128-129 | Counting the sends row by row gives M times N |
| HubScheduler.FanOutAt | src/hub/index.ts:128-141 | The send for website i and entry j sits at position i*N+j and probes that website from that entry |
| HubScheduler.FanOutOrigin | src/hub/index.ts:128-141 | Every send is the probe of some website of the list by some registry entry |
| HubScheduler.FanOutIds | src/hub/index.ts:130-137 | The k-th send carries the k-th generated callback id |
| HubScheduler.FanOutSources | src/hub/index.ts:128-148 | Every send goes to an entry's socket, for a listed website, and captures that entry's public key |
| HubScheduler.FanOutDistinct | src/hub/index.ts:130 | Distinct generated ids give sends with pairwise distinct callback ids |
| HubScheduler.DistinctCallbackIdsSize | src/hub/index.ts:130-142 | Sends with distinct callback ids register as many new ids as there are sends |
| HubScheduler.TickTable | src/hub/index.ts:130-142 | One run adds exactly one table entry per send and keeps every earlier entry |
| HubScheduler.TickSlot | src/hub/index.ts:128-148 | The send and the pending probe for website i and entry j: the entry's socket, the website's url and id, the pair's callback id, and the entry's public key |
| HubScheduler.TickFanOut | src/hub/index.ts:119-188 | With M websites not disabled and N entries, one run sends exactly M*N messages and registers exactly M*N new pending probes, one per pair. Earlier probes stay as they were |
| HubScheduler.FanOutSkipsDisabled | src/hub/index.ts:122-124 | No send probes a website whose stored rows are all disabled |
| HubScheduler.DisabledWebsiteNotSent | src/hub/index.ts:122-141 | A website whose stored rows are all disabled gets no message: every send of the periodic task is a `validate` for some other website id. The website id is the store's key, so this covers any disabled website |
| HubScheduler.DisabledWebsiteNotRegistered | src/hub/index.ts:122-142 | A website whose stored rows are all disabled gets no new pending probe. The website id is the store's key, so this covers any disabled website |
| HubCompletion.Credit | src/hub/index.ts:175-180 | Every row with the credited id gains the amount. Every other row, and every field other than pending payouts, is unchanged |
| HubCompletion.ReplyVerified | src/hub/index.ts:146-155 | A reply that passes verification carries a signature text that decodes, and the probe's public key decodes |
| HubCompletion.Commits | src/hub/index.ts:146-183 | A committing reply has a decodable signature, the probe's key decodes, it names a non-empty validator id, and the store is not empty |
| HubCompletion.CompleteProbe | src/hub/index.ts:142-185 | A failed signature check, a missing validator id, or an id with no row changes nothing. Otherwise exactly one tick is appended and the claimed id is credited 100, and nothing else changes. The tick records the website the probe was sent for, not the website id the reply carries, with the reply's claimed id, status and latency. A tick is recorded exactly when payouts change |
| HubCompletion.HandleValidateReply | src/hub/index.ts:53-57 | The reply's callback id is gone from the table afterwards. An unknown id changes nothing. A known one runs that probe's completion once |
| HubCompletion.ReplayIsNoOp | src/hub/index.ts:55-56 | Delivering a reply for an already consumed callback id changes nothing |
| HubCompletion.RepliesForOneIdCommitOnce | src/hub/index.ts:55-56 | However many replies arrive for one callback id, at most one tick is recorded, and none if the id was not pending. With unique validator ids, total payouts grow by exactly 100 per tick recorded, so by at most 100 |
| HubCompletion.NoPendingNoChange | src/hub/index.ts:55-56 | Replies for an id that is not pending change nothing |
| HubCompletion.CreditTotal | src/hub/index.ts:164-183 | With unique ids, crediting raises the sum of pending payouts by exactly the amount if the id is stored, and leaves it unchanged otherwise |
| HubCompletion.CreditFollowsClaim | src/hub/index.ts:144-178 | The payout goes to the claimed validator id even when that row's key is not the key the reply was verified against |
| HubEvents.Step | src/hub/index.ts:34-66 | No hub event changes the website store |
| HubEvents.AppendFreshRow | src/hub/index.ts:76-82 | Creating a row with a fresh id and a key not yet stored keeps ids and keys unique |
| HubEvents.SignupValid | src/hub/index.ts:70-101 | A signup keeps the hub consistent: unique ids and keys, every registry entry backed by a row with its key, every probe and tick backed |
| HubEvents.SignupAccounted | src/hub/index.ts:70-101 | A signup keeps rows, payouts, websites and ticks, so the payout books balance |
| HubEvents.DisconnectValid | src/hub/index.ts:60-66 | A disconnect keeps the hub consistent |
| HubEvents.DisconnectAccounted | src/hub/index.ts:60-66 | A disconnect changes no row, payout, website or tick |
| HubEvents.NewProbeBacked | src/hub/index.ts:128-148 | Every probe the periodic task registers names a stored website and the key of a stored validator |
| HubEvents.TickValid | src/hub/index.ts:119-188 | The periodic task keeps the hub consistent |
| HubEvents.TickAccounted | src/hub/index.ts:119-188 | The periodic task changes no row, payout, website or tick |
| HubEvents.ReplyValid | src/hub/index.ts:53-57 | Handling a reply keeps the hub consistent |
| HubEvents.DropCallbackValid | src/hub/index.ts:56 | Removing a pending probe keeps the hub consistent |
| HubEvents.CreditValidStore | src/hub/index.ts:175-180 | Crediting keeps ids and keys unique, payouts non-negative, and every row in place |
| HubEvents.CommitValid | src/hub/index.ts:164-183 | A committed reply keeps the hub consistent |
| HubEvents.TickAppendedBacked | src/hub/index.ts:165-173 | A tick recorded for a stored validator and a stored website keeps every tick backed |
| HubEvents.ReplyAccounted | src/hub/index.ts:164-183 | Handling a reply loses no row, lowers no payout, only appends ticks, and raises total payouts by exactly 100 per tick added |
| HubEvents.StepInvariant | src/hub/index.ts:34-66 | Every admissible event keeps the hub consistent and its payout books balanced |
| HubEvents.Run | src/hub/index.ts:31-188 | An empty run changes nothing, and no run changes the website store |
| HubEvents.RunInvariant | src/hub/index.ts:31-188 | Over any run of events, the hub stays consistent. No row is lost, no payout falls, and ticks are only appended. Total payouts grow by exactly 100 per tick recorded |
| ValidatorNode.OnConnect | src/validator/index.ts:35-56 | Connecting registers the signup callback and sends one signup from 127.0.0.1 with the node's key and a signature over the signup text for that callback id and key |
| ValidatorNode.Classify | src/validator/index.ts:103-136 | Status is `Good` exactly when the fetch answered 200. A response reports its latency, and a failed fetch reports `Bad` with latency 1000 |
| ValidatorNode.ValidateHandler | src/validator/index.ts:93-137 | No reply exactly when the validator id is unset or empty. Otherwise the reply echoes the request's callback id and website id and the node's validator id, and carries the signature over the reply text. Status is `Good` exactly on HTTP 200, and latency is 1000 after a failed fetch |
| ValidatorNode.OnValidate | src/validator/index.ts:74-81 | Without a validator id the request is queued at the back and nothing is sent. With one, exactly its reply is sent and the state is unchanged |
| ValidatorNode.DrainReplies | src/validator/index.ts:69-72 | Draining sends one reply per queued request when the id is set, and nothing otherwise |
| ValidatorNode.DrainInOrder | src/validator/index.ts:69-72 | The k-th message sent while draining is the reply to the k-th queued request |
| ValidatorNode.DrainQueue | src/validator/index.ts:69-72 | The shift-and-handle loop empties the queue and sends exactly the replies of the in-order drain |
| ValidatorNode.OnSignupAck | src/validator/index.ts:61-72 | The answer sets the validator id and empties the queue. It removes no callback other than the one under `undefined`. With an empty id it sends nothing |
| ValidatorNode.SignupCallbackStays | src/validator/index.ts:37-64 | The callback registered on connect is still registered after the signup answer |
| ValidatorNode.DrainedIds | src/validator/index.ts:69-72 | The replies sent while draining carry exactly the queued callback ids, in order |
| ValidatorNode.AckAccountsRequests | src/validator/index.ts:61-72 | A signup answer with an id turns the whole queue into replies, in order |
| ValidatorNode.ValidateAccountsRequests | src/validator/index.ts:74-81 | A request is either answered at once or appended to the queue |
| ValidatorNode.ConnectAccountsRequests | src/validator/index.ts:35-56 | Connecting neither answers nor queues any request |
| ValidatorNode.StepAccountsRequests | src/validator/index.ts:58-82 | Each event keeps "replies sent, then queue" equal to "old queue, then requests received" |
| ValidatorNode.NodeStep | src/validator/index.ts:35-82 | A dropped socket changes nothing. Connecting sends one signup. A probe request is answered by at most one reply. A signup answer empties the queue with at most one reply per queued request. Only connecting adds a callback |
| ValidatorNode.NoRequestLost | src/validator/index.ts:58-82 | Over any run in which every signup answer carries an id, the replies sent followed by what is still queued are exactly the queued and received requests, in order: none lost, duplicated or reordered |
| EndToEnd.NodeSignupVerifies | src/validator/index.ts:42-55 | The signup a genuine node sends passes the hub's signup check |
| EndToEnd.NodeReplyVerifies | src/validator/index.ts:101-121 | A genuine node's reply to a probe sent to its key passes the hub's reply check |
| EndToEnd.GenuineReplyCommits | src/hub/index.ts:142-185 | A genuine node's reply to a pending probe records one tick with the reply's status and latency, credits the node 100, raises total payouts by 100, and retires the probe |
| EndToEnd.DisconnectStopsProbes | src/hub/index.ts:60-66 | Once the only entry on a socket is removed, the next periodic task sends nothing to that socket |
| EndToEnd.SignupStage | src/hub/index.ts:70-101 | A fresh node's signup to a hub without validators creates row V1 and registers the node's socket |
| EndToEnd.TickStage | src/hub/index.ts:119-188 | With one website and one entry, the periodic task sends one probe and registers one pending probe |
| EndToEnd.NodeStage | src/validator/index.ts:61-81 | After the signup answer, the node answers the probe `Good` with latency 42 |
| EndToEnd.ReplyStage | src/hub/index.ts:142-185 | The verified reply records tick (T1, V1, Good, 42), makes V1 owed 100, and clears the table |
| EndToEnd.CanonicalRound | src/hub/index.ts:31-188 | Signup, one periodic task and one good reply, chained: exactly one tick (T1, V1, Good, 42), V1 owed 100, nothing pending |

## Left out

- Socket.IO, the HTTP server and `server.listen`. Messages are values and sockets are opaque ids.
- The `setInterval` timing. Each run of the periodic task is an explicit event.
- Prisma and the database:
  - the stores are sequences in insertion order, and `findFirst` is the first match;
  - tick ids and `createdAt` are not modelled;
  - the transaction is one atomic step.
- The website store is never edited by any modelled event. The API that edits it is not part of this model.
- tweetnacl, Solana keys and base58 are an abstract `Scheme` and `KeyPair`.
- uuid generation, the id the database gives a new row, `fetch` and `Date.now()` are inputs of the event. Freshness of the generated ids is a precondition (`Admissible`, `FreshIds`).
- JSON envelopes, `.env`/`PRIVATE_KEY` loading, logging, `connect_error`, and the API and seed scripts are not modelled.
- Interleaving across `await` is not modelled. Each handler is one atomic step, in arrival order.
- DecodeSignature: it accepts only arrays of unsigned JSON integers without fraction or exponent. Other texts that `JSON.parse` and `Uint8Array` would accept count as undecodable here, so the hub would reject them. Examples are a bare number (which makes that many zero bytes), negative numbers, fractions, strings and `null`.
- DecodeSignature: an element of 2^53 or more is reduced modulo 256 exactly. `JSON.parse` first rounds it to a double, so the hub can decode a different byte. For example, `[18014398509481985]` decodes to `[0]` in the hub and to `[1]` here.
- CompleteProbe: when the claimed validator id has no row, the transaction fails and nothing is committed. The model keeps only that. In the code, the completion handler's promise is not awaited (src/hub/index.ts:55), so the failure is an unhandled rejection. Under Node's default unhandled-rejection mode this ends the hub process, which discards the registry and the correlation table. The model's hub carries on.
- CompleteProbe: a reply whose `status` is not one of the two statuses, whose `latency` is not an integer, or whose `validatorId` is not a string cannot be expressed. `ValidateReply` types these fields. The tick's status is an enumeration of the two statuses and its latency is an integer. So in the code such a signed reply makes the tick insert throw, with the same outcome as a missing row: nothing is committed and the process ends.
- HandleSignup: a new validator row starts with pending payouts 0. That is taken to be the database default, since the signup handler does not set the field (src/hub/index.ts:76-83). The schema is not part of this model.
- Credit: pending payouts and latency are unbounded integers. The database column's 32-bit range is not modelled.
- HandleValidateReply: callback ids that collide with JavaScript object-prototype keys are not modelled. The table is a plain map.
- ValidateHandler: the HTTP status the node compares with 200 is an input. Statuses other than numbers are not modelled.

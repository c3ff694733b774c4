# Live chat synchronisation, modelled in Dafny

This project models the live chat layer of an investor portal. An investor and the
admins exchange messages in per-investor conversations. Messages reach the browser
over two paths:
- the HTTP reply to a send;
- a socket.io push (`new_message`).

The browser also shows an optimistic placeholder until the server confirms a send. The
model covers three cooperating pieces.

- **The transport wrapper** (`SocketClient`, module `Socket`, file `socket.dfy`). It keeps:
  - the base-URL normalisation;
  - the subscriber registry (event name to an insertion-ordered set of callbacks,
    with the key removed once its set is empty) and its `emit` loop;
  - the normaliser of inbound `new_message` payloads;
  - room membership that emits `join_conversation` at most once per room;
  - the reconnect-attempt counter and its give-up bound of 5;
  - the outbound emits.

  The socket.io connection is reduced to three booleans: a socket exists, it is
  connected, the library still retries. Every emit is appended to an output log
  `sent`, so "exactly one emit" can be stated.
- **The conversation hook** (`useConversation`, class `ConversationHook.ConversationHook`).
  It keeps:
  - the message cache (conversation id to messages);
  - the set of processed identity keys;
  - the typing map, the online list and the connection flag.

  Its handlers are methods. The list transforms they apply are pure functions in
  module `MessageCache` (pushes, optimistic send, confirmation, rollback) and module
  `Presence` (typing and online lists). An asynchronous handler is split at its
  `await`. What the awaited HTTP call returned is a parameter, and so is the clock.
- **The conversation screen** (module `ConversationView`). It covers:
  - the order-preserving dedup-by-id loop;
  - the typing-indicator debounce, as a class `TypingIndicator` over a flag, a pending
    timer and the typing signals sent;
  - the filter of who else is typing;
  - sender classification, React keys and the access check.

Supporting modules:
- `Wrappers` (`Option`);
- `Strings`: JavaScript's `String(n)` with injectivity, `trim` over the ECMAScript
  whitespace set, `includes`;
- `Seqs`: JavaScript `Set` semantics on insertion-ordered lists (`Remove`, `Distinct`,
  `NoDup`, subsequence);
- `ChatTypes`: roles, the session, the `Message` record.

Conventions:
- A missing optional field is `None`. A missing string is `""`.
- JavaScript truthiness of an id is "present and non-zero" (`ChatTypes.Truthy`).
- A session's `id` is the integer that `parseInt` reads from it.

The main results:
- A push never puts a second copy of an id on screen (`MergeIncomingKeepsUniqueIds`).
- Handling a push twice is handling it once (`PushTwice`).
- A failed send leaves the lists and the processed set exactly as before
  (`RollbackUndoesSend`).
- Whichever of the HTTP confirmation and the socket echo arrives first, the confirmed
  message ends up shown exactly once with no placeholder left (`SendConverges`).
- Joining rooms emits one join per new room (`JoinEmitsOnce`, `GetConversations`).
- The dedup pass keeps exactly the first message of every truthy id, in order
  (`DeduplicateSpec`).
- With the debounce corrected, the other side's indicator always agrees with the
  screen's flag (`TypingIndicator.Valid`).

## Model

| member | source | states |
|---|---|---|
| Socket.NormalizeBaseUrl | src/lib/socket-client.ts:20-21 | The base URL is a prefix of the configured URL, or of `http://localhost:10000` when none is set. It is at most `/api/v1/` shorter. |
| Socket.NormalizeBaseUrlOfOrigin | src/lib/socket-client.ts:21 | An origin, `origin/` and `origin/api/v1` all normalise to the origin. `origin/api/v1/` keeps `/api/v1`, because the `/api/v1` pattern is anchored at the end and is tried first. |
| Socket.DefaultBaseUrl | src/lib/socket-client.ts:20-21 | With no configured URL the socket targets `http://localhost:10000`. |
| Socket.Subscribe | src/lib/socket-client.ts:165-168 | `on` creates the event's entry if needed. A new callback goes last, after the existing ones; a callback already present leaves the registry as it was. Nobody else is added, other events are untouched, and no empty set or duplicate appears. |
| Socket.SubscribeIdempotent | src/lib/socket-client.ts:165-168 | Registering the same callback twice is registering it once. |
| Socket.UnsubscribeAll | src/lib/socket-client.ts:170-174 | `off(event)` removes the event key and everything under it. Other events are untouched. |
| Socket.Unsubscribe | src/lib/socket-client.ts:175-178 | `off(event, cb)` removes exactly `cb`. The key survives iff another callback remains. Other events are untouched. |
| Socket.SubscribeThenUnsubscribe | src/lib/socket-client.ts:165-179 | Removing a callback that was just added restores the registry, including deletion of a key that was created for it. |
| Socket.TransformSocketMessage | src/lib/socket-client.ts:52-66 | The delivered message keeps the id and the conversation and is not optimistic. Its text is `text` when non-empty, else `Text`, and is empty only when both are. A given `createdAt` is kept, and a missing one is replaced by the current time. `senderId` and `senderRole` each take the explicit field when present, else the nested sender's, else stay absent. |
| Socket.JoinEmitsOnce | src/lib/socket-client.ts:190-206 | Joining a list of rooms emits exactly one `join_conversation` for each listed room not joined before, and no other emit. |
| Socket.SocketClient.constructor | src/lib/socket-client.ts:9-23 | A new client has a normalised base URL, no socket, no user, no listeners and no rooms. Its counter is 0. |
| Socket.SocketClient.Connect | src/lib/socket-client.ts:25-49 | Does nothing while a connected socket exists. Otherwise it records the user and opens a fresh, not yet connected socket with retries on. |
| Socket.SocketClient.OnTransportConnect | src/lib/socket-client.ts:75-81 | A connect resets the attempt counter to 0 and emits `authenticate` with the user id. |
| Socket.SocketClient.OnTransportDisconnect | src/lib/socket-client.ts:88-91 | A transport disconnect marks the socket disconnected and notifies exactly the `disconnected` subscribers. |
| Socket.SocketClient.OnConnectError | src/lib/socket-client.ts:93-101 | Each connection error adds one to the counter. Once the counter reaches the bound, the socket is disconnected and stops retrying. The `connect_error` subscribers are notified. |
| Socket.SocketClient.On | src/lib/socket-client.ts:165-168 | The registry becomes `Subscribe` of the old one. |
| Socket.SocketClient.Off | src/lib/socket-client.ts:170-179 | The registry becomes `UnsubscribeAll` or `Unsubscribe` of the old one, depending on whether a callback is given. |
| Seqs.KeepMembers | src/lib/socket-client.ts:184-186 | The callbacks that `emit` reports as having thrown are exactly those that were called and throw. |
| Socket.SocketClient.Emit | src/lib/socket-client.ts:181-187 | Every registered callback of the event is called, in registration order. The callbacks that throw are exactly the throwing ones among them, and a throw does not stop the loop. |
| Socket.SocketClient.JoinConversation | src/lib/socket-client.ts:190-206 | Without a connection or a truthy user id nothing changes. Otherwise a room not joined before is recorded and emitted once, and a joined room emits nothing. |
| Socket.SocketClient.LeaveConversation | src/lib/socket-client.ts:208-214 | Nothing happens while disconnected. When connected, the room is forgotten and `leave_conversation` is emitted, whether or not the room was joined. |
| Socket.SocketClient.SendMessageSocket | src/lib/socket-client.ts:216-229 | Returns true exactly when connected with a user, and only then emits `send_message` with the text and user id. |
| Socket.SocketClient.SetTyping | src/lib/socket-client.ts:231-234 | Emits `typing` exactly when connected with a user. |
| Socket.SocketClient.RequestConversation | src/lib/socket-client.ts:236-239 | Emits `get_conversation` exactly when connected with a user. |
| Socket.SocketClient.MarkAsRead | src/lib/socket-client.ts:241-244 | Emits `message_read` exactly when connected. No user is needed. |
| Socket.SocketClient.Disconnect | src/lib/socket-client.ts:246-259 | A connected socket first notifies its `disconnected` subscribers. Afterwards there is no socket, no listener, no joined room and no user. |
| Socket.SocketClient.IsConnected | src/lib/socket-client.ts:261-263 | True exactly when a socket exists and is connected. |
| Socket.JoinTwiceEmitsOnce | src/lib/socket-client.ts:196-204 | Two joins of the same room while connected leave it joined, with at most one emit, and exactly one when it was new. |
| Socket.ErrorsExhaustRetries | src/lib/socket-client.ts:93-101 | From a reset counter, five consecutive connection errors switch retries off and leave the socket disconnected. |
| Strings.IntToStringInjective | src/hooks/useConversation.ts:30 | Two ids print to the same decimal text iff they are equal, so string keys identify ids. |
| Strings.TrimIsInfix | src/hooks/useConversation.ts:221 | `trim` returns a contiguous slice of the input. Only whitespace is cut from either end, and no whitespace is left at either end. |
| Strings.TrimEmptyIffBlank | src/hooks/useConversation.ts:221 | `text.trim()` is empty iff every character is ECMAScript whitespace. |
| MessageCache.ToIdKey | src/hooks/useConversation.ts:30 | The key is empty exactly for a missing id. |
| MessageCache.ToIdKeyInjective | src/hooks/useConversation.ts:30 | Two ids have the same key iff they are equal, absence included. |
| MessageCache.IdStringIs | src/hooks/useConversation.ts:263 | `String(m.id)` equals the text of a number iff the id is that number. A missing id prints `undefined` and matches none. |
| MessageCache.IncomingKey | src/hooks/useConversation.ts:112-114 | Every push has a non-empty identity key. |
| MessageCache.IncomingKeyOfId | src/hooks/useConversation.ts:112-118 | A push with an id shares its key with exactly the pushes carrying that id. It never shares a key with an id-less fallback key. |
| MessageCache.FindOptimistic | src/hooks/useConversation.ts:125-129 | Returns the first placeholder whose text equals the non-empty incoming text, or -1 when there is none. |
| MessageCache.HasIdKey | src/hooks/useConversation.ts:137 | True iff the incoming id is present and some listed message has that same id. |
| MessageCache.Normalize | src/hooks/useConversation.ts:142-149 | The stored copy keeps id, text and sender and is not optimistic. It belongs to the conversation and keeps the original time. |
| MessageCache.NormalizeOfTransformed | src/hooks/useConversation.ts:142-149 | Normalising what the transport delivered changes nothing. |
| MessageCache.MergeIncoming | src/hooks/useConversation.ts:122-151 | The cache updater of a push: the list loses at most one message and gains at most one. Its content and order are stated by `MergeIncomingChanges` and `MergeIncomingOrder`. |
| MessageCache.MergeIncomingChanges | src/hooks/useConversation.ts:122-151 | A push removes at most one message, and that message is a placeholder with the incoming text. It adds at most one, the stored copy. A matching placeholder is always removed. |
| MessageCache.MergeIncomingOrder | src/hooks/useConversation.ts:131-151 | The messages that stay keep their order. A new message is at the end. |
| MessageCache.MergeIncomingKeepsPrefix | src/hooks/useConversation.ts:125-134 | Messages before the first matching placeholder stay where they were. |
| MessageCache.MergeIncomingShows | src/hooks/useConversation.ts:137-151 | After a push its id is on screen. An id-less push is the last entry. |
| MessageCache.MergeIncomingAppendsNew | src/hooks/useConversation.ts:137-151 | When no listed message has the incoming id, the stored copy is appended at the end. |
| MessageCache.MergeIncomingKeepsUniqueIds | src/hooks/useConversation.ts:137-151 | If the list had at most one message per id, it still does after a push. |
| MessageCache.Push | src/hooks/useConversation.ts:112-152 | The key is recorded as processed. A key seen before leaves the whole store unchanged. Otherwise only the push's conversation changes, by the merge. |
| MessageCache.PushTwice | src/hooks/useConversation.ts:116-120 | Handling the same push twice is handling it once. |
| MessageCache.SendRefusal | src/hooks/useConversation.ts:216-224 | No session gives "Not authenticated". Otherwise the send is refused as empty iff the text is all whitespace, and accepted iff it has a non-whitespace character. |
| MessageCache.TempMessageShape | src/hooks/useConversation.ts:232-240 | An accepted send's placeholder is optimistic and carries the temp id and the conversation. Its text is non-empty and already trimmed. |
| MessageCache.AddOptimistic | src/hooks/useConversation.ts:242-247 | The temp key is recorded and the placeholder appended to that conversation's list. Nothing else changes. |
| MessageCache.WithoutTemp | src/hooks/useConversation.ts:263 | Exactly the placeholders of the temp id are removed. With none present the list is unchanged. |
| MessageCache.WithoutTempCounts | src/hooks/useConversation.ts:263 | Every message other than a placeholder of the temp id keeps its number of copies, and no placeholder of it is left. |
| MessageCache.WithoutTempKeepsUniqueIds | src/hooks/useConversation.ts:263 | Filtering out the placeholder keeps at most one message per id. |
| MessageCache.WithoutTempIsSubseq | src/hooks/useConversation.ts:289-292 | The rollback filter keeps the remaining messages in order. |
| MessageCache.RealIdKeyIsEchoKey | src/hooks/useConversation.ts:257-259 | With a real id, the key recorded on success is the very key under which the socket echo of that message arrives. |
| MessageCache.RealMessage | src/hooks/useConversation.ts:272-279 | The confirmed message carries the real id, the sender and the conversation and is not optimistic. Its text is the server's text, else the trimmed input. |
| MessageCache.ConfirmListAsWritten | src/hooks/useConversation.ts:261-282 | As written: the placeholders of the temp id are filtered out and the rest of the list is kept in order. The confirmed message is appended at the end unless a message with the real key, or a non-optimistic one with the same text, is already listed. No placeholder remains. |
| MessageCache.ConfirmList | src/hooks/useConversation.ts:261-282 | Corrected: the placeholders are filtered out and the rest is kept in order. The confirmed message is appended at the end unless a message with the real key is already listed. No placeholder remains, a real id is on screen afterwards, and at most one message per id is preserved. |
| MessageCache.ConfirmListKeepsOthers | src/hooks/useConversation.ts:261-282 | Every message other than the placeholder stays. The result is a subsequence of the old list, or one followed by the confirmed message. |
| MessageCache.ConfirmAsWritten | src/hooks/useConversation.ts:256-282 | As written: records the real key. The conversation's list becomes the as-written confirmed list of its old list (an absent entry read as empty), and other conversations are untouched. |
| MessageCache.Confirm | src/hooks/useConversation.ts:256-282 | Corrected success branch: records the real key. The conversation's list becomes the corrected confirmed list of its old list, so the placeholder is gone, the real id shows and ids stay unique. Other conversations are untouched. |
| MessageCache.Rollback | src/hooks/useConversation.ts:288-304 | Failure and exception branches: the temp key is forgotten and exactly the placeholders are removed. Other conversations are untouched. |
| MessageCache.RollbackUndoesSend | src/hooks/useConversation.ts:228-304 | After a started, then failed send, the processed set and every conversation's list are as before. The cache is unchanged when the conversation had an entry. Otherwise it gains an empty entry for it, which later counts as cached. |
| MessageCache.SendConverges | src/hooks/useConversation.ts:256-282 | Echo before confirmation, or confirmation before echo: either way the confirmed id is on screen exactly once and no placeholder is left. |
| MessageCache.ConfirmAsWrittenHidesMessage | src/hooks/useConversation.ts:259-270 | As written: an earlier "hi" passes for the confirmation of a new "hi", and the list ends without the confirmed message 101. |
| MessageCache.ConfirmShowsMessage | src/hooks/useConversation.ts:256-282 | Corrected: the same run ends with the earlier "hi" followed by message 101, shown exactly once, with no placeholder. |
| Presence.TypingAfter | src/hooks/useConversation.ts:93-105 | A start adds the user once, and leaves the map untouched when the user is already listed. A stop removes every copy of the user. Other users and other conversations are untouched, and no duplicate appears. |
| Presence.TypingStartThenStop | src/hooks/useConversation.ts:96-102 | A start followed by a stop of a user who was not typing restores the list. |
| Presence.TypingStopKeepsOrder | src/hooks/useConversation.ts:102 | A stop keeps the other typing users in order. |
| Seqs.DistinctNoDup | src/hooks/useConversation.ts:86 | `Array.from(new Set(...))` never lists an element twice. |
| Seqs.RemoveNoDup | src/hooks/useConversation.ts:88 | Filtering a duplicate-free list keeps it duplicate-free. |
| Presence.OnlineAfter | src/hooks/useConversation.ts:82-91 | Online adds the user with set semantics. Offline filters the user out. Nobody else changes and no duplicate appears. |
| Presence.OnlineAfterInsertsAtEnd | src/hooks/useConversation.ts:86 | On a duplicate-free list, coming online appends the user at the end unless already present. |
| ConversationHook.CreatedRoom | src/hooks/useConversation.ts:407-420 | A room is joined iff the create succeeded with a truthy id, or was refused with "Existing conversation found" and a truthy id. |
| ConversationHook.ConversationHook.constructor | src/hooks/useConversation.ts:17-28 | The hook starts with no session, an empty cache, no processed keys, no typing or online users, and is not connected. |
| ConversationHook.ConversationHook.SessionChanged | src/hooks/useConversation.ts:33-211 | The session effect (lines 33-41 and 201-211). With a session, the socket is connected only the first time: a closed socket is created for the user and left waiting for the transport. Its subscribers, rooms, emits and attempt counter are kept, and the connection flag picks up a socket that is already open. When the session ends after a connection, the socket is torn down and the processed set is cleared. The cache is kept. |
| ConversationHook.ConversationHook.OnAuthenticated | src/hooks/useConversation.ts:50-53 | Authentication sets the connection flag. |
| ConversationHook.ConversationHook.OnDisconnected | src/hooks/useConversation.ts:55-58 | A disconnect clears the connection flag. |
| ConversationHook.ConversationHook.OnConnectError | src/hooks/useConversation.ts:60-63 | A connection error clears the connection flag. |
| ConversationHook.ConversationHook.OnUserStatusChange | src/hooks/useConversation.ts:82-91 | The online list becomes `OnlineAfter` of the old one. |
| ConversationHook.ConversationHook.OnUserTyping | src/hooks/useConversation.ts:93-105 | The typing map becomes `TypingAfter` of the old one. |
| ConversationHook.ConversationHook.OnNewMessage | src/hooks/useConversation.ts:107-152 | Cache and processed set become `Push` of the old ones. |
| ConversationHook.ConversationHook.BeginSend | src/hooks/useConversation.ts:216-249 | A refused send changes nothing and emits nothing. An accepted one adds the placeholder and the temp key, and emits `send_message` with the trimmed text exactly when the socket can. |
| ConversationHook.ConversationHook.CompleteSend | src/hooks/useConversation.ts:254-307 | Success applies the corrected confirmation, sends typing=false and replies with the data. Failure or exception applies the rollback, emits nothing, and replies with the server's error or "Unexpected error". |
| ConversationHook.ConversationHook.ClearConversationCache | src/hooks/useConversation.ts:315-322 | Only that conversation's entry is deleted. |
| ConversationHook.ConversationHook.GetConversation | src/hooks/useConversation.ts:324-356 | A cached list is returned without fetching, even an empty one. Otherwise a successful fetch replaces the list wholesale and an error changes nothing. No session gives "Not authenticated". |
| ConversationHook.ConversationHook.HandleTyping | src/hooks/useConversation.ts:358-361 | A typing signal is forwarded only with a session and the connection flag set. |
| ConversationHook.JoinEach | src/hooks/useConversation.ts:369-371 | Joining each listed id in turn, while connected with a user, records every id as joined and emits exactly `JoinEmits` of the list. Otherwise it changes nothing. |
| ConversationHook.ConversationHook.GetConversations | src/hooks/useConversation.ts:363-375 | While connected, every listed conversation is joined, with exactly the emits of `JoinEmits`: one per room not joined before. |
| ConversationHook.ConversationHook.GetUserConversation | src/hooks/useConversation.ts:377-390 | A non-investor gets "Only investors have conversations". An investor's conversation is joined while connected. |
| ConversationHook.ConversationHook.HandleCreateConversation | src/hooks/useConversation.ts:392-431 | A non-investor gets "Unauthorized" and nothing is emitted. An investor joins the room `CreatedRoom` names. An exception gives "Unexpected error". |
| ConversationHook.ConversationHook.JoinConversationRoom | src/hooks/useConversation.ts:445-447 | Same as joining through the client: once per room, only when connected with a user. |
| ConversationView.DeduplicateMessages | src/components/conversation/ConversationDetails.tsx:62-79 | The loop returns exactly `Deduplicate` of its input. |
| ConversationView.DeduplicateSpec | src/components/conversation/ConversationDetails.tsx:62-79 | The output is a subsequence of the input with truthy, pairwise-distinct ids. Each output message is the first input message with its id, and every first occurrence of a truthy id is kept. |
| ConversationView.DedupFromIds | src/components/conversation/ConversationDetails.tsx:67-72 | From any point of the loop, the remaining output has truthy ids, distinct from each other and from those already seen. |
| ConversationView.DedupFromIsSubseq | src/components/conversation/ConversationDetails.tsx:66-76 | The loop keeps input order. |
| ConversationView.DedupFromSound | src/components/conversation/ConversationDetails.tsx:66-76 | Only first occurrences of ids not yet seen are kept. |
| ConversationView.DedupFromComplete | src/components/conversation/ConversationDetails.tsx:67-72 | Every first occurrence of a truthy id not yet seen is kept. |
| ConversationView.GetMessageKey | src/components/conversation/ConversationDetails.tsx:148-154 | Every key starts with `msg_`. |
| ConversationView.GetMessageKeyById | src/components/conversation/ConversationDetails.tsx:149-151 | Two messages with truthy ids share a key iff they share the id. |
| ConversationView.IdKeyIsNotFallbackKey | src/components/conversation/ConversationDetails.tsx:148-154 | An id key never equals a fallback key. |
| ConversationView.DeduplicatedKeysDistinct | src/components/conversation/ConversationDetails.tsx:148-154 | After deduplication every rendered message gets its own key. |
| ConversationView.OtherUsersTyping | src/components/conversation/ConversationDetails.tsx:95-96 | The shown list never contains the current user and contains every other typing user. |
| ConversationView.IsMessageFromCurrentUser | src/components/conversation/ConversationDetails.tsx:139-145 | A truthy `senderId` decides: the message is the user's iff it is their id. Without one, an admin owns admin messages and anyone else owns investor messages. |
| ConversationView.OwnStampIsMine | src/components/conversation/ConversationDetails.tsx:139-145 | A message stamped with the user's own id and role is classified as theirs, unless the id is 0 and the session has no role. |
| ConversationView.OwnMessagesAreMine | src/components/conversation/ConversationDetails.tsx:139-145 | The user's own placeholder and their confirmed message are both classified as theirs. |
| ConversationView.MustRedirect | src/components/conversation/ConversationDetails.tsx:42-50 | The screen stays iff the user is an admin or owns the conversation. |
| ConversationView.InputChangeSignals | src/components/conversation/ConversationDetails.tsx:120-128 | Non-empty text while not typing sends typing=true. Empty text while typing sends typing=false. Nothing else sends anything. |
| ConversationView.InputChangeStep | src/components/conversation/ConversationDetails.tsx:114-136 | After an input change the flag says whether the text is non-empty. A single new 2000 ms timer replaces any earlier one and captures the flag as it was before the change. |
| ConversationView.InputChangeSignalsFlips | src/components/conversation/ConversationDetails.tsx:120-128 | An input change sends a signal iff the flag flips, and the signal carries the new value. |
| ConversationView.ExpireAsWritten | src/components/conversation/ConversationDetails.tsx:130-136 | As written: the timer is cleared, and stop-typing is sent only when the captured flag was set. |
| ConversationView.Expire | src/components/conversation/ConversationDetails.tsx:130-136 | Corrected: after expiry the flag is off and no timer remains. Stop-typing is sent iff the user was typing. |
| ConversationView.ExpireAsWrittenLeavesIndicatorOn | src/components/conversation/ConversationDetails.tsx:114-136 | As written: one keystroke, then the timer fires, and the other side still sees typing with no timer left to stop it. |
| ConversationView.DebounceAgreement | src/components/conversation/ConversationDetails.tsx:114-136 | Corrected: input changes and expiry keep the other side's indicator equal to the flag. After expiry both are off. |
| ConversationView.TypingIndicator.constructor | src/components/conversation/ConversationDetails.tsx:40 | The screen starts not typing, with no timer and no signal sent. |
| ConversationView.TypingIndicator.InputChange | src/components/conversation/ConversationDetails.tsx:114-137 | The state and the signal log follow `InputChangeStep` and `InputChangeSignals`. The other side still agrees with the flag. |
| ConversationView.TypingIndicator.TimerFired | src/components/conversation/ConversationDetails.tsx:130-136 | The state and the log follow the corrected `Expire`. Agreement is kept. |
| ConversationView.TypingIndicator.SendSucceeded | src/components/conversation/ConversationDetails.tsx:101-110 | After a successful send the flag is off, stop-typing is sent and the timer is cancelled. |
| ConversationView.TypingIndicator.Unmount | src/components/conversation/ConversationDetails.tsx:157-163 | Unmounting only cancels the timer. |

## Left out

- The socket.io library: `io(...)` options, physical connect and close, the 1 s to 5 s
  backoff, the 20 s timeout and the socket id (`getSocketId`). Connectivity is a
  boolean changed by the transport-event methods.
- `setupEventListeners`: the forwarding handlers for `authenticated`,
  `reconnect_attempt`, `user_typing`, `user_status_change`, `new_message`,
  `conversation_created`, `operation_error` and the like are plain forwards into
  `emit`, whose behaviour is modelled. The forwarding itself is not modelled.
- The hook's attaching and detaching of its subscribers (`listenersAttached`). Its
  handlers are methods called directly. The `conversation_created`,
  `operation_error` and `authentication_error` handlers only show toasts or
  navigate, and are not modelled.
- Toasts, `router.push`/`replace`, `console` output, the `loading` flag, scrolling and
  rendering.
- The HTTP server actions. Their results are parameters: success with
  `{id, text, createdAt}`, failure with an error, or an exception.
- The clock and date parsing. `Date.now()`, `new Date().toISOString()` and the
  message time in milliseconds, `getTime()`, are parameters. An unparsable date
  (`NaN`) is not modelled.
- `parseInt(session.id)`: the session id is already an integer.
- JavaScript numbers: ids, `Date.now()` temp ids and times are doubles in the
  source, and `String(n)` switches to exponent form from 1e21. The model takes them
  to be safe integers and uses unbounded `int` with plain decimal printing.
- Interleaving inside `getConversation`. It is one step whose fetch result is a
  parameter. `handleSendMessage` is split at its `await`, so pushes can arrive in
  between.
- The screen's `syncMessages` effect, which feeds the dedup pass with the loaded
  list.
- ConversationView.GetMessageKey: `substring(0, 10)` is taken as the first ten
  characters, because strings are sequences of characters here, not of UTF-16 code
  units.
- A `transformSocketMessage` payload whose `message` is missing (the source would
  throw) is not modelled.
- What the server does with the rooms after a transport reconnect. The client does
  not clear `joinedConversations` on a reconnect, so it sends no new joins then;
  the model behaves the same way.
- MessageCache.ConfirmListAsWritten and MessageCache.ConfirmAsWritten: these model
  the as-written text match, which can hide the confirmed message. They promise no
  "shown exactly once"; the finding below shows how that fails.
- ConversationHook.ConversationHook.CompleteSend: the class runs the corrected
  `ConfirmList`, which tests only the real key, and not the text match of
  src/hooks/useConversation.ts:265-266. The as-written branch is modelled on values
  by `MessageCache.ConfirmAsWritten`.
- Message ids are a number or absent (`Option<int>`). The source's `undefined` and
  `null` are not told apart. `toIdKey` treats both alike, but the test
  `incoming.id !== undefined` would let a `null` id through to the id search, where
  its empty key matches any listed message without an id. A `null` id from the
  server is not modelled.
- ConversationView.ExpireAsWritten: the as-written expiry does not keep the
  other side in agreement; the class uses the corrected `Expire`.
- ConversationView.TypingIndicator.TimerFired: runs the corrected `Expire`, which
  tests the current flag, not the captured flag of
  src/components/conversation/ConversationDetails.tsx:130-136. The as-written
  expiry is modelled on values by `ConversationView.ExpireAsWritten`.

## Findings

| source | as written | input that shows it | evidently intended | confidence | as-written member | corrected member |
|---|---|---|---|---|---|---|
| src/hooks/useConversation.ts:259-270 | The success branch treats any earlier non-optimistic message with the same text as the confirmed message. It also records the real id as processed, so the socket echo is skipped as well. | Conversation 7 holds message 5 "hi". The user sends "hi" again under temp id 1000. The server confirms it as message 101 before the echo arrives. The placeholder is removed, nothing is appended and the echo of 101 is dropped, so message 101 never appears (`MessageCache.ConfirmAsWrittenHidesMessage`). | When the server returns an id, only a message with that id counts as already present. The confirmed message then shows exactly once in either arrival order (`MessageCache.SendConverges`, `MessageCache.ConfirmShowsMessage`). | not executed | MessageCache.ConfirmAsWritten | MessageCache.Confirm |
| src/components/conversation/ConversationDetails.tsx:130-136 | The expiry timer tests the `isTyping` value of the render that scheduled it, which is the flag from before this keystroke. | From idle, one keystroke sets the flag and sends typing=true. The timer it schedules captured `false`, so when it fires it sends nothing and leaves the flag set. The other side shows "typing" indefinitely (`ConversationView.ExpireAsWrittenLeavesIndicatorOn`). | Two seconds without input stop the indicator. The other side then always agrees with the flag (`ConversationView.DebounceAgreement`, `ConversationView.TypingIndicator.Valid`). | not executed | ConversationView.ExpireAsWritten | ConversationView.Expire |

/**
 * The conversation hook as an object: the state it keeps across renders (message
 * cache, processed keys, typing map, online list, connection flag, connect-once flag)
 * and one method per handler. Every method states its new state through the pure
 * transitions of `MessageCache` and `Presence`. Asynchronous handlers are split at
 * their `await`, and what the awaited call returned is a parameter.
 */
module ConversationHook {
  import opened Wrappers
  import opened Strings
  import opened ChatTypes
  import opened Socket
  import opened MessageCache
  import opened Presence

  /** How the HTTP `sendMessage` call ended. */
  datatype SendOutcome = HttpSent(data: SentData) | HttpFailed(error: string) | HttpThrew

  /** What `handleSendMessage` resolves to once its HTTP call is back. */
  datatype SendReply = SendOk(data: SentData) | SendError(error: string)

  /** How `fetchConversation` ended. */
  datatype FetchOutcome = FetchOk(messages: seq<Message>) | FetchError(error: string)

  datatype ConversationReply = Loaded(messages: seq<Message>, typingUsers: seq<int>) | LoadError(error: string)

  /** How `fetchConversations` ended: the listed conversations' ids, or an error. */
  datatype ListOutcome = ListOk(ids: seq<int>) | ListError(error: string)

  datatype UserConversationOutcome = UserConversationOk(id: int) | UserConversationError(error: string)

  /** How `createConversation` ended. A refusal carries the server's message and,
      for an existing conversation, its id. */
  datatype CreateOutcome = CreateOk(id: Option<int>) | CreateError(error: string, message: string, id: Option<int>) | CreateThrew

  const ExistingConversation: string := "Existing conversation found"

  /** The room `handleCreateConversation` joins, if any. */
  function CreatedRoom(outcome: CreateOutcome): (room: Option<int>)
    ensures room.Some? ==> room.value != 0
    ensures outcome.CreateOk? ==> (room.Some? <==> Truthy(outcome.id))
    ensures outcome.CreateError? ==>
      (room.Some? <==> Truthy(outcome.id) && exists i :: OccursAt(outcome.message, ExistingConversation, i))
    ensures outcome.CreateThrew? ==> room.None?
    ensures room.Some? ==> outcome.id == room
  {
    match outcome
    case CreateOk(id) => if Truthy(id) then id else None
    case CreateError(_, message, id) =>
      if Contains(message, ExistingConversation) && Truthy(id) then id else None
    case CreateThrew => None
  }

  /** `forEach` over the listed ids, joining each room through the client. */
  method JoinEach(socket: SocketClient, ids: seq<int>)
    requires socket.Valid()
    modifies socket`joinedConversations, socket`sent
    ensures socket.Valid()
    ensures if socket.IsOpen() && socket.HasUser() then
        && socket.joinedConversations == old(socket.joinedConversations) + Seqs.Elements(ids)
        && socket.sent == old(socket.sent) + JoinEmits(ids, old(socket.joinedConversations), socket.userId.value)
      else
        socket.joinedConversations == old(socket.joinedConversations) && socket.sent == old(socket.sent)
  {
    ghost var live := socket.IsOpen() && socket.HasUser();
    for i := 0 to |ids|
      invariant socket.Valid()
      invariant live == (socket.IsOpen() && socket.HasUser())
      invariant live ==> socket.joinedConversations == old(socket.joinedConversations) + Seqs.Elements(ids[..i])
      invariant live ==> socket.sent == old(socket.sent) + JoinEmits(ids[..i], old(socket.joinedConversations), socket.userId.value)
      invariant !live ==> socket.joinedConversations == old(socket.joinedConversations) && socket.sent == old(socket.sent)
    {
      if live {
        JoinEmitsPrefix(ids, old(socket.joinedConversations), socket.userId.value, i);
        Seqs.ElementsSnoc(ids, i);
      }
      socket.JoinConversation(ids[i]);
    }
    assert ids[..|ids|] == ids;
  }

  class ConversationHook {
    var session: Option<Session>
    var cache: Cache
    var processed: set<string>
    var typing: TypingMap
    var online: seq<int>
    var isSocketConnected: bool
    /** `socketInitializedGlobal`. */
    var socketInitialized: bool
    const socket: SocketClient

    ghost predicate Valid()
      reads this, socket
    {
      socket.Valid()
    }

    /** The reconciler's part of the state. */
    function State(): MessageCache.Store
      reads this
    {
      MessageCache.Store(cache, processed)
    }

    constructor (client: SocketClient)
      requires client.Valid()
      ensures Valid() && socket == client
      ensures session.None? && cache == map[] && processed == {} && typing == map[] && online == []
      ensures !isSocketConnected && !socketInitialized
    {
      socket := client;
      session := None;
      cache := map[];
      processed := {};
      typing := map[];
      online := [];
      isSocketConnected := false;
      socketInitialized := false;
    }

    /** The two effects that run when the `session` prop changes. With a session, the
        socket is connected only the first time, and the flag picks up a connection
        that already exists. Without one, after a connection was made, the socket is
        torn down and the processed keys are forgotten; the cache, typing map and
        online list are kept. */
    method SessionChanged(newSession: Option<Session>)
      requires Valid()
      modifies this`session, this`processed, this`isSocketConnected, this`socketInitialized
      modifies socket`userId, socket`hasSocket, socket`connected, socket`retrying,
               socket`listeners, socket`joinedConversations
      ensures Valid()
      ensures session == newSession
      ensures socket.sent == old(socket.sent) && socket.reconnectAttempts == old(socket.reconnectAttempts)
      ensures newSession.Some? ==>
        && socketInitialized
        && processed == old(processed)
        && socket.listeners == old(socket.listeners)
        && socket.joinedConversations == old(socket.joinedConversations)
        && (old(socketInitialized) || old(socket.IsOpen()) ==> unchanged(socket))
        && (!old(socketInitialized) && !old(socket.IsOpen()) ==>
              socket.userId == Some(newSession.value.id) && socket.hasSocket && !socket.connected)
        && isSocketConnected == (old(isSocketConnected) || socket.IsOpen())
      ensures newSession.None? && old(socketInitialized) ==>
        && !socketInitialized && processed == {}
        && !socket.hasSocket && !socket.connected
        && socket.listeners == map[] && socket.joinedConversations == {} && socket.userId == None
        && isSocketConnected == old(isSocketConnected)
      ensures newSession.None? && !old(socketInitialized) ==>
        unchanged(socket) && processed == old(processed) && !socketInitialized && isSocketConnected == old(isSocketConnected)
    {
      session := newSession;
      if newSession.Some? {
        if !socketInitialized {
          socket.Connect(newSession.value);
          socketInitialized := true;
        }
        var open := socket.IsConnected();
        if open {
          isSocketConnected := true;
        }
      } else if socketInitialized {
        var _ := socket.Disconnect();
        socketInitialized := false;
        processed := {};
      }
    }

    /** Subscribers of `authenticated`, `disconnected` and `connect_error`. */
    method OnAuthenticated()
      modifies this`isSocketConnected
      ensures isSocketConnected
    {
      isSocketConnected := true;
    }

    method OnDisconnected()
      modifies this`isSocketConnected
      ensures !isSocketConnected
    {
      isSocketConnected := false;
    }

    method OnConnectError()
      modifies this`isSocketConnected
      ensures !isSocketConnected
    {
      isSocketConnected := false;
    }

    method OnUserStatusChange(user: int, isOnline: bool)
      modifies this`online
      ensures online == OnlineAfter(old(online), user, isOnline)
    {
      if isOnline {
        online := Seqs.Distinct(online + [user]);
      } else {
        online := Seqs.Remove(online, user);
      }
    }

    method OnUserTyping(convo: int, user: int, isTyping: bool)
      modifies this`typing
      ensures typing == TypingAfter(old(typing), convo, user, isTyping)
    {
      var cur := TypingList(typing, convo);
      if isTyping {
        if user !in cur {
          typing := typing[convo := cur + [user]];
        }
      } else {
        typing := typing[convo := Seqs.Remove(cur, user)];
      }
    }

    /** `handleNewMessage` on a transformed push. `time` is the message time in
        milliseconds, the fallback key's last part. */
    method OnNewMessage(ev: NewMessageEvent, time: int, nowIso: string)
      modifies this`cache, this`processed
      ensures State() == Push(old(State()), ev.conversationId, ev.message, time, nowIso)
    {
      var convo := ev.conversationId;
      var key := IncomingKey(convo, ev.message, time);
      if key in processed {
        return;
      }
      processed := processed + {key};
      cache := cache[convo := MergeIncoming(Lookup(cache, convo), convo, ev.message, nowIso)];
    }

    /** The part of `handleSendMessage` before its `await`: refuse, or show the
        placeholder under the temporary id `tempId` (the clock in milliseconds) and
        try the socket. */
    method BeginSend(convo: int, text: string, tempId: int, nowIso: string) returns (refusal: Option<string>)
      requires Valid()
      modifies this`cache, this`processed, socket`sent
      ensures Valid()
      ensures refusal == SendRefusal(session, text)
      ensures refusal.Some? ==> State() == old(State()) && socket.sent == old(socket.sent)
      ensures refusal.None? ==>
        && State() == AddOptimistic(old(State()), session.value, convo, text, tempId, nowIso)
        && socket.sent == old(socket.sent)
             + (if socket.IsOpen() && socket.HasUser() then [SendMessageEvent(convo, Trim(text), socket.userId.value)] else [])
    {
      refusal := SendRefusal(session, text);
      if refusal.Some? {
        return;
      }
      var temp := TempMessage(session.value, convo, text, tempId, nowIso);
      processed := processed + {IntToString(tempId)};
      cache := cache[convo := Lookup(cache, convo) + [temp]];
      var _ := socket.SendMessageSocket(convo, Trim(text));
    }

    /** The part of `handleSendMessage` after its `await`, for the send that `sender`
        started at `tempId`. Success uses the corrected confirmation. */
    method CompleteSend(sender: Session, convo: int, text: string, tempId: int, outcome: SendOutcome,
                        nowMs: int, nowIso: string) returns (reply: SendReply)
      requires Valid()
      modifies this`cache, this`processed, socket`sent
      ensures Valid()
      ensures outcome.HttpSent? ==>
        && reply == SendOk(outcome.data)
        && State() == Confirm(old(State()), sender, convo, text, tempId, outcome.data, nowMs, nowIso)
        && socket.sent == old(socket.sent)
             + (if socket.IsOpen() && socket.HasUser() then [TypingEvent(convo, false, socket.userId.value)] else [])
      ensures !outcome.HttpSent? ==>
        && reply == SendError(if outcome.HttpFailed? then outcome.error else "Unexpected error")
        && State() == Rollback(old(State()), convo, tempId)
        && socket.sent == old(socket.sent)
    {
      var tempKey := IntToString(tempId);
      if outcome.HttpSent? {
        var data := outcome.data;
        processed := processed + {RealIdKey(data, nowMs)};
        cache := cache[convo := ConfirmList(Lookup(cache, convo), sender, convo, text, tempId, data, nowMs, nowIso)];
        socket.SetTyping(convo, false);
        reply := SendOk(data);
      } else {
        cache := cache[convo := WithoutTemp(Lookup(cache, convo), tempKey)];
        processed := processed - {tempKey};
        reply := SendError(if outcome.HttpFailed? then outcome.error else "Unexpected error");
      }
    }

    method ClearConversationCache(convo: int)
      modifies this`cache
      ensures cache == old(cache) - {convo}
    {
      cache := cache - {convo};
    }

    /** `getConversation`: a cached list is returned as it is, without fetching;
        otherwise a successful fetch replaces the conversation's list. */
    method GetConversation(convo: int, fetched: FetchOutcome) returns (reply: ConversationReply)
      modifies this`cache
      ensures session.None? ==> reply == LoadError("Not authenticated") && cache == old(cache)
      ensures session.Some? && convo in old(cache) ==>
        reply == Loaded(old(cache)[convo], TypingList(typing, convo)) && cache == old(cache)
      ensures session.Some? && convo !in old(cache) && fetched.FetchOk? ==>
        reply == Loaded(fetched.messages, TypingList(typing, convo)) && cache == old(cache)[convo := fetched.messages]
      ensures session.Some? && convo !in old(cache) && fetched.FetchError? ==>
        reply == LoadError(fetched.error) && cache == old(cache)
    {
      if session.None? {
        return LoadError("Not authenticated");
      }
      if convo in cache {
        return Loaded(cache[convo], TypingList(typing, convo));
      }
      match fetched
      case FetchOk(messages) =>
        cache := cache[convo := messages];
        reply := Loaded(messages, TypingList(typing, convo));
      case FetchError(error) =>
        reply := LoadError(error);
    }

    /** `handleTyping`: forwarded only with a session and a connection flag. */
    method HandleTyping(convo: int, isTyping: bool)
      requires Valid()
      modifies socket`sent
      ensures Valid()
      ensures socket.sent == old(socket.sent) +
        (if session.Some? && isSocketConnected && socket.IsOpen() && socket.HasUser()
         then [TypingEvent(convo, isTyping, socket.userId.value)] else [])
    {
      if session.None? || !isSocketConnected {
        return;
      }
      socket.SetTyping(convo, isTyping);
    }

    /** `getConversations`: auto-joins every listed conversation while connected;
        each room not joined before is joined with exactly one emit. */
    method GetConversations(listed: ListOutcome) returns (reply: ListOutcome)
      requires Valid()
      modifies socket`joinedConversations, socket`sent
      ensures Valid()
      ensures reply == if session.None? then ListError("Not authenticated") else listed
      ensures if session.Some? && isSocketConnected && listed.ListOk? && socket.IsOpen() && socket.HasUser() then
          && socket.joinedConversations == old(socket.joinedConversations) + Seqs.Elements(listed.ids)
          && socket.sent == old(socket.sent) + JoinEmits(listed.ids, old(socket.joinedConversations), socket.userId.value)
        else
          socket.joinedConversations == old(socket.joinedConversations) && socket.sent == old(socket.sent)
    {
      if session.None? {
        return ListError("Not authenticated");
      }
      reply := listed;
      if !isSocketConnected || !listed.ListOk? {
        return;
      }
      JoinEach(socket, listed.ids);
    }

    /** `getUserConversation`: investors only; joins their conversation while connected. */
    method GetUserConversation(fetched: UserConversationOutcome) returns (reply: UserConversationOutcome)
      requires Valid()
      modifies socket`joinedConversations, socket`sent
      ensures Valid()
      ensures session.None? ==> reply == UserConversationError("Not authenticated")
      ensures session.Some? && session.value.role != Some(Investor) ==>
        reply == UserConversationError("Only investors have conversations")
      ensures session.Some? && session.value.role == Some(Investor) ==> reply == fetched
      ensures if session.Some? && session.value.role == Some(Investor) && fetched.UserConversationOk? && isSocketConnected
                 && socket.IsOpen() && socket.HasUser() && fetched.id !in old(socket.joinedConversations) then
          && socket.joinedConversations == old(socket.joinedConversations) + {fetched.id}
          && socket.sent == old(socket.sent) + [JoinEvent(fetched.id, socket.userId.value)]
        else
          socket.joinedConversations == old(socket.joinedConversations) && socket.sent == old(socket.sent)
    {
      if session.None? {
        return UserConversationError("Not authenticated");
      }
      if session.value.role != Some(Investor) {
        return UserConversationError("Only investors have conversations");
      }
      reply := fetched;
      if fetched.UserConversationOk? && isSocketConnected {
        socket.JoinConversation(fetched.id);
      }
    }

    /** `handleCreateConversation`: investors only; joins the new (or the existing)
        conversation when the reply names it. */
    method HandleCreateConversation(outcome: CreateOutcome) returns (reply: CreateOutcome)
      requires Valid()
      modifies socket`joinedConversations, socket`sent
      ensures Valid()
      ensures session.None? ==> reply == CreateError("Not authenticated", "", None)
      ensures session.Some? && session.value.role != Some(Investor) ==> reply == CreateError("Unauthorized", "", None)
      ensures session.Some? && session.value.role == Some(Investor) ==>
        reply == if outcome.CreateThrew? then CreateError("Unexpected error", "", None) else outcome
      ensures var room := CreatedRoom(outcome);
        if session.Some? && session.value.role == Some(Investor) && room.Some?
           && socket.IsOpen() && socket.HasUser() && room.value !in old(socket.joinedConversations) then
          && socket.joinedConversations == old(socket.joinedConversations) + {room.value}
          && socket.sent == old(socket.sent) + [JoinEvent(room.value, socket.userId.value)]
        else
          socket.joinedConversations == old(socket.joinedConversations) && socket.sent == old(socket.sent)
    {
      if session.None? {
        return CreateError("Not authenticated", "", None);
      }
      if session.value.role != Some(Investor) {
        return CreateError("Unauthorized", "", None);
      }
      var room := CreatedRoom(outcome);
      if room.Some? {
        socket.JoinConversation(room.value);
      }
      reply := if outcome.CreateThrew? then CreateError("Unexpected error", "", None) else outcome;
    }

    method JoinConversationRoom(convo: int)
      requires Valid()
      modifies socket`joinedConversations, socket`sent
      ensures Valid()
      ensures if socket.IsOpen() && socket.HasUser() && convo !in old(socket.joinedConversations) then
          && socket.joinedConversations == old(socket.joinedConversations) + {convo}
          && socket.sent == old(socket.sent) + [JoinEvent(convo, socket.userId.value)]
        else
          socket.joinedConversations == old(socket.joinedConversations) && socket.sent == old(socket.sent)
    {
      socket.JoinConversation(convo);
    }
  }
}

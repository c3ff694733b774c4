/**
 * The transport wrapper (`SocketClient`): base-URL normalisation, the subscriber
 * registry, inbound payload normalisation, idempotent room membership, the
 * reconnect-attempt counter and the outbound emits. The socket.io connection itself
 * is reduced to three booleans (a socket object exists, it is connected, the
 * library still retries) and every outbound emit is appended to `sent`.
 */
module Socket {
  import opened Wrappers
  import opened Strings
  import opened Seqs
  import opened ChatTypes

  /** `maxReconnectAttempts`: connection errors tolerated before giving up. */
  const MaxReconnectAttempts: nat := 5
  /** Used when `NEXT_PUBLIC_API_URL` is unset or empty. */
  const DefaultApiUrl: string := "http://localhost:10000"
  const ApiPath: string := "/api/v1"

  // ---------------------------------------------------------------------------
  // Base URL

  /** The constructor's base URL: the configured API URL (or the default) with a
      trailing `/api/v1` removed and then one trailing `/` removed. */
  function NormalizeBaseUrl(env: string): (url: string)
    ensures var base := if env == "" then DefaultApiUrl else env;
      IsPrefix(url, base) && |base| - |url| <= |ApiPath| + 1
  {
    var base := if env == "" then DefaultApiUrl else env;
    var noApi := if EndsWith(base, ApiPath) then base[..|base| - |ApiPath|] else base;
    if EndsWith(noApi, "/") then noApi[..|noApi| - 1] else noApi
  }

  /** For a server origin written with no path, with `/`, or with `/api/v1`, the socket
      connects to the bare origin; written as `/api/v1/`, the `/api/v1` part survives,
      because the `/api/v1` pattern is anchored at the very end and is tried first. */
  lemma {:induction false} NormalizeBaseUrlOfOrigin(origin: string)
    requires origin != "" && !EndsWith(origin, "/") && !EndsWith(origin, ApiPath)
    ensures NormalizeBaseUrl(origin) == origin
    ensures NormalizeBaseUrl(origin + "/") == origin
    ensures NormalizeBaseUrl(origin + ApiPath) == origin
    ensures NormalizeBaseUrl(origin + ApiPath + "/") == origin + ApiPath
  {
    NormalizeWithSlash(origin);
    NormalizeWithApi(origin);
    NormalizeWithApiSlash(origin);
  }

  lemma NormalizeWithSlash(origin: string)
    requires origin != ""
    ensures NormalizeBaseUrl(origin + "/") == origin
  {
    var withSlash := origin + "/";
    assert withSlash[|withSlash| - 1..] == "/";
    assert withSlash[..|withSlash| - 1] == origin;
    assert !EndsWith(withSlash, ApiPath) by {
      assert withSlash[|withSlash| - 1] == '/';
    }
  }

  lemma NormalizeWithApi(origin: string)
    requires !EndsWith(origin, "/")
    ensures NormalizeBaseUrl(origin + ApiPath) == origin
  {
    var withApi := origin + ApiPath;
    assert withApi != "";
    assert withApi[|withApi| - |ApiPath|..] == ApiPath;
    assert withApi[..|withApi| - |ApiPath|] == origin;
  }

  lemma NormalizeWithApiSlash(origin: string)
    ensures NormalizeBaseUrl(origin + ApiPath + "/") == origin + ApiPath
  {
    var withApi := origin + ApiPath;
    var both := withApi + "/";
    assert both[|both| - 1..] == "/";
    assert both[..|both| - 1] == withApi;
    assert !EndsWith(both, ApiPath) by {
      assert both[|both| - 1] == '/';
    }
    assert !EndsWith(withApi, "/") by {
      assert withApi[|withApi| - 1] == '1';
    }
  }

  lemma DefaultBaseUrl()
    ensures NormalizeBaseUrl("") == "http://localhost:10000"
  {
    assert !EndsWith(DefaultApiUrl, ApiPath) by {
      assert DefaultApiUrl[|DefaultApiUrl| - 1] == '0';
    }
    assert !EndsWith(DefaultApiUrl, "/") by {
      assert DefaultApiUrl[|DefaultApiUrl| - 1] == '0';
    }
  }

  // ---------------------------------------------------------------------------
  // Subscriber registry: event name -> insertion-ordered set of callbacks

  /** A subscriber callback, identified by a token (callbacks compare by identity). */
  type CallbackId = int
  type Registry = map<string, seq<CallbackId>>

  /** No event maps to an empty set, and no callback is stored twice. */
  ghost predicate WellFormed(reg: Registry) {
    forall e :: e in reg ==> reg[e] != [] && NoDup(reg[e])
  }

  function Listeners(reg: Registry, event: string): seq<CallbackId> {
    if event in reg then reg[event] else []
  }

  /** `on(event, cb)`: create the event's set if needed, then add `cb` to it. */
  function Subscribe(reg: Registry, event: string, cb: CallbackId): (r: Registry)
    ensures r.Keys == reg.Keys + {event}
    ensures cb in Listeners(r, event)
    ensures forall c :: c in Listeners(r, event) <==> c in Listeners(reg, event) || c == cb
    ensures forall f :: f != event ==> Listeners(r, f) == Listeners(reg, f)
    ensures WellFormed(reg) ==> WellFormed(r)
    ensures cb !in Listeners(reg, event) ==> Listeners(r, event) == Listeners(reg, event) + [cb]
    ensures cb in Listeners(reg, event) ==> r == reg
  {
    var cur := Listeners(reg, event);
    reg[event := if cb in cur then cur else cur + [cb]]
  }

  /** `off(event)`: drop the event and all its callbacks. */
  function UnsubscribeAll(reg: Registry, event: string): (r: Registry)
    ensures event !in r && Listeners(r, event) == []
    ensures forall f :: f != event ==> (f in r <==> f in reg) && Listeners(r, f) == Listeners(reg, f)
    ensures WellFormed(reg) ==> WellFormed(r)
  {
    reg - {event}
  }

  /** `off(event, cb)`: remove `cb`; delete the event once its set is empty. */
  function Unsubscribe(reg: Registry, event: string, cb: CallbackId): (r: Registry)
    ensures forall c :: c in Listeners(r, event) <==> c in Listeners(reg, event) && c != cb
    ensures event in r <==> exists c :: c in Listeners(reg, event) && c != cb
    ensures forall f :: f != event ==> (f in r <==> f in reg) && Listeners(r, f) == Listeners(reg, f)
    ensures WellFormed(reg) ==> WellFormed(r)
  {
    if event !in reg then reg
    else
      var rest := Remove(reg[event], cb);
      if rest == [] then
        WellFormedWithout(reg, event);
        reg - {event}
      else
        assert rest[0] in rest;
        assert WellFormed(reg) ==> WellFormed(reg[event := rest]) by {
          if WellFormed(reg) {
            RemoveNoDup(reg[event], cb);
            WellFormedWith(reg, event, rest);
          }
        }
        reg[event := rest]
  }

  lemma WellFormedWithout(reg: Registry, event: string)
    ensures WellFormed(reg) ==> WellFormed(reg - {event})
  {
  }

  lemma WellFormedWith(reg: Registry, event: string, cbs: seq<CallbackId>)
    requires WellFormed(reg) && cbs != [] && NoDup(cbs)
    ensures WellFormed(reg[event := cbs])
  {
  }

  /** A JavaScript `Set` ignores a second `add` of the same callback. */
  lemma SubscribeIdempotent(reg: Registry, event: string, cb: CallbackId)
    ensures Subscribe(Subscribe(reg, event, cb), event, cb) == Subscribe(reg, event, cb)
  {
  }

  /** Adding a fresh key and removing it again gives back the map. */
  lemma MapAddThenRemove<K, V>(m: map<K, V>, k: K, v: V)
    requires k !in m
    ensures m[k := v] - {k} == m
  {
  }

  /** Removing a key hides any write to it. */
  lemma MapUpdateThenRemove<K, V>(m: map<K, V>, k: K, v: V)
    ensures m[k := v] - {k} == m - {k}
  {
  }

  /** A second write to a key hides the first. */
  lemma MapUpdateTwice<K, V>(m: map<K, V>, k: K, v: V, w: V)
    ensures m[k := v][k := w] == m[k := w]
  {
  }

  /** Overwriting a key with its old value gives back the map. */
  lemma MapWriteBack<K, V>(m: map<K, V>, n: map<K, V>, k: K, v: V)
    requires k in m && m[k] == v && n == m[k := v]
    ensures n == m
  {
  }

  /** Unsubscribing a callback that was just subscribed restores the registry. */
  lemma {:induction false} SubscribeThenUnsubscribe(reg: Registry, event: string, cb: CallbackId)
    requires WellFormed(reg) && cb !in Listeners(reg, event)
    ensures Unsubscribe(Subscribe(reg, event, cb), event, cb) == reg
  {
    if event in reg {
      SubscribeThenUnsubscribeKnown(reg, event, cb);
    } else {
      SubscribeThenUnsubscribeNew(reg, event, cb);
    }
  }

  lemma SubscribeThenUnsubscribeNew(reg: Registry, event: string, cb: CallbackId)
    requires event !in reg
    ensures Unsubscribe(Subscribe(reg, event, cb), event, cb) == reg
  {
    var sub := reg[event := [cb]];
    assert Listeners(reg, event) + [cb] == [cb];
    assert Subscribe(reg, event, cb) == sub;
    assert [cb][1..] == [];
    assert Remove([cb], cb) == [];
    assert Unsubscribe(sub, event, cb) == sub - {event};
    MapAddThenRemove(reg, event, [cb]);
  }

  lemma SubscribeThenUnsubscribeKnown(reg: Registry, event: string, cb: CallbackId)
    requires event in reg && reg[event] != [] && cb !in reg[event]
    ensures Unsubscribe(Subscribe(reg, event, cb), event, cb) == reg
  {
    var cur := reg[event];
    var sub := reg[event := cur + [cb]];
    assert Subscribe(reg, event, cb) == sub;
    RemoveSnocAbsent(cur, cb);
    var rest := Remove(sub[event], cb);
    assert rest == cur;
    assert Unsubscribe(sub, event, cb) == sub[event := rest];
    MapUpdateTwice(reg, event, cur + [cb], cur);
    MapWriteBack(reg, reg[event := cur], event, cur);
  }

  // ---------------------------------------------------------------------------
  // Inbound `new_message` payloads

  datatype RawSender = RawSender(id: Option<int>, role: Option<Role>)

  /** The server's message object; a missing `text` or `Text` is the empty string. */
  datatype RawMessage = RawMessage(
    id: Option<int>,
    text: string,
    legacyText: string,
    createdAt: string,
    senderId: Option<int>,
    sender: Option<RawSender>,
    senderRole: Option<Role>)

  datatype RawNewMessage = RawNewMessage(conversationId: int, message: RawMessage)

  /** What subscribers of `new_message` receive. */
  datatype NewMessageEvent = NewMessageEvent(conversationId: int, message: Message)

  /** `transformSocketMessage`: `text || Text || ''`, `createdAt || now`,
      `senderId ?? sender?.id`, `senderRole ?? sender?.role`. */
  function TransformSocketMessage(data: RawNewMessage, nowIso: string): (ev: NewMessageEvent)
    ensures ev.conversationId == data.conversationId
    ensures ev.message.convoId == Some(data.conversationId)
    ensures ev.message.id == data.message.id && !ev.message.isOptimistic
    ensures ev.message.text == "" <==> data.message.text == "" && data.message.legacyText == ""
    ensures ev.message.text in {data.message.text, data.message.legacyText, ""}
    ensures nowIso != "" ==> ev.message.createdAt != ""
    ensures ev.message.text == (if data.message.text != "" then data.message.text else data.message.legacyText)
    ensures data.message.createdAt != "" ==> ev.message.createdAt == data.message.createdAt
    ensures data.message.createdAt == "" ==> ev.message.createdAt == nowIso
    ensures data.message.senderId.Some? ==> ev.message.senderId == data.message.senderId
    ensures data.message.senderId.None? && data.message.sender.Some? ==>
      ev.message.senderId == data.message.sender.value.id
    ensures data.message.senderId.None? && data.message.sender.None? ==> ev.message.senderId.None?
    ensures data.message.senderRole.Some? ==> ev.message.senderRole == data.message.senderRole
    ensures data.message.senderRole.None? && data.message.sender.Some? ==>
      ev.message.senderRole == data.message.sender.value.role
    ensures data.message.senderRole.None? && data.message.sender.None? ==> ev.message.senderRole.None?
  {
    var m := data.message;
    var senderId := if m.senderId.Some? then m.senderId
                    else if m.sender.Some? then m.sender.value.id else None;
    var senderRole := if m.senderRole.Some? then m.senderRole
                      else if m.sender.Some? then m.sender.value.role else None;
    var text := if m.text != "" then m.text else m.legacyText;
    var createdAt := if m.createdAt != "" then m.createdAt else nowIso;
    NewMessageEvent(data.conversationId,
      Message(m.id, text, createdAt, senderId, senderRole, Some(data.conversationId), false))
  }

  // ---------------------------------------------------------------------------
  // Outbound emits

  datatype Outbound =
    | AuthenticateEvent(authUser: Option<int>)
    | JoinEvent(conversationId: int, userId: int)
    | LeaveEvent(conversationId: int)
    | SendMessageEvent(conversationId: int, text: string, userId: int)
    | TypingEvent(conversationId: int, isTyping: bool, userId: int)
    | GetConversationEvent(conversationId: int, userId: int)
    | MessageReadEvent(messageId: int, conversationId: int)

  /** The `join_conversation` emits produced by joining `ids` in order, starting with
      the rooms in `joined` already recorded. */
  function JoinEmits(ids: seq<int>, joined: set<int>, uid: int): seq<Outbound>
    decreases |ids|
  {
    if ids == [] then []
    else
      var init, last := ids[..|ids| - 1], ids[|ids| - 1];
      JoinEmits(init, joined, uid) + (if last in joined || last in init then [] else [JoinEvent(last, uid)])
  }

  /** Joining a list of rooms emits one join per room that was not joined before, and
      nothing else. */
  lemma JoinEmitsOnce(ids: seq<int>, joined: set<int>, uid: int, c: int)
    ensures multiset(JoinEmits(ids, joined, uid))[JoinEvent(c, uid)]
      == if c in ids && c !in joined then 1 else 0
    ensures forall o :: o in JoinEmits(ids, joined, uid) ==>
      o.JoinEvent? && o.userId == uid && o.conversationId in ids && o.conversationId !in joined
  {
    JoinEmitsCount(ids, joined, uid, c);
    JoinEmitsShape(ids, joined, uid);
  }

  lemma {:induction false} JoinEmitsCount(ids: seq<int>, joined: set<int>, uid: int, c: int)
    ensures multiset(JoinEmits(ids, joined, uid))[JoinEvent(c, uid)]
      == if c in ids && c !in joined then 1 else 0
    decreases |ids|
  {
    if ids != [] {
      var init, last := ids[..|ids| - 1], ids[|ids| - 1];
      JoinEmitsCount(init, joined, uid, c);
      assert ids == init + [last];
      assert c in ids <==> c in init || c == last;
    }
  }

  lemma {:induction false} JoinEmitsShape(ids: seq<int>, joined: set<int>, uid: int)
    ensures forall o :: o in JoinEmits(ids, joined, uid) ==>
      o.JoinEvent? && o.userId == uid && o.conversationId in ids && o.conversationId !in joined
    decreases |ids|
  {
    if ids != [] {
      var init, last := ids[..|ids| - 1], ids[|ids| - 1];
      JoinEmitsShape(init, joined, uid);
      assert ids == init + [last];
      assert forall x :: x in init ==> x in ids;
    }
  }

  /** Growing the list of rooms by one adds at most the emit for that room. */
  lemma JoinEmitsPrefix(ids: seq<int>, joined: set<int>, uid: int, i: int)
    requires 0 <= i < |ids|
    ensures JoinEmits(ids[..i + 1], joined, uid) == JoinEmits(ids[..i], joined, uid)
      + (if ids[i] in joined || ids[i] in ids[..i] then [] else [JoinEvent(ids[i], uid)])
  {
    assert ids[..i + 1][..i] == ids[..i];
  }

  // ---------------------------------------------------------------------------
  // The client object

  class SocketClient {
    /** `socket !== null`. */
    var hasSocket: bool
    /** `socket.connected`. */
    var connected: bool
    /** The library's automatic reconnection is still enabled for this socket. */
    var retrying: bool
    var userId: Option<int>
    var listeners: Registry
    var reconnectAttempts: nat
    const maxReconnectAttempts: nat
    const baseUrl: string
    var joinedConversations: set<int>
    /** Every emit sent over the socket, oldest first. */
    var sent: seq<Outbound>

    ghost predicate Valid()
      reads this
    {
      && WellFormed(listeners)
      && (connected ==> hasSocket)
      && (retrying ==> hasSocket)
      && maxReconnectAttempts == MaxReconnectAttempts
    }

    /** `this.socket?.connected`. */
    predicate IsOpen()
      reads this
    {
      hasSocket && connected
    }

    /** `!!this.userId`. */
    predicate HasUser()
      reads this
    {
      Truthy(userId)
    }

    constructor (apiUrl: string)
      ensures Valid()
      ensures baseUrl == NormalizeBaseUrl(apiUrl)
      ensures !hasSocket && !connected && !retrying && userId == None
      ensures listeners == map[] && joinedConversations == {} && sent == [] && reconnectAttempts == 0
    {
      hasSocket, connected, retrying := false, false, false;
      userId := None;
      listeners := map[];
      reconnectAttempts := 0;
      maxReconnectAttempts := MaxReconnectAttempts;
      baseUrl := NormalizeBaseUrl(apiUrl);
      joinedConversations := {};
      sent := [];
    }

    /** `connect(session)`: nothing while a connected socket exists; otherwise record the
        user and open a fresh socket, which is not connected until the transport says so.
        The attempt counter is left as it was. */
    method Connect(session: Session)
      requires Valid()
      modifies this`userId, this`hasSocket, this`connected, this`retrying
      ensures Valid()
      ensures old(IsOpen()) ==> userId == old(userId) && hasSocket && connected && retrying == old(retrying)
      ensures !old(IsOpen()) ==> userId == Some(session.id) && hasSocket && !connected && retrying
    {
      if hasSocket && connected {
        return;
      }
      userId := Some(session.id);
      hasSocket, connected, retrying := true, false, true;
    }

    /** The transport's `connect` signal: reset the counter and send `authenticate`. */
    method OnTransportConnect()
      requires Valid()
      modifies this`connected, this`reconnectAttempts, this`sent
      ensures Valid()
      ensures reconnectAttempts == 0
      ensures connected == old(hasSocket)
      ensures sent == old(sent) + (if hasSocket then [AuthenticateEvent(userId)] else [])
    {
      reconnectAttempts := 0;
      if hasSocket {
        connected := true;
        sent := sent + [AuthenticateEvent(userId)];
      }
    }

    /** The transport's `disconnect` signal, forwarded to `disconnected` subscribers. */
    method OnTransportDisconnect() returns (notified: seq<CallbackId>)
      requires Valid()
      modifies this`connected
      ensures Valid()
      ensures !connected
      ensures notified == Listeners(listeners, "disconnected")
    {
      connected := false;
      notified := Listeners(listeners, "disconnected");
    }

    /** The transport's `connect_error` signal: count it, give up once the bound is
        reached, then forward it to `connect_error` subscribers. */
    method OnConnectError() returns (notified: seq<CallbackId>)
      requires Valid()
      modifies this`reconnectAttempts, this`connected, this`retrying
      ensures Valid()
      ensures reconnectAttempts == old(reconnectAttempts) + 1
      ensures reconnectAttempts >= maxReconnectAttempts ==> !connected && !retrying
      ensures reconnectAttempts < maxReconnectAttempts ==>
        connected == old(connected) && retrying == old(retrying)
      ensures notified == Listeners(listeners, "connect_error")
    {
      reconnectAttempts := reconnectAttempts + 1;
      if reconnectAttempts >= maxReconnectAttempts {
        connected, retrying := false, false;
      }
      notified := Listeners(listeners, "connect_error");
    }

    method On(event: string, callback: CallbackId)
      requires Valid()
      modifies this`listeners
      ensures Valid()
      ensures listeners == Subscribe(old(listeners), event, callback)
    {
      ghost var before := listeners;
      if event !in listeners {
        listeners := listeners[event := []];
      }
      var cur := listeners[event];
      assert cur == Listeners(before, event);
      if callback !in cur {
        NoDupSnoc(cur, callback);
        WellFormedWith(before, event, cur + [callback]);
        MapUpdateTwice(before, event, [], cur + [callback]);
        listeners := listeners[event := cur + [callback]];
      }
    }

    /** `off(event)` when `callback` is absent, `off(event, callback)` otherwise. */
    method Off(event: string, callback: Option<CallbackId>)
      requires Valid()
      modifies this`listeners
      ensures Valid()
      ensures listeners == if callback.None? then UnsubscribeAll(old(listeners), event)
                           else Unsubscribe(old(listeners), event, callback.value)
    {
      if callback.None? {
        listeners := listeners - {event};
        return;
      }
      if event !in listeners {
        return;
      }
      ghost var before := listeners;
      var rest := Remove(listeners[event], callback.value);
      assert Unsubscribe(before, event, callback.value) == if rest == [] then before - {event} else before[event := rest];
      listeners := listeners[event := rest];
      if rest == [] {
        MapUpdateThenRemove(before, event, rest);
        listeners := listeners - {event};
      }
    }

    /** `emit(event, ...)`: call every callback of the event in registration order; a
        callback that throws (those in `throwing`) is logged and the loop goes on.
        Returns the callbacks called and, in order, those that threw. */
    method Emit(event: string, throwing: set<CallbackId>) returns (invoked: seq<CallbackId>, failed: seq<CallbackId>)
      requires Valid()
      ensures invoked == Listeners(listeners, event)
      ensures failed == Keep(invoked, throwing)
    {
      invoked, failed := [], [];
      if event !in listeners {
        return;
      }
      var callbacks := listeners[event];
      for i := 0 to |callbacks|
        invariant invoked == callbacks[..i]
        invariant failed == Keep(callbacks[..i], throwing)
      {
        var cb := callbacks[i];
        invoked := invoked + [cb];
        KeepSnoc(callbacks[..i], cb, throwing);
        assert callbacks[..i + 1] == callbacks[..i] + [cb];
        if cb in throwing {
          failed := failed + [cb];
        }
      }
      assert callbacks[..|callbacks|] == callbacks;
    }

    /** `joinConversation`: only when connected with a known user, and only once per room. */
    method JoinConversation(conversationId: int)
      requires Valid()
      modifies this`joinedConversations, this`sent
      ensures Valid()
      ensures if old(IsOpen()) && HasUser() && conversationId !in old(joinedConversations) then
          joinedConversations == old(joinedConversations) + {conversationId}
          && sent == old(sent) + [JoinEvent(conversationId, userId.value)]
        else
          joinedConversations == old(joinedConversations) && sent == old(sent)
    {
      if !(hasSocket && connected) || !Truthy(userId) {
        return;
      }
      if conversationId in joinedConversations {
        return;
      }
      joinedConversations := joinedConversations + {conversationId};
      sent := sent + [JoinEvent(conversationId, userId.value)];
    }

    /** `leaveConversation`: when connected, forget the room and emit the leave, joined
        or not. */
    method LeaveConversation(conversationId: int)
      requires Valid()
      modifies this`joinedConversations, this`sent
      ensures Valid()
      ensures if old(IsOpen()) then
          joinedConversations == old(joinedConversations) - {conversationId}
          && sent == old(sent) + [LeaveEvent(conversationId)]
        else
          joinedConversations == old(joinedConversations) && sent == old(sent)
    {
      if !(hasSocket && connected) {
        return;
      }
      if conversationId in joinedConversations {
        joinedConversations := joinedConversations - {conversationId};
      }
      sent := sent + [LeaveEvent(conversationId)];
    }

    /** `sendMessageSocket`: the best-effort push path. */
    method SendMessageSocket(conversationId: int, text: string) returns (ok: bool)
      requires Valid()
      modifies this`sent
      ensures Valid()
      ensures ok == (IsOpen() && HasUser())
      ensures sent == old(sent) + (if ok then [SendMessageEvent(conversationId, text, userId.value)] else [])
    {
      if !(hasSocket && connected) || !Truthy(userId) {
        return false;
      }
      sent := sent + [SendMessageEvent(conversationId, text, userId.value)];
      return true;
    }

    method SetTyping(conversationId: int, isTyping: bool)
      requires Valid()
      modifies this`sent
      ensures Valid()
      ensures sent == old(sent) + (if IsOpen() && HasUser() then [TypingEvent(conversationId, isTyping, userId.value)] else [])
    {
      if !(hasSocket && connected) || !Truthy(userId) {
        return;
      }
      sent := sent + [TypingEvent(conversationId, isTyping, userId.value)];
    }

    method RequestConversation(conversationId: int)
      requires Valid()
      modifies this`sent
      ensures Valid()
      ensures sent == old(sent) + (if IsOpen() && HasUser() then [GetConversationEvent(conversationId, userId.value)] else [])
    {
      if !(hasSocket && connected) || !Truthy(userId) {
        return;
      }
      sent := sent + [GetConversationEvent(conversationId, userId.value)];
    }

    /** `markAsRead` needs a connection but no user. */
    method MarkAsRead(messageId: int, conversationId: int)
      requires Valid()
      modifies this`sent
      ensures Valid()
      ensures sent == old(sent) + (if IsOpen() then [MessageReadEvent(messageId, conversationId)] else [])
    {
      if !(hasSocket && connected) {
        return;
      }
      sent := sent + [MessageReadEvent(messageId, conversationId)];
    }

    /** `disconnect()`: close the socket (a connected socket first tells its
        `disconnected` subscribers), then forget listeners, rooms and the user. */
    method Disconnect() returns (notified: seq<CallbackId>)
      requires Valid()
      modifies this`hasSocket, this`connected, this`retrying, this`listeners,
               this`joinedConversations, this`userId
      ensures Valid()
      ensures notified == if old(IsOpen()) then Listeners(old(listeners), "disconnected") else []
      ensures !hasSocket && !connected && !retrying
      ensures listeners == map[] && joinedConversations == {} && userId == None
    {
      notified := [];
      if hasSocket {
        if connected {
          notified := Listeners(listeners, "disconnected");
        }
        hasSocket, connected, retrying := false, false, false;
      }
      listeners := map[];
      joinedConversations := {};
      userId := None;
    }

    method IsConnected() returns (b: bool)
      ensures b == IsOpen()
    {
      return hasSocket && connected;
    }
  }

  /** Re-rendering callers may join the same room again and again; only the first call
      reaches the server. */
  method JoinTwiceEmitsOnce(client: SocketClient, conversationId: int)
    requires client.Valid()
    requires client.IsOpen() && client.HasUser()
    modifies client
    ensures client.Valid()
    ensures conversationId in client.joinedConversations
    ensures |client.sent| <= |old(client.sent)| + 1
    ensures conversationId !in old(client.joinedConversations) ==>
      client.sent == old(client.sent) + [JoinEvent(conversationId, old(client.userId).value)]
  {
    client.JoinConversation(conversationId);
    client.JoinConversation(conversationId);
  }

  /** From a reset counter, `MaxReconnectAttempts` consecutive connection errors switch
      the library's retries off. */
  method ErrorsExhaustRetries(client: SocketClient)
    requires client.Valid() && client.reconnectAttempts == 0
    modifies client
    ensures client.Valid()
    ensures client.reconnectAttempts == MaxReconnectAttempts
    ensures !client.retrying && !client.connected
  {
    var k := 0;
    while k < MaxReconnectAttempts
      invariant client.Valid()
      invariant 0 <= k <= MaxReconnectAttempts == client.maxReconnectAttempts
      invariant client.reconnectAttempts == k
      invariant k == MaxReconnectAttempts ==> !client.retrying && !client.connected
    {
      var _ := client.OnConnectError();
      k := k + 1;
    }
  }
}

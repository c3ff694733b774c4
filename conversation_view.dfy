/**
 * Helpers of the conversation screen: the dedup-by-id pass over loaded messages, the
 * typing-indicator debounce, the filter of who else is typing, sender classification,
 * React keys and the access check.
 */
module ConversationView {
  import opened Wrappers
  import opened Strings
  import opened Seqs
  import opened ChatTypes
  import MessageCache

  // ---------------------------------------------------------------------------
  // deduplicateMessages

  /** The loop's result from position onwards, given the ids already `seen`: messages
      with a falsy id are skipped, and so is every later copy of an id. */
  function DedupFrom(list: seq<Message>, seen: set<int>): seq<Message>
    decreases |list|
  {
    if list == [] then []
    else
      var m := list[0];
      if !Truthy(m.id) || m.id.value in seen then DedupFrom(list[1..], seen)
      else [m] + DedupFrom(list[1..], seen + {m.id.value})
  }

  function Deduplicate(list: seq<Message>): seq<Message> {
    DedupFrom(list, {})
  }

  method DeduplicateMessages(list: seq<Message>) returns (unique: seq<Message>)
    ensures unique == Deduplicate(list)
  {
    var seen: set<int> := {};
    unique := [];
    for i := 0 to |list|
      invariant unique + DedupFrom(list[i..], seen) == Deduplicate(list)
    {
      var m := list[i];
      assert list[i..][0] == m && list[i..][1..] == list[i + 1..];
      if !Truthy(m.id) {
        continue;
      }
      if m.id.value !in seen {
        seen := seen + {m.id.value};
        unique := unique + [m];
      }
    }
  }

  /** Position `i` holds the first message with its (truthy) id, and that id is not
      among those seen before the list starts. */
  ghost predicate FirstWithId(list: seq<Message>, i: int, seen: set<int>) {
    0 <= i < |list| && Truthy(list[i].id) && list[i].id.value !in seen
    && forall j :: 0 <= j < i ==> list[j].id != list[i].id
  }

  /** The output's ids are truthy, pairwise distinct and new with respect to `seen`. */
  lemma {:induction false} DedupFromIds(list: seq<Message>, seen: set<int>)
    ensures forall k :: 0 <= k < |DedupFrom(list, seen)| ==>
      Truthy(DedupFrom(list, seen)[k].id) && DedupFrom(list, seen)[k].id.value !in seen
    ensures forall a, b :: 0 <= a < b < |DedupFrom(list, seen)| ==>
      DedupFrom(list, seen)[a].id != DedupFrom(list, seen)[b].id
    decreases |list|
  {
    if list != [] {
      var m := list[0];
      if !Truthy(m.id) || m.id.value in seen {
        assert DedupFrom(list, seen) == DedupFrom(list[1..], seen);
        DedupFromIds(list[1..], seen);
      } else {
        var seen' := seen + {m.id.value};
        var rest := DedupFrom(list[1..], seen');
        DedupFromIds(list[1..], seen');
        var r := [m] + rest;
        assert DedupFrom(list, seen) == r;
        forall k | 0 <= k < |r| ensures Truthy(r[k].id) && r[k].id.value !in seen {
          if k > 0 {
            assert r[k] == rest[k - 1];
          }
        }
        forall a, b | 0 <= a < b < |r| ensures r[a].id != r[b].id {
          assert r[b] == rest[b - 1];
          if a > 0 {
            assert r[a] == rest[a - 1];
          }
        }
      }
    }
  }

  /** The output keeps input order. */
  lemma {:induction false} DedupFromIsSubseq(list: seq<Message>, seen: set<int>)
    ensures IsSubseq(DedupFrom(list, seen), list)
    decreases |list|
  {
    if list != [] {
      var m := list[0];
      if !Truthy(m.id) || m.id.value in seen {
        DedupFromIsSubseq(list[1..], seen);
        var r := DedupFrom(list[1..], seen);
        if r != [] {
          assert IsSubseq(r, list);
        }
      } else {
        DedupFromIsSubseq(list[1..], seen + {m.id.value});
        assert ([m] + DedupFrom(list[1..], seen + {m.id.value}))[1..] == DedupFrom(list[1..], seen + {m.id.value});
      }
    }
  }

  /** Every output message is the first input message with its id. */
  lemma {:induction false} DedupFromSound(list: seq<Message>, seen: set<int>)
    ensures forall x :: x in DedupFrom(list, seen) ==> exists i :: FirstWithId(list, i, seen) && list[i] == x
    decreases |list|
  {
    if list != [] {
      var m := list[0];
      var seen' := if !Truthy(m.id) || m.id.value in seen then seen else seen + {m.id.value};
      DedupFromSound(list[1..], seen');
      forall x | x in DedupFrom(list, seen) ensures exists i :: FirstWithId(list, i, seen) && list[i] == x {
        if Truthy(m.id) && m.id.value !in seen && x == m {
          assert FirstWithId(list, 0, seen);
        } else {
          assert x in DedupFrom(list[1..], seen');
          var i' :| FirstWithId(list[1..], i', seen') && list[1..][i'] == x;
          assert list[i' + 1] == x;
          assert FirstWithId(list, i' + 1, seen);
        }
      }
    }
  }

  /** Every first occurrence of a truthy id makes it into the output. */
  lemma {:induction false} DedupFromComplete(list: seq<Message>, seen: set<int>, i: int)
    requires FirstWithId(list, i, seen)
    ensures list[i] in DedupFrom(list, seen)
    decreases |list|
  {
    var m := list[0];
    var seen' := if !Truthy(m.id) || m.id.value in seen then seen else seen + {m.id.value};
    if i > 0 {
      assert list[1..][i - 1] == list[i];
      assert FirstWithId(list[1..], i - 1, seen');
      DedupFromComplete(list[1..], seen', i - 1);
    }
  }

  /** `deduplicateMessages` keeps exactly the first message of every truthy id, in
      input order, and its output has pairwise-distinct truthy ids. */
  lemma DeduplicateSpec(list: seq<Message>)
    ensures var r := Deduplicate(list);
      && IsSubseq(r, list)
      && (forall k :: 0 <= k < |r| ==> Truthy(r[k].id))
      && (forall a, b :: 0 <= a < b < |r| ==> r[a].id != r[b].id)
      && (forall x :: x in r ==> exists i :: FirstWithId(list, i, {}) && list[i] == x)
      && (forall i :: FirstWithId(list, i, {}) ==> list[i] in r)
  {
    var r := Deduplicate(list);
    assert r == DedupFrom(list, {});
    DedupFromIds(list, {});
    DedupFromIsSubseq(list, {});
    DedupFromSound(list, {});
    forall x | x in r ensures exists i :: FirstWithId(list, i, {}) && list[i] == x {
      assert x in DedupFrom(list, {});
    }
    forall i | FirstWithId(list, i, {}) ensures list[i] in r {
      DedupFromComplete(list, {}, i);
    }
  }

  // ---------------------------------------------------------------------------
  // React keys

  /** `getMessageKey`: `msg_<id>` for a truthy id, else creation time, position and
      the first ten characters of the text. */
  function GetMessageKey(m: Message, index: int): (key: string)
    ensures |key| >= 4 && key[..4] == "msg_"
  {
    if Truthy(m.id) then "msg_" + IntToString(m.id.value)
    else "msg_" + m.createdAt + "_" + IntToString(index) + "_" + m.text[..if |m.text| < 10 then |m.text| else 10]
  }

  /** Two messages with truthy ids get the same key exactly when their ids agree. */
  lemma GetMessageKeyById(a: Message, i: int, b: Message, j: int)
    requires Truthy(a.id) && Truthy(b.id)
    ensures GetMessageKey(a, i) == GetMessageKey(b, j) <==> a.id == b.id
  {
    var ka, kb := GetMessageKey(a, i), GetMessageKey(b, j);
    if ka == kb {
      assert ka[4..] == IntToString(a.id.value) && kb[4..] == IntToString(b.id.value);
      IntToStringInjective(a.id.value, b.id.value);
    }
  }

  /** A key built from an id never collides with a fallback key: after `msg_` an id
      key holds only a sign and digits, a fallback key holds an `_` after the time. */
  lemma IdKeyIsNotFallbackKey(a: Message, i: int, b: Message, j: int)
    requires Truthy(a.id) && !Truthy(b.id)
    ensures GetMessageKey(a, i) != GetMessageKey(b, j)
  {
    assert GetMessageKey(b, j)[4 + |b.createdAt|] == '_';
  }

  /** After deduplication every rendered message has its own key. */
  lemma DeduplicatedKeysDistinct(list: seq<Message>, a: int, b: int)
    requires var r := Deduplicate(list); 0 <= a < b < |r|
    ensures var r := Deduplicate(list); GetMessageKey(r[a], a) != GetMessageKey(r[b], b)
  {
    DeduplicateSpec(list);
    var r := Deduplicate(list);
    GetMessageKeyById(r[a], a, r[b], b);
  }

  // ---------------------------------------------------------------------------
  // Who is typing, who sent what, who may look

  /** `otherUsersTyping`: the conversation's typing list without the current user. */
  function OtherUsersTyping(typing: seq<int>, me: int): (others: seq<int>)
    ensures me !in others
    ensures forall u :: u != me ==> (u in others <==> u in typing)
    ensures |others| <= |typing|
  {
    Remove(typing, me)
  }

  /** `isMessageFromCurrentUser`: a truthy `senderId` decides; otherwise an admin owns
      admin messages and anyone else owns investor messages. */
  function IsMessageFromCurrentUser(session: Session, m: Message): (mine: bool)
    ensures Truthy(m.senderId) ==> (mine <==> m.senderId == Some(session.id))
    ensures !Truthy(m.senderId) ==>
      (mine <==> m.senderRole == Some(if session.role == Some(Admin) then Admin else Investor))
  {
    if Truthy(m.senderId) then m.senderId.value == session.id
    else
      || (session.role == Some(Admin) && m.senderRole == Some(Admin))
      || (session.role != Some(Admin) && m.senderRole == Some(Investor))
  }

  /** A message stamped with the user's own id and role is drawn as theirs, provided
      the id is non-zero or the session has a role. */
  lemma OwnStampIsMine(session: Session, m: Message)
    requires m.senderId == Some(session.id) && m.senderRole == session.role
    requires session.id != 0 || session.role.Some?
    ensures IsMessageFromCurrentUser(session, m)
  {
    if !Truthy(m.senderId) {
      assert session.id == 0 && session.role.Some?;
      if session.role == Some(Admin) {
        assert m.senderRole == Some(Admin);
      } else {
        assert session.role.value.Investor?;
        assert m.senderRole == Some(Investor);
      }
    }
  }

  /** Hence the user's own placeholder and own confirmed message are drawn as theirs. */
  lemma OwnMessagesAreMine(session: Session, convo: int, text: string, tempId: int, data: MessageCache.SentData, nowIso: string)
    requires session.id != 0 || session.role.Some?
    ensures IsMessageFromCurrentUser(session, MessageCache.TempMessage(session, convo, text, tempId, nowIso))
    ensures IsMessageFromCurrentUser(session, MessageCache.RealMessage(session, convo, text, data, nowIso))
  {
    var t := MessageCache.TempMessage(session, convo, text, tempId, nowIso);
    assert t.senderId == Some(session.id) && t.senderRole == session.role;
    OwnStampIsMine(session, t);
    var c := MessageCache.RealMessage(session, convo, text, data, nowIso);
    assert c.senderId == Some(session.id) && c.senderRole == session.role;
    OwnStampIsMine(session, c);
  }

  /** The access check: anyone but an admin looking at someone else's conversation is
      sent back to the list. */
  function MustRedirect(session: Session, conversationUserId: int): (redirect: bool)
    ensures !redirect <==> session.role == Some(Admin) || conversationUserId == session.id
  {
    var isAdmin := session.role == Some(Admin);
    var isUserConversation := conversationUserId == session.id;
    !isAdmin && !isUserConversation
  }

  // ---------------------------------------------------------------------------
  // Typing-indicator debounce

  const TypingTimeoutMs: int := 2000

  /** A scheduled expiry: the flag it closed over and when it fires. */
  datatype Timer = Timer(captured: bool, dueAt: int)

  /** The screen's `isTyping` and `typingTimeoutRef`. */
  datatype Debounce = Debounce(isTyping: bool, pending: Option<Timer>)

  /** `handleInputChange`: the typing signal it sends, if any. */
  function InputChangeSignals(d: Debounce, text: string): (signals: seq<bool>)
    ensures signals == [true] <==> |text| > 0 && !d.isTyping
    ensures signals == [false] <==> |text| == 0 && d.isTyping
    ensures |signals| <= 1
  {
    if |text| > 0 && !d.isTyping then [true]
    else if |text| == 0 && d.isTyping then [false]
    else []
  }

  /** `handleInputChange`: any earlier timer is replaced by one due in 2000 ms that has
      closed over the flag as it was before this change. */
  function InputChangeStep(d: Debounce, text: string, now: int): (e: Debounce)
    ensures e.isTyping == (|text| > 0)
    ensures e.pending == Some(Timer(d.isTyping, now + TypingTimeoutMs))
  {
    var flag := if |text| > 0 && !d.isTyping then true
                else if |text| == 0 && d.isTyping then false
                else d.isTyping;
    Debounce(flag, Some(Timer(d.isTyping, now + TypingTimeoutMs)))
  }

  /** A signal is sent exactly when the flag flips, and it carries the new value. */
  lemma InputChangeSignalsFlips(d: Debounce, text: string, now: int)
    ensures var e := InputChangeStep(d, text, now);
      InputChangeSignals(d, text) == if e.isTyping != d.isTyping then [e.isTyping] else []
  {
  }

  /** Expiry as written: stop only if the timer's captured flag was set. */
  function ExpireAsWritten(d: Debounce): (r: (Debounce, seq<bool>))
    requires d.pending.Some?
    ensures r.0.pending.None?
    ensures r.1 == (if d.pending.value.captured then [false] else [])
    ensures r.0.isTyping == (d.isTyping && !d.pending.value.captured)
  {
    if d.pending.value.captured then (Debounce(false, None), [false])
    else (Debounce(d.isTyping, None), [])
  }

  /** Expiry corrected: stop if the user is typing now. */
  function Expire(d: Debounce): (r: (Debounce, seq<bool>))
    ensures !r.0.isTyping && r.0.pending.None?
    ensures r.1 == (if d.isTyping then [false] else [])
  {
    if d.isTyping then (Debounce(false, None), [false]) else (Debounce(false, None), [])
  }

  /** What the other side last heard: the latest signal, `false` before any. */
  function RemoteTyping(signals: seq<bool>): bool {
    signals != [] && signals[|signals| - 1]
  }

  /** As written: one keystroke and two seconds of silence leave the other side
      seeing "typing" while the screen's flag stays set with no timer left. */
  lemma ExpireAsWrittenLeavesIndicatorOn()
    ensures var d1 := InputChangeStep(Debounce(false, None), "h", 0);
      var s1 := InputChangeSignals(Debounce(false, None), "h");
      var r := ExpireAsWritten(d1);
      && RemoteTyping(s1 + r.1) && r.0.isTyping && r.0.pending.None?
  {
    var d1 := InputChangeStep(Debounce(false, None), "h", 0);
    assert InputChangeSignals(Debounce(false, None), "h") == [true];
    assert !d1.pending.value.captured;
    assert ExpireAsWritten(d1).1 == [];
  }

  /** Corrected: every change keeps the other side in agreement with the flag, and
      expiry always ends with both off. */
  lemma DebounceAgreement(d: Debounce, signals: seq<bool>, text: string, now: int)
    requires RemoteTyping(signals) == d.isTyping
    ensures RemoteTyping(signals + InputChangeSignals(d, text)) == InputChangeStep(d, text, now).isTyping
    ensures !RemoteTyping(signals + Expire(d).1) && !Expire(d).0.isTyping
  {
    if InputChangeSignals(d, text) == [] {
      assert signals + [] == signals;
    }
    if Expire(d).1 == [] {
      assert signals + [] == signals;
    }
  }

  /** The debounce as the screen runs it, with the corrected expiry. `signals` is the
      list of typing signals handed to the hook, oldest first. */
  class TypingIndicator {
    var isTyping: bool
    var pending: Option<Timer>
    var signals: seq<bool>

    function State(): Debounce
      reads this
    {
      Debounce(isTyping, pending)
    }

    /** The other side's indicator agrees with the screen's flag. */
    ghost predicate Valid()
      reads this
    {
      RemoteTyping(signals) == isTyping
    }

    constructor ()
      ensures Valid() && !isTyping && pending.None? && signals == []
    {
      isTyping, pending, signals := false, None, [];
    }

    method InputChange(text: string, now: int)
      requires Valid()
      modifies this
      ensures Valid()
      ensures State() == InputChangeStep(old(State()), text, now)
      ensures signals == old(signals) + InputChangeSignals(old(State()), text)
    {
      var captured := isTyping;
      if |text| > 0 && !isTyping {
        isTyping := true;
        signals := signals + [true];
      } else if |text| == 0 && isTyping {
        isTyping := false;
        signals := signals + [false];
      }
      pending := Some(Timer(captured, now + TypingTimeoutMs));
    }

    /** The pending timer fires. */
    method TimerFired(now: int)
      requires Valid() && pending.Some? && now >= pending.value.dueAt
      modifies this
      ensures Valid()
      ensures State() == Expire(old(State())).0
      ensures signals == old(signals) + Expire(old(State())).1
    {
      if isTyping {
        isTyping := false;
        signals := signals + [false];
      }
      pending := None;
    }

    /** `handleSend` after a successful send: stop typing and cancel the timer. */
    method SendSucceeded()
      requires Valid()
      modifies this
      ensures Valid()
      ensures !isTyping && pending.None? && signals == old(signals) + [false]
    {
      isTyping := false;
      signals := signals + [false];
      pending := None;
    }

    /** Unmounting cancels the timer and sends nothing. */
    method Unmount()
      requires Valid()
      modifies this
      ensures Valid()
      ensures pending.None? && isTyping == old(isTyping) && signals == old(signals)
    {
      pending := None;
    }
  }
}

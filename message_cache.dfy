/**
 * The message reconciler of the conversation hook, as pure transitions over the pair
 * (message cache, processed-key set): transport pushes, the optimistic send with its
 * success and rollback branches, and the properties that make the write paths converge.
 */
module MessageCache {
  import opened Wrappers
  import opened Strings
  import opened Seqs
  import opened ChatTypes
  import Socket

  /** `messagesCache`: conversation id -> its messages, oldest first. */
  type Cache = map<int, seq<Message>>

  /** `prev[convoId] || []`. */
  function Lookup(cache: Cache, convo: int): seq<Message> {
    if convo in cache then cache[convo] else []
  }

  // ---------------------------------------------------------------------------
  // Identity keys

  /** `toIdKey`: the empty string for a missing id, its decimal text otherwise. */
  function ToIdKey(id: Option<int>): (k: string)
    ensures k == "" <==> id.None?
  {
    if id.None? then "" else IntToString(id.value)
  }

  lemma ToIdKeyInjective(a: Option<int>, b: Option<int>)
    ensures ToIdKey(a) == ToIdKey(b) <==> a == b
  {
    if a.Some? && b.Some? {
      IntToStringInjective(a.value, b.value);
    }
  }

  /** `String(m.id)`: a missing id prints as `undefined`. */
  function IdString(id: Option<int>): string {
    if id.None? then "undefined" else IntToString(id.value)
  }

  /** Comparing `String(m.id)` with the text of a number is comparing the ids. */
  lemma IdStringIs(id: Option<int>, n: int)
    ensures IdString(id) == IntToString(n) <==> id == Some(n)
  {
    if id.Some? {
      IntToStringInjective(id.value, n);
    } else {
      assert IdString(id)[0] == 'u';
      assert IntToString(n)[0] == '-' || IsDigit(IntToString(n)[0]);
    }
  }

  /** `noid_<convo>_<text>_<time>`, `time` being the message time in milliseconds. */
  function FallbackKey(convo: int, text: string, time: int): string {
    "noid_" + IntToString(convo) + "_" + text + "_" + IntToString(time)
  }

  /** The processed-set key of an incoming message. */
  function IncomingKey(convo: int, m: Message, time: int): (k: string)
    ensures k != ""
  {
    var idKey := ToIdKey(m.id);
    if idKey != "" then idKey else FallbackKey(convo, m.text, time)
  }

  /** A message with an id shares its processed key with exactly the messages that
      carry the same id: never with another id, never with a fallback key. */
  lemma IncomingKeyOfId(convo: int, m: Message, time: int, convo': int, m': Message, time': int)
    requires m.id.Some?
    ensures IncomingKey(convo, m, time) == IncomingKey(convo', m', time') <==> m'.id == m.id
  {
    ToIdKeyInjective(m.id, m'.id);
    if m'.id.None? {
      var k := IncomingKey(convo, m, time);
      assert k[0] == '-' || IsDigit(k[0]);
      assert IncomingKey(convo', m', time')[0] == 'n';
    }
  }

  // ---------------------------------------------------------------------------
  // One conversation's list under a transport push

  /** The placeholder test of the push handler: optimistic, and the incoming text is
      non-empty and equal. */
  predicate MatchesOptimistic(m: Message, text: string) {
    m.isOptimistic && text != "" && m.text == text
  }

  /** `findIndex` of the first matching placeholder, or -1. */
  function FindOptimistic(list: seq<Message>, text: string): (i: int)
    ensures -1 <= i < |list|
    ensures i >= 0 ==> MatchesOptimistic(list[i], text)
    ensures forall j :: 0 <= j < |list| && (i == -1 || j < i) ==> !MatchesOptimistic(list[j], text)
  {
    if list == [] then -1
    else if MatchesOptimistic(list[0], text) then 0
    else
      var k := FindOptimistic(list[1..], text);
      if k == -1 then -1 else k + 1
  }

  /** `hasById`: the incoming id is present and some message has the same id key,
      that is, the same id. */
  function HasIdKey(list: seq<Message>, id: Option<int>): (b: bool)
    ensures b <==> id.Some? && exists k :: 0 <= k < |list| && list[k].id == id
  {
    assert forall k :: 0 <= k < |list| ==> (ToIdKey(list[k].id) == ToIdKey(id) <==> list[k].id == id) by {
      forall k | 0 <= k < |list| {
        ToIdKeyInjective(list[k].id, id);
      }
    }
    id.Some? && exists k :: 0 <= k < |list| && ToIdKey(list[k].id) == ToIdKey(id)
  }

  /** The copy the push handler stores. */
  function Normalize(convo: int, m: Message, nowIso: string): (n: Message)
    ensures n.id == m.id && n.text == m.text && n.convoId == Some(convo) && !n.isOptimistic
    ensures n.senderId == m.senderId && n.senderRole == m.senderRole
    ensures m.createdAt != "" ==> n.createdAt == m.createdAt
    ensures nowIso != "" ==> n.createdAt != ""
  {
    Message(m.id, m.text, if m.createdAt != "" then m.createdAt else nowIso,
            m.senderId, m.senderRole, Some(convo), false)
  }

  /** What the transport delivers already has the shape the hook stores. */
  lemma NormalizeOfTransformed(data: Socket.RawNewMessage, deliveredIso: string, nowIso: string)
    requires deliveredIso != ""
    ensures var ev := Socket.TransformSocketMessage(data, deliveredIso);
      Normalize(ev.conversationId, ev.message, nowIso) == ev.message
  {
  }

  /** The cache updater of `handleNewMessage` on the conversation's list. */
  function MergeIncoming(list: seq<Message>, convo: int, m: Message, nowIso: string): (r: seq<Message>)
    ensures |list| - 1 <= |r| <= |list| + 1
  {
    var i := FindOptimistic(list, m.text);
    var rest := if i >= 0 then list[..i] + list[i + 1..] else list;
    if HasIdKey(rest, m.id) then rest else rest + [Normalize(convo, m, nowIso)]
  }

  /** A list rebuilt from a common part `rest` by taking `gone` out and putting
      `added` in, the two having nothing in common, differs by exactly those. */
  lemma MultisetDelta<T>(list: seq<T>, rest: seq<T>, r: seq<T>, gone: multiset<T>, added: multiset<T>)
    requires multiset(list) == multiset(rest) + gone
    requires multiset(r) == multiset(rest) + added
    requires gone * added == multiset{}
    ensures multiset(list) - multiset(r) == gone
    ensures multiset(r) - multiset(list) == added
  {
    forall x ensures (multiset(list) - multiset(r))[x] == gone[x] && (multiset(r) - multiset(list))[x] == added[x] {
      assert (gone * added)[x] == 0;
    }
  }

  /** Dropping position `i` and then perhaps appending a different element `n`
      takes out exactly `s[i]` and puts in exactly `n`, if appended. */
  lemma DropThenAppend<T>(s: seq<T>, i: int, n: T, append: bool)
    requires 0 <= i < |s| && s[i] != n
    ensures var rest := s[..i] + s[i + 1..];
      var r := if append then rest + [n] else rest;
      && multiset(s) - multiset(r) == multiset{s[i]}
      && multiset(r) - multiset(s) == (if append then multiset{n} else multiset{})
  {
    var rest := s[..i] + s[i + 1..];
    var r := if append then rest + [n] else rest;
    var added := if append then multiset{n} else multiset{};
    MultisetRemoveAt(s, i);
    assert multiset(r) == multiset(rest) + added;
    assert multiset{s[i]} * added == multiset{};
    MultisetDelta(s, rest, r, multiset{s[i]}, added);
  }

  /** The push removes the matching placeholder at `i`, and adds the stored copy
      unless the id is already listed. */
  lemma MergeIncomingDeltaAt(list: seq<Message>, convo: int, m: Message, nowIso: string, i: int)
    requires i == FindOptimistic(list, m.text) && i >= 0
    ensures var rest := list[..i] + list[i + 1..];
      var r := MergeIncoming(list, convo, m, nowIso);
      && multiset(list) - multiset(r) == multiset{list[i]}
      && multiset(r) - multiset(list) == (if HasIdKey(rest, m.id) then multiset{} else multiset{Normalize(convo, m, nowIso)})
  {
    var n := Normalize(convo, m, nowIso);
    var rest := list[..i] + list[i + 1..];
    var has := HasIdKey(rest, m.id);
    assert MergeIncoming(list, convo, m, nowIso) == if has then rest else rest + [n];
    assert list[i].isOptimistic && !n.isOptimistic;
    DropThenAppend(list, i, n, !has);
  }

  /** Without a matching placeholder the push only adds the stored copy, unless the id
      is already listed. */
  lemma MergeIncomingDeltaNone(list: seq<Message>, convo: int, m: Message, nowIso: string)
    requires FindOptimistic(list, m.text) == -1
    ensures var r := MergeIncoming(list, convo, m, nowIso);
      && multiset(list) - multiset(r) == multiset{}
      && multiset(r) - multiset(list) == (if HasIdKey(list, m.id) then multiset{} else multiset{Normalize(convo, m, nowIso)})
  {
    var r := MergeIncoming(list, convo, m, nowIso);
    var added := if HasIdKey(list, m.id) then multiset{} else multiset{Normalize(convo, m, nowIso)};
    assert multiset(r) == multiset(list) + added;
    MultisetDelta(list, list, r, multiset{}, added);
  }

  /** At most one message leaves the list, and it is a placeholder with the incoming
      text; at most one enters, and it is the stored copy of the incoming message.
      A matching placeholder, when there is one, does leave. */
  lemma MergeIncomingChanges(list: seq<Message>, convo: int, m: Message, nowIso: string)
    ensures var r := MergeIncoming(list, convo, m, nowIso);
      var gone := multiset(list) - multiset(r);
      var added := multiset(r) - multiset(list);
      && |gone| <= 1 && (forall x :: x in gone ==> MatchesOptimistic(x, m.text))
      && |added| <= 1 && (forall x :: x in added ==> x == Normalize(convo, m, nowIso))
      && ((exists k :: 0 <= k < |list| && MatchesOptimistic(list[k], m.text)) ==> |gone| == 1)
  {
    var i := FindOptimistic(list, m.text);
    if i >= 0 {
      MergeIncomingDeltaAt(list, convo, m, nowIso, i);
    } else {
      MergeIncomingDeltaNone(list, convo, m, nowIso);
    }
  }

  /** The messages that stay keep their order; anything new is at the end. */
  lemma {:induction false} MergeIncomingOrder(list: seq<Message>, convo: int, m: Message, nowIso: string)
    ensures var r := MergeIncoming(list, convo, m, nowIso);
      || IsSubseq(r, list)
      || (r != [] && IsSubseq(r[..|r| - 1], list) && r[|r| - 1] == Normalize(convo, m, nowIso))
  {
    var i := FindOptimistic(list, m.text);
    var rest := if i >= 0 then list[..i] + list[i + 1..] else list;
    if i >= 0 {
      RemoveAtFacts(list, i);
    } else {
      IsSubseqRefl(list);
    }
    var r := MergeIncoming(list, convo, m, nowIso);
    if !HasIdKey(rest, m.id) {
      assert r == rest + [Normalize(convo, m, nowIso)];
      assert r[..|r| - 1] == rest;
    }
  }

  /** Nothing before the first matching placeholder moves. */
  lemma {:induction false} MergeIncomingKeepsPrefix(list: seq<Message>, convo: int, m: Message, nowIso: string, k: int)
    requires 0 <= k < |list|
    requires forall j :: 0 <= j <= k ==> !MatchesOptimistic(list[j], m.text)
    ensures var r := MergeIncoming(list, convo, m, nowIso);
      k < |r| && r[k] == list[k]
  {
    var i := FindOptimistic(list, m.text);
    if i >= 0 {
      assert k < i;
      assert (list[..i] + list[i + 1..])[k] == list[k];
    }
  }

  /** The pushed message is on screen afterwards: by id when it has one, otherwise as
      the newly appended last entry. */
  lemma {:induction false} MergeIncomingShows(list: seq<Message>, convo: int, m: Message, nowIso: string)
    ensures var r := MergeIncoming(list, convo, m, nowIso);
      && (m.id.Some? ==> exists k :: 0 <= k < |r| && r[k].id == m.id)
      && (m.id.None? ==> r != [] && r[|r| - 1] == Normalize(convo, m, nowIso))
  {
    var i := FindOptimistic(list, m.text);
    var rest := if i >= 0 then list[..i] + list[i + 1..] else list;
    var r := MergeIncoming(list, convo, m, nowIso);
    if !HasIdKey(rest, m.id) {
      assert r[|r| - 1] == Normalize(convo, m, nowIso);
    }
  }

  /** When no other message has the incoming id, the stored copy is appended. */
  lemma {:induction false} MergeIncomingAppendsNew(list: seq<Message>, convo: int, m: Message, nowIso: string)
    requires m.id.Some? ==> forall k :: 0 <= k < |list| ==> list[k].id != m.id
    ensures var r := MergeIncoming(list, convo, m, nowIso);
      r != [] && r[|r| - 1] == Normalize(convo, m, nowIso)
  {
    var i := FindOptimistic(list, m.text);
    var rest := if i >= 0 then list[..i] + list[i + 1..] else list;
    if i >= 0 && m.id.Some? {
      IdAbsentRemoveAt(list, i, rest, m.id);
    }
    assert !HasIdKey(rest, m.id);
    var n := Normalize(convo, m, nowIso);
    assert MergeIncoming(list, convo, m, nowIso) == rest + [n];
    assert (rest + [n])[|rest|] == n;
  }

  /** An id missing from a list is missing once an element is dropped. */
  lemma IdAbsentRemoveAt(list: seq<Message>, i: int, rest: seq<Message>, id: Option<int>)
    requires 0 <= i < |list| && rest == list[..i] + list[i + 1..]
    requires forall k :: 0 <= k < |list| ==> list[k].id != id
    ensures forall k :: 0 <= k < |rest| ==> rest[k].id != id
  {
    forall k | 0 <= k < |rest| ensures rest[k].id != id {
      if k < i {
        assert rest[k] == list[k];
      } else {
        assert rest[k] == list[k + 1];
      }
    }
  }

  // ---------------------------------------------------------------------------
  // At most one message per id

  ghost predicate UniqueIds(list: seq<Message>) {
    forall i, j :: 0 <= i < j < |list| && list[i].id.Some? ==> list[i].id != list[j].id
  }

  /** The message with id `n` is in the list exactly once. */
  ghost predicate ShownOnce(list: seq<Message>, n: int) {
    exists k :: OnlyAt(list, n, k)
  }

  /** Position `k` holds id `n`, and no other position does. */
  ghost predicate OnlyAt(list: seq<Message>, n: int, k: int) {
    && 0 <= k < |list| && list[k].id == Some(n)
    && forall j :: 0 <= j < |list| && list[j].id == Some(n) ==> j == k
  }

  lemma ShownOnceOfUnique(list: seq<Message>, n: int)
    requires UniqueIds(list) && exists k :: 0 <= k < |list| && list[k].id == Some(n)
    ensures ShownOnce(list, n)
  {
    var k :| 0 <= k < |list| && list[k].id == Some(n);
    assert OnlyAt(list, n, k);
  }

  lemma UniqueIdsRemoveAt(list: seq<Message>, i: int)
    requires UniqueIds(list) && 0 <= i < |list|
    ensures UniqueIds(list[..i] + list[i + 1..])
  {
    var rest := list[..i] + list[i + 1..];
    forall a, b | 0 <= a < b < |rest| && rest[a].id.Some? ensures rest[a].id != rest[b].id {
      var a' := if a < i then a else a + 1;
      var b' := if b < i then b else b + 1;
      assert rest[a] == list[a'] && rest[b] == list[b'];
    }
  }

  lemma UniqueIdsSnoc(list: seq<Message>, m: Message)
    requires UniqueIds(list)
    requires m.id.Some? ==> forall k :: 0 <= k < |list| ==> list[k].id != m.id
    ensures UniqueIds(list + [m])
  {
    var r := list + [m];
    forall a, b | 0 <= a < b < |r| && r[a].id.Some? ensures r[a].id != r[b].id {
      if b == |list| {
        assert r[a] == list[a];
      } else {
        assert r[a] == list[a] && r[b] == list[b];
      }
    }
  }

  /** A push never puts a second copy of an id on screen. */
  lemma {:induction false} MergeIncomingKeepsUniqueIds(list: seq<Message>, convo: int, m: Message, nowIso: string)
    requires UniqueIds(list)
    ensures UniqueIds(MergeIncoming(list, convo, m, nowIso))
  {
    var i := FindOptimistic(list, m.text);
    var rest := if i >= 0 then list[..i] + list[i + 1..] else list;
    if i >= 0 {
      UniqueIdsRemoveAt(list, i);
    }
    AppendUnlessListed(rest, Normalize(convo, m, nowIso));
  }

  /** Appending a message only when its id is not listed keeps the ids unique. */
  lemma AppendUnlessListed(rest: seq<Message>, n: Message)
    requires UniqueIds(rest)
    ensures UniqueIds(if HasIdKey(rest, n.id) then rest else rest + [n])
  {
    if !HasIdKey(rest, n.id) {
      UniqueIdsSnoc(rest, n);
    }
  }

  // ---------------------------------------------------------------------------
  // The reconciler state and its transitions

  /** `messagesCache` together with `messageIdsProcessed`. */
  datatype Store = Store(cache: Cache, processed: set<string>)

  /** `handleNewMessage`: skip a push whose key was seen; otherwise record the key
      and merge the message into its conversation. */
  function Push(s: Store, convo: int, m: Message, time: int, nowIso: string): (t: Store)
    ensures t.processed == s.processed + {IncomingKey(convo, m, time)}
    ensures IncomingKey(convo, m, time) in s.processed ==> t == s
    ensures IncomingKey(convo, m, time) !in s.processed ==>
      Lookup(t.cache, convo) == MergeIncoming(Lookup(s.cache, convo), convo, m, nowIso)
    ensures forall c :: c != convo ==> (c in t.cache <==> c in s.cache) && Lookup(t.cache, c) == Lookup(s.cache, c)
  {
    var key := IncomingKey(convo, m, time);
    if key in s.processed then s
    else Store(s.cache[convo := MergeIncoming(Lookup(s.cache, convo), convo, m, nowIso)], s.processed + {key})
  }

  /** Handling the same push twice is handling it once. */
  lemma PushTwice(s: Store, convo: int, m: Message, time: int, nowIso: string, laterIso: string)
    ensures Push(Push(s, convo, m, time, nowIso), convo, m, time, laterIso) == Push(s, convo, m, time, nowIso)
  {
    var t := Push(s, convo, m, time, nowIso);
    assert IncomingKey(convo, m, time) in t.processed;
  }

  /** Why a send is refused, if it is: no session first, then text that trims to
      nothing. */
  function SendRefusal(session: Option<Session>, text: string): (r: Option<string>)
    ensures session.None? ==> r == Some("Not authenticated")
    ensures r == Some("Message is empty") <==>
      session.Some? && forall k :: 0 <= k < |text| ==> IsWhitespace(text[k])
    ensures r.None? <==> session.Some? && exists k :: 0 <= k < |text| && !IsWhitespace(text[k])
  {
    TrimEmptyIffBlank(text);
    if session.None? then Some("Not authenticated")
    else if Trim(text) == "" then Some("Message is empty")
    else None
  }

  /** The optimistic placeholder of a send started at `tempId` milliseconds. */
  function TempMessage(session: Session, convo: int, text: string, tempId: int, nowIso: string): Message {
    Message(Some(tempId), Trim(text), nowIso, Some(session.id), session.role, Some(convo), true)
  }

  /** An accepted send shows a placeholder carrying the trimmed, non-empty text. */
  lemma TempMessageShape(session: Session, convo: int, text: string, tempId: int, nowIso: string)
    requires SendRefusal(Some(session), text).None?
    ensures var m := TempMessage(session, convo, text, tempId, nowIso);
      && m.isOptimistic && m.id == Some(tempId) && m.convoId == Some(convo)
      && m.text != "" && Trim(m.text) == m.text
  {
    TrimEmptyIffBlank(text);
    TrimIdempotent(text);
  }

  /** The synchronous part of an accepted send: register the temporary key and append
      the placeholder. */
  function AddOptimistic(s: Store, session: Session, convo: int, text: string, tempId: int, nowIso: string): (t: Store)
    ensures t.processed == s.processed + {IntToString(tempId)}
    ensures Lookup(t.cache, convo) == Lookup(s.cache, convo) + [TempMessage(session, convo, text, tempId, nowIso)]
    ensures forall c :: c != convo ==> (c in t.cache <==> c in s.cache) && Lookup(t.cache, c) == Lookup(s.cache, c)
  {
    Store(s.cache[convo := Lookup(s.cache, convo) + [TempMessage(session, convo, text, tempId, nowIso)]],
          s.processed + {IntToString(tempId)})
  }

  /** The placeholder test of the success and rollback branches. */
  predicate IsTemp(m: Message, tempKey: string) {
    m.isOptimistic && IdString(m.id) == tempKey
  }

  predicate NoTemp(list: seq<Message>, tempId: int) {
    forall k :: 0 <= k < |list| ==> !IsTemp(list[k], IntToString(tempId))
  }

  /** `filter(m => !(m.isOptimistic && String(m.id) === tempIdKey))`. */
  function WithoutTemp(list: seq<Message>, tempKey: string): (r: seq<Message>)
    ensures forall x :: x in r <==> x in list && !IsTemp(x, tempKey)
    ensures (forall k :: 0 <= k < |list| ==> !IsTemp(list[k], tempKey)) ==> r == list
    decreases |list|
  {
    if list == [] then []
    else
      var w := WithoutTemp(list[1..], tempKey);
      if IsTemp(list[0], tempKey) then w else [list[0]] + w
  }
  /** The filter keeps every other message as often as it occurs, and drops every
      placeholder of the temp id. */
  lemma {:induction false} WithoutTempCounts(list: seq<Message>, tempKey: string, x: Message)
    ensures multiset(WithoutTemp(list, tempKey))[x] == if IsTemp(x, tempKey) then 0 else multiset(list)[x]
    decreases |list|
  {
    if list != [] {
      var w := WithoutTemp(list[1..], tempKey);
      WithoutTempCounts(list[1..], tempKey, x);
      assert list == [list[0]] + list[1..];
      assert multiset(list) == multiset([list[0]]) + multiset(list[1..]);
      if !IsTemp(list[0], tempKey) {
        assert WithoutTemp(list, tempKey) == [list[0]] + w;
        assert multiset([list[0]] + w) == multiset([list[0]]) + multiset(w);
      }
    }
  }


  /** Filtering out the placeholder never creates a duplicate id. */
  lemma {:induction false} WithoutTempKeepsUniqueIds(list: seq<Message>, tempKey: string)
    requires UniqueIds(list)
    ensures UniqueIds(WithoutTemp(list, tempKey))
    decreases |list|
  {
    if list != [] {
      assert UniqueIds(list[1..]);
      WithoutTempKeepsUniqueIds(list[1..], tempKey);
      var w := WithoutTemp(list[1..], tempKey);
      if !IsTemp(list[0], tempKey) {
        forall k | 0 <= k < |w| && list[0].id.Some? ensures w[k].id != list[0].id {
          assert w[k] in list[1..];
          var j :| 0 <= j < |list[1..]| && list[1..][j] == w[k];
          assert list[j + 1] == w[k];
        }
        UniqueIdsCons(list[0], w);
      }
    }
  }

  lemma UniqueIdsCons(m: Message, list: seq<Message>)
    requires UniqueIds(list)
    requires m.id.Some? ==> forall k :: 0 <= k < |list| ==> list[k].id != m.id
    ensures UniqueIds([m] + list)
  {
    var r := [m] + list;
    forall a, b | 0 <= a < b < |r| && r[a].id.Some? ensures r[a].id != r[b].id {
      assert r[b] == list[b - 1];
      if a > 0 {
        assert r[a] == list[a - 1];
      }
    }
  }

  lemma {:induction false} WithoutTempAppend(a: seq<Message>, b: seq<Message>, tempKey: string)
    ensures WithoutTemp(a + b, tempKey) == WithoutTemp(a, tempKey) + WithoutTemp(b, tempKey)
    decreases |a|
  {
    if a == [] {
      assert a + b == b;
    } else {
      assert (a + b)[0] == a[0] && (a + b)[1..] == a[1..] + b;
      WithoutTempAppend(a[1..], b, tempKey);
    }
  }

  /** The rollback branches take out exactly the placeholders and keep the order. */
  lemma {:induction false} WithoutTempIsSubseq(list: seq<Message>, tempKey: string)
    ensures IsSubseq(WithoutTemp(list, tempKey), list)
    decreases |list|
  {
    if list != [] {
      WithoutTempIsSubseq(list[1..], tempKey);
      var w := WithoutTemp(list[1..], tempKey);
      if IsTemp(list[0], tempKey) {
        if w != [] {
          assert IsSubseq(w, list);
        }
      } else {
        assert ([list[0]] + w)[1..] == w;
      }
    }
  }

  /** The record `sendMessage` returns on success. */
  datatype SentData = SentData(id: Option<int>, text: string, createdAt: string)

  /** The key the success branch records: the real id, or `api_<now>` without one. */
  function RealIdKey(data: SentData, nowMs: int): string {
    if data.id.Some? then IntToString(data.id.value) else "api_" + IntToString(nowMs)
  }

  /** The success branch records precisely the key under which the transport echo of
      the confirmed message arrives, so that echo is skipped. */
  lemma RealIdKeyIsEchoKey(data: SentData, nowMs: int, convo: int, echo: Message, time: int)
    requires data.id.Some? && echo.id == data.id
    ensures RealIdKey(data, nowMs) == IncomingKey(convo, echo, time)
  {
  }

  /** The confirmed message as the success branch builds it. */
  function RealMessage(session: Session, convo: int, text: string, data: SentData, nowIso: string): (m: Message)
    ensures m.id == data.id && !m.isOptimistic && m.convoId == Some(convo) && m.senderId == Some(session.id)
    ensures data.text != "" ==> m.text == data.text
    ensures data.text == "" ==> m.text == Trim(text)
  {
    Message(data.id, if data.text != "" then data.text else Trim(text),
            if data.createdAt != "" then data.createdAt else nowIso,
            Some(session.id), session.role, Some(convo), false)
  }

  /** `alreadyHasReal` as written: a message with the real id key, or ANY non-optimistic
      message with the confirmed text. */
  predicate HasRealAsWritten(list: seq<Message>, realKey: string, dataText: string) {
    exists k :: 0 <= k < |list| &&
      (IdString(list[k].id) == realKey || (dataText != "" && list[k].text == dataText && !list[k].isOptimistic))
  }

  /** `alreadyHasReal` corrected: with a real id only that id counts; the text test is
      kept for the case where the server returned no id. */
  predicate HasReal(list: seq<Message>, data: SentData, realKey: string) {
    if data.id.Some? then exists k :: 0 <= k < |list| && IdString(list[k].id) == realKey
    else exists k :: 0 <= k < |list| && data.text != "" && list[k].text == data.text && !list[k].isOptimistic
  }

  /** The success updater as written. */
  function ConfirmListAsWritten(list: seq<Message>, session: Session, convo: int, text: string, tempId: int,
                                data: SentData, nowMs: int, nowIso: string): (r: seq<Message>)
    ensures NoTemp(r, tempId)
    ensures var w := WithoutTemp(list, IntToString(tempId));
      r == if HasRealAsWritten(w, RealIdKey(data, nowMs), data.text) then w
           else w + [RealMessage(session, convo, text, data, nowIso)]
  {
    var without := WithoutTemp(list, IntToString(tempId));
    if HasRealAsWritten(without, RealIdKey(data, nowMs), data.text) then without
    else without + [RealMessage(session, convo, text, data, nowIso)]
  }

  /** The success updater, corrected: the confirmed id always ends up on screen, and
      at most once. */
  function ConfirmList(list: seq<Message>, session: Session, convo: int, text: string, tempId: int,
                       data: SentData, nowMs: int, nowIso: string): (r: seq<Message>)
    ensures NoTemp(r, tempId)
    ensures data.id.Some? ==> exists k :: 0 <= k < |r| && r[k].id == data.id
    ensures UniqueIds(list) ==> UniqueIds(r)
    ensures var w := WithoutTemp(list, IntToString(tempId));
      r == if HasReal(w, data, RealIdKey(data, nowMs)) then w
           else w + [RealMessage(session, convo, text, data, nowIso)]
  {
    var without := WithoutTemp(list, IntToString(tempId));
    var confirmed := RealMessage(session, convo, text, data, nowIso);
    assert UniqueIds(list) ==> UniqueIds(without) by {
      if UniqueIds(list) {
        WithoutTempKeepsUniqueIds(list, IntToString(tempId));
      }
    }
    if HasReal(without, data, RealIdKey(data, nowMs)) then
      HasRealListsId(without, data, nowMs);
      without
    else
      NotHasRealAppend(without, data, nowMs, confirmed);
      without + [confirmed]
  }

  /** The success branch keeps every other message of the conversation, in order, and
      adds at most the confirmed message, at the end. */
  lemma ConfirmListKeepsOthers(list: seq<Message>, session: Session, convo: int, text: string, tempId: int,
                               data: SentData, nowMs: int, nowIso: string)
    ensures var r := ConfirmList(list, session, convo, text, tempId, data, nowMs, nowIso);
      && (forall x :: x in list && !IsTemp(x, IntToString(tempId)) ==> x in r)
      && (|| IsSubseq(r, list)
          || (r != [] && IsSubseq(r[..|r| - 1], list) && r[|r| - 1] == RealMessage(session, convo, text, data, nowIso)))
  {
    var w := WithoutTemp(list, IntToString(tempId));
    WithoutTempIsSubseq(list, IntToString(tempId));
    var r := ConfirmList(list, session, convo, text, tempId, data, nowMs, nowIso);
    if r != w {
      assert r[..|r| - 1] == w;
    }
  }

  /** With a real id, `HasReal` finds a message with that id. */
  lemma HasRealListsId(list: seq<Message>, data: SentData, nowMs: int)
    requires HasReal(list, data, RealIdKey(data, nowMs))
    ensures data.id.Some? ==> exists k :: 0 <= k < |list| && list[k].id == data.id
  {
    if data.id.Some? {
      var k :| 0 <= k < |list| && IdString(list[k].id) == RealIdKey(data, nowMs);
      IdStringIs(list[k].id, data.id.value);
    }
  }

  /** Appending the confirmation when `HasReal` fails shows its id and keeps ids unique. */
  lemma NotHasRealAppend(list: seq<Message>, data: SentData, nowMs: int, confirmed: Message)
    requires !HasReal(list, data, RealIdKey(data, nowMs)) && confirmed.id == data.id
    ensures data.id.Some? ==> (list + [confirmed])[|list|].id == data.id
    ensures UniqueIds(list) ==> UniqueIds(list + [confirmed])
  {
    if UniqueIds(list) {
      if confirmed.id.Some? {
        forall k | 0 <= k < |list| ensures list[k].id != confirmed.id {
          IdStringIs(list[k].id, data.id.value);
        }
      }
      UniqueIdsSnoc(list, confirmed);
    }
  }

  function ConfirmAsWritten(s: Store, session: Session, convo: int, text: string, tempId: int,
                            data: SentData, nowMs: int, nowIso: string): (t: Store)
    ensures t.processed == s.processed + {RealIdKey(data, nowMs)}
    ensures NoTemp(Lookup(t.cache, convo), tempId)
    ensures Lookup(t.cache, convo) == ConfirmListAsWritten(Lookup(s.cache, convo), session, convo, text, tempId, data, nowMs, nowIso)
    ensures forall c :: c != convo ==> (c in t.cache <==> c in s.cache) && Lookup(t.cache, c) == Lookup(s.cache, c)
  {
    Store(s.cache[convo := ConfirmListAsWritten(Lookup(s.cache, convo), session, convo, text, tempId, data, nowMs, nowIso)],
          s.processed + {RealIdKey(data, nowMs)})
  }

  /** The success branch (corrected): record the real key, drop the placeholder, show
      the confirmed message once. */
  function Confirm(s: Store, session: Session, convo: int, text: string, tempId: int,
                   data: SentData, nowMs: int, nowIso: string): (t: Store)
    ensures t.processed == s.processed + {RealIdKey(data, nowMs)}
    ensures NoTemp(Lookup(t.cache, convo), tempId)
    ensures data.id.Some? ==> exists k :: 0 <= k < |Lookup(t.cache, convo)| && Lookup(t.cache, convo)[k].id == data.id
    ensures UniqueIds(Lookup(s.cache, convo)) ==> UniqueIds(Lookup(t.cache, convo))
    ensures Lookup(t.cache, convo) == ConfirmList(Lookup(s.cache, convo), session, convo, text, tempId, data, nowMs, nowIso)
    ensures forall c :: c != convo ==> (c in t.cache <==> c in s.cache) && Lookup(t.cache, c) == Lookup(s.cache, c)
  {
    Store(s.cache[convo := ConfirmList(Lookup(s.cache, convo), session, convo, text, tempId, data, nowMs, nowIso)],
          s.processed + {RealIdKey(data, nowMs)})
  }

  /** The failure and exception branches: drop the placeholder and forget its key. */
  function Rollback(s: Store, convo: int, tempId: int): (t: Store)
    ensures t.processed == s.processed - {IntToString(tempId)}
    ensures NoTemp(Lookup(t.cache, convo), tempId)
    ensures forall x :: x in Lookup(t.cache, convo) <==> x in Lookup(s.cache, convo) && !IsTemp(x, IntToString(tempId))
    ensures forall c :: c != convo ==> (c in t.cache <==> c in s.cache) && Lookup(t.cache, c) == Lookup(s.cache, c)
  {
    Store(s.cache[convo := WithoutTemp(Lookup(s.cache, convo), IntToString(tempId))],
          s.processed - {IntToString(tempId)})
  }

  lemma WithoutTempSnocTemp(l: seq<Message>, temp: Message, key: string)
    requires forall k :: 0 <= k < |l| ==> !IsTemp(l[k], key)
    requires IsTemp(temp, key)
    ensures WithoutTemp(l + [temp], key) == l
  {
    WithoutTempAppend(l, [temp], key);
    assert [temp][1..] == [];
    assert WithoutTemp([temp], key) == [];
  }

  lemma RollbackRestoresList(s: Store, session: Session, convo: int, text: string, tempId: int, nowIso: string, c: int)
    requires NoTemp(Lookup(s.cache, convo), tempId)
    ensures var t := Rollback(AddOptimistic(s, session, convo, text, tempId, nowIso), convo, tempId);
      Lookup(t.cache, c) == Lookup(s.cache, c)
  {
    if c == convo {
      WithoutTempSnocTemp(Lookup(s.cache, convo), TempMessage(session, convo, text, tempId, nowIso), IntToString(tempId));
    }
  }

  lemma AddThenRemove(a: set<string>, k: string)
    requires k !in a
    ensures (a + {k}) - {k} == a
  {
  }

  /** A failed send leaves the processed set and every conversation's list as they
      were before it started; the cache itself is as it was when the conversation
      already had an entry, and otherwise gains an empty entry for it. */
  lemma RollbackUndoesSend(s: Store, session: Session, convo: int, text: string, tempId: int, nowIso: string)
    requires IntToString(tempId) !in s.processed
    requires NoTemp(Lookup(s.cache, convo), tempId)
    ensures var t := Rollback(AddOptimistic(s, session, convo, text, tempId, nowIso), convo, tempId);
      t.processed == s.processed && forall c :: Lookup(t.cache, c) == Lookup(s.cache, c)
    ensures var t := Rollback(AddOptimistic(s, session, convo, text, tempId, nowIso), convo, tempId);
      && (convo in s.cache ==> t.cache == s.cache)
      && (convo !in s.cache ==> t.cache == s.cache[convo := []])
  {
    var k := IntToString(tempId);
    var t1 := AddOptimistic(s, session, convo, text, tempId, nowIso);
    var t := Rollback(t1, convo, tempId);
    assert t1.processed == s.processed + {k};
    assert t.processed == t1.processed - {k};
    AddThenRemove(s.processed, k);
    forall c ensures Lookup(t.cache, c) == Lookup(s.cache, c) {
      RollbackRestoresList(s, session, convo, text, tempId, nowIso, c);
    }
    assert t.cache.Keys == s.cache.Keys + {convo};
    if convo in s.cache {
      forall c | c in t.cache ensures t.cache[c] == s.cache[c] {
        assert Lookup(t.cache, c) == Lookup(s.cache, c);
      }
    } else {
      forall c | c in t.cache ensures t.cache[c] == s.cache[convo := []][c] {
        assert Lookup(t.cache, c) == Lookup(s.cache, c);
      }
    }
  }

  /** Whichever of the HTTP confirmation and the transport echo arrives first, the
      confirmed message then shows exactly once and its placeholder is gone. */
  lemma {:induction false} SendConverges(s: Store, session: Session, convo: int, text: string, tempId: int,
                                         data: SentData, nowMs: int, nowIso: string,
                                         echo: Message, time: int, echoIso: string)
    requires UniqueIds(Lookup(s.cache, convo))
    requires forall k :: 0 <= k < |Lookup(s.cache, convo)| ==> Lookup(s.cache, convo)[k].id != Some(tempId)
    requires data.id.Some? && echo.id == data.id
    ensures var s1 := AddOptimistic(s, session, convo, text, tempId, nowIso);
      var echoFirst := Confirm(Push(s1, convo, echo, time, echoIso), session, convo, text, tempId, data, nowMs, nowIso);
      var httpFirst := Push(Confirm(s1, session, convo, text, tempId, data, nowMs, nowIso), convo, echo, time, echoIso);
      && ShownOnce(Lookup(echoFirst.cache, convo), data.id.value) && NoTemp(Lookup(echoFirst.cache, convo), tempId)
      && ShownOnce(Lookup(httpFirst.cache, convo), data.id.value) && NoTemp(Lookup(httpFirst.cache, convo), tempId)
  {
    var n := data.id.value;
    var s1 := AddOptimistic(s, session, convo, text, tempId, nowIso);
    UniqueIdsSnoc(Lookup(s.cache, convo), TempMessage(session, convo, text, tempId, nowIso));
    var p := Push(s1, convo, echo, time, echoIso);
    if IncomingKey(convo, echo, time) !in s1.processed {
      MergeIncomingKeepsUniqueIds(Lookup(s1.cache, convo), convo, echo, echoIso);
    }
    var echoFirst := Confirm(p, session, convo, text, tempId, data, nowMs, nowIso);
    ShownOnceOfUnique(Lookup(echoFirst.cache, convo), n);
    var c := Confirm(s1, session, convo, text, tempId, data, nowMs, nowIso);
    RealIdKeyIsEchoKey(data, nowMs, convo, echo, time);
    var httpFirst := Push(c, convo, echo, time, echoIso);
    assert httpFirst == c;
    ShownOnceOfUnique(Lookup(c.cache, convo), n);
  }

  // ---------------------------------------------------------------------------
  // The text-match confirmation loses messages

  /** An earlier message of conversation 7 that happens to read "hi". */
  function EarlierHi(): Message {
    Message(Some(5), "hi", "2024-01-01T00:00:00.000Z", Some(2), Some(Investor), Some(7), false)
  }

  function HiSession(): Session {
    Session(2, Some(Investor))
  }

  function HiEcho(): Message {
    Message(Some(101), "hi", "t2", Some(2), Some(Investor), Some(7), false)
  }

  /** Conversation 7 with the earlier "hi" (id 5) already processed. */
  function HiBefore(): Store {
    Store(map[7 := [EarlierHi()]], {"5"})
  }

  /** The user sends "hi" again at time 1000. */
  function HiSent(): Store {
    AddOptimistic(HiBefore(), HiSession(), 7, "hi", 1000, "t1")
  }

  /** The server confirms that send as message 101. */
  function HiData(): SentData {
    SentData(Some(101), "hi", "t2")
  }

  /** Dropping the placeholder of the second send leaves the earlier "hi" alone. */
  lemma HiSentWithoutTemp()
    ensures WithoutTemp(Lookup(HiSent().cache, 7), IntToString(1000)) == [EarlierHi()]
  {
    var temp := TempMessage(HiSession(), 7, "hi", 1000, "t1");
    var key := IntToString(1000);
    assert Lookup(HiSent().cache, 7) == [EarlierHi(), temp];
    assert IsTemp(temp, key);
    assert !IsTemp(EarlierHi(), key);
    assert [EarlierHi(), temp][1..] == [temp];
    assert WithoutTemp([temp], key) == [];
  }

  /** As written: the user sends "hi" again, the server confirms it as message 101
      before the echo arrives. The earlier "hi" passes for the confirmation, 101 is
      recorded as processed, and the echo is then skipped: 101 never appears. */
  lemma ConfirmAsWrittenHidesMessage()
    ensures var s2 := ConfirmAsWritten(HiSent(), HiSession(), 7, "hi", 1000, HiData(), 1001, "t2");
      var s3 := Push(s2, 7, HiEcho(), 0, "t3");
      Lookup(s3.cache, 7) == [EarlierHi()]
  {
    HiSentWithoutTemp();
    assert HasRealAsWritten([EarlierHi()], RealIdKey(HiData(), 1001), "hi");
    var s2 := ConfirmAsWritten(HiSent(), HiSession(), 7, "hi", 1000, HiData(), 1001, "t2");
    assert Lookup(s2.cache, 7) == [EarlierHi()];
    RealIdKeyIsEchoKey(HiData(), 1001, 7, HiEcho(), 0);
  }

  /** Corrected, the confirmation is appended after the earlier "hi". */
  lemma HiConfirmedList()
    ensures var s2 := Confirm(HiSent(), HiSession(), 7, "hi", 1000, HiData(), 1001, "t2");
      Lookup(s2.cache, 7) == [EarlierHi(), RealMessage(HiSession(), 7, "hi", HiData(), "t2")]
  {
    var list := Lookup(HiSent().cache, 7);
    HiSentWithoutTemp();
    IdStringIs(Some(5), 101);
    assert !HasReal([EarlierHi()], HiData(), RealIdKey(HiData(), 1001));
    ConfirmListAppends(list, HiSession(), 7, "hi", 1000, HiData(), 1001, "t2");
  }

  lemma ConfirmListAppends(list: seq<Message>, session: Session, convo: int, text: string, tempId: int,
                           data: SentData, nowMs: int, nowIso: string)
    requires !HasReal(WithoutTemp(list, IntToString(tempId)), data, RealIdKey(data, nowMs))
    ensures ConfirmList(list, session, convo, text, tempId, data, nowMs, nowIso)
      == WithoutTemp(list, IntToString(tempId)) + [RealMessage(session, convo, text, data, nowIso)]
  {
  }

  /** Corrected, the same run shows message 101 exactly once, after the earlier "hi". */
  lemma ConfirmShowsMessage()
    ensures var s2 := Confirm(HiSent(), HiSession(), 7, "hi", 1000, HiData(), 1001, "t2");
      var s3 := Push(s2, 7, HiEcho(), 0, "t3");
      && ShownOnce(Lookup(s3.cache, 7), 101) && NoTemp(Lookup(s3.cache, 7), 1000)
      && Lookup(s3.cache, 7) == [EarlierHi(), RealMessage(HiSession(), 7, "hi", HiData(), "t2")]
  {
    var s2 := Confirm(HiSent(), HiSession(), 7, "hi", 1000, HiData(), 1001, "t2");
    HiConfirmedList();
    var l := [EarlierHi(), RealMessage(HiSession(), 7, "hi", HiData(), "t2")];
    RealIdKeyIsEchoKey(HiData(), 1001, 7, HiEcho(), 0);
    assert Push(s2, 7, HiEcho(), 0, "t3") == s2;
    ShownOnceSecond(l[0], l[1], 101);
  }

  lemma ShownOnceSecond(a: Message, b: Message, n: int)
    requires a.id != Some(n) && b.id == Some(n)
    ensures ShownOnce([a, b], n)
  {
    assert OnlyAt([a, b], n, 1);
  }
}

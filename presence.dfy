/** Who is typing in which conversation, and who is online, as the hook keeps them
    from `user_typing` and `user_status_change` pushes. */
module Presence {
  import opened Seqs

  /** `typingUsers`: conversation id -> ids of users typing there. */
  type TypingMap = map<int, seq<int>>

  /** `prev[conversationId] || []`. */
  function TypingList(typing: TypingMap, convo: int): seq<int> {
    if convo in typing then typing[convo] else []
  }

  /** `handleUserTyping`: a start adds the user at the end unless already listed (and
      then the map is left untouched); a stop filters the user out and always writes
      the conversation's entry. */
  function TypingAfter(typing: TypingMap, convo: int, user: int, isTyping: bool): (t: TypingMap)
    ensures isTyping ==> user in TypingList(t, convo)
    ensures !isTyping ==> user !in TypingList(t, convo) && convo in t
    ensures forall u :: u != user ==> (u in TypingList(t, convo) <==> u in TypingList(typing, convo))
    ensures forall c :: c != convo ==> (c in t <==> c in typing) && TypingList(t, c) == TypingList(typing, c)
    ensures NoDup(TypingList(typing, convo)) ==> NoDup(TypingList(t, convo))
    ensures isTyping && user in TypingList(typing, convo) ==> t == typing
  {
    var cur := TypingList(typing, convo);
    if isTyping then
      if user !in cur then typing[convo := cur + [user]] else typing
    else
      assert NoDup(cur) ==> NoDup(Remove(cur, user)) by {
        if NoDup(cur) {
          RemoveNoDup(cur, user);
        }
      }
      typing[convo := Remove(cur, user)]
  }

  /** A start followed by a stop of a user who was not typing restores the list. */
  lemma TypingStartThenStop(typing: TypingMap, convo: int, user: int)
    requires user !in TypingList(typing, convo)
    ensures TypingList(TypingAfter(TypingAfter(typing, convo, user, true), convo, user, false), convo)
      == TypingList(typing, convo)
  {
    RemoveSnocAbsent(TypingList(typing, convo), user);
  }

  /** A stop removes every copy of the user and keeps the others in order. */
  lemma TypingStopKeepsOrder(typing: TypingMap, convo: int, user: int)
    ensures var l := TypingList(TypingAfter(typing, convo, user, false), convo);
      IsSubseq(l, TypingList(typing, convo)) && |l| <= |TypingList(typing, convo)|
  {
    RemoveIsSubseq(TypingList(typing, convo), user);
  }

  /** `handleUserStatusChange`: `Array.from(new Set([...prev, userId]))` when online,
      `prev.filter(id => id !== userId)` otherwise. */
  function OnlineAfter(online: seq<int>, user: int, isOnline: bool): (r: seq<int>)
    ensures forall u :: u in r <==> (u in online && u != user) || (isOnline && u == user)
    ensures isOnline ==> NoDup(r)
    ensures NoDup(online) ==> NoDup(r)
  {
    if isOnline then
      DistinctNoDup(online + [user]);
      Distinct(online + [user])
    else
      assert NoDup(online) ==> NoDup(Remove(online, user)) by {
        if NoDup(online) {
          RemoveNoDup(online, user);
        }
      }
      Remove(online, user)
  }

  /** On a duplicate-free list, coming online is set insertion at the end. */
  lemma OnlineAfterInsertsAtEnd(online: seq<int>, user: int)
    requires NoDup(online)
    ensures OnlineAfter(online, user, true) == if user in online then online else online + [user]
  {
    AddDistinct(online, user);
  }
}

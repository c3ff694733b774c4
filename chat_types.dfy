/** The records the chat core exchanges: roles, the signed-in session and messages. */
module ChatTypes {
  import opened Wrappers

  datatype Role = Admin | Investor

  /** A signed-in user. `id` is the session's user id as `parseInt` reads it;
      `role` may be missing from the session. */
  datatype Session = Session(id: int, role: Option<Role>)

  /** One chat message. An absent `id`, sender or conversation is `None`; a missing
      `isOptimistic` flag reads as `false`. */
  datatype Message = Message(
    id: Option<int>,
    text: string,
    createdAt: string,
    senderId: Option<int>,
    senderRole: Option<Role>,
    convoId: Option<int>,
    isOptimistic: bool)

  /** JavaScript truthiness of an optional number: present and not zero. */
  predicate Truthy(n: Option<int>) {
    n.Some? && n.value != 0
  }
}

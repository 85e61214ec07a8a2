/** The client hook that keeps a conversation in the browser's key-value
    store, so that every tab showing it sees the same messages. */
module ConversationSync {
  import opened Common

  datatype ChatMessage = ChatMessage(id: string, senderUserId: string, senderName: string, text: string, timestamp: int)

  /** A stored conversation; the second user id is missing when the
      conversation id has no `_`. */
  datatype Conversation = Conversation(id: string, user1Id: string, user2Id: Option<string>, messages: seq<ChatMessage>)

  /** What the store holds under a key: the empty string; text that
      `JSON.parse` rejects, or `null`, whose `messages` cannot be read; a
      value that parses but has no `messages` field, such as `{}`; or a
      serialised conversation. */
  datatype Stored = EmptyText | Unparsable | NoMessages | Json(conversation: Conversation)

  /** The one key a conversation is read from and written to. */
  function StorageKey(conversationId: string): string {
    "conversation_" + conversationId
  }

  /** Different conversations never share a key. */
  lemma StorageKeyInjective(a: string, b: string)
    requires StorageKey(a) == StorageKey(b)
    ensures a == b
  {
    assert a == StorageKey(a)[13..];
    assert b == StorageKey(b)[13..];
  }

  /** The conversation `addMessage` creates when none is stored: its id, the
      first two `_`-separated parts as the user ids, and no messages. */
  function NewConversation(conversationId: string): (c: Conversation)
    ensures c.id == conversationId && c.messages == []
    ensures c.user1Id == Split(conversationId, '_')[0]
    ensures c.user2Id == if |Split(conversationId, '_')| >= 2 then Some(Split(conversationId, '_')[1]) else None
  {
    var parts := Split(conversationId, '_');
    Conversation(conversationId, parts[0], if |parts| >= 2 then Some(parts[1]) else None, [])
  }

  /** For an id made of two `_`-free user ids joined by `_`, those are the
      conversation's users. */
  lemma NewConversationUsers(a: string, b: string)
    requires '_' !in a && '_' !in b
    ensures NewConversation(a + "_" + b).user1Id == a
    ensures NewConversation(a + "_" + b).user2Id == Some(b)
  {
    SplitAfterHead(a, '_', b);
    SplitNoSep(b, '_');
  }

  /** An id without `_` names only one user. */
  lemma NewConversationOneUser(a: string)
    requires '_' !in a
    ensures NewConversation(a).user1Id == a && NewConversation(a).user2Id.None?
  {
    SplitNoSep(a, '_');
  }

  /** The messages `loadMessages` takes from a stored value: none for a
      missing key, the empty string or text that does not parse, and
      `undefined` (None) for a value without a `messages` field. */
  function StoredMessages(v: Option<Stored>): Option<seq<ChatMessage>> {
    if v == Some(NoMessages) then None
    else if v.Some? && v.value.Json? then Some(v.value.conversation.messages)
    else Some([])
  }

  class ConversationSync {
    const conversationId: string
    /** The browser's key-value store, shared by every tab. */
    var storage: map<string, Stored>
    /** The hook's `messages` state; None once it has been set to
        `undefined`. */
    var messages: Option<seq<ChatMessage>>

    constructor (conversationId: string, storage: map<string, Stored>)
      ensures this.conversationId == conversationId && this.storage == storage && messages == Some([])
    {
      this.conversationId := conversationId;
      this.storage := storage;
      messages := Some([]);
    }

    function Key(): string
      reads this
    {
      StorageKey(conversationId)
    }

    function Current(): Option<Stored>
      reads this
    {
      if Key() in storage then Some(storage[Key()]) else None
    }

    /** `loadMessages`: the stored messages, or none when the key is missing,
        empty or unparsable, or `undefined` when the value has no messages;
        the store is only read. */
    method LoadMessages()
      modifies this
      ensures storage == old(storage)
      ensures messages == StoredMessages(old(Current()))
      ensures old(Current()).None? || old(Current()) == Some(EmptyText) || old(Current()) == Some(Unparsable) ==>
        messages == Some([])
      ensures old(Current()) == Some(NoMessages) ==> messages.None?
      ensures old(Current()).Some? && old(Current()).value.Json? ==>
        messages == Some(old(Current()).value.conversation.messages)
    {
      if Key() in storage && storage[Key()].Json? {
        messages := Some(storage[Key()].conversation.messages);
      } else if Key() in storage && storage[Key()].NoMessages? {
        messages := None;
      } else {
        messages := Some([]);
      }
    }

    /** The polling check: like `loadMessages`, except that a missing,
        empty or unparsable value leaves the messages as they were. */
    method Poll()
      modifies this
      ensures storage == old(storage)
      ensures old(Current()).Some? && old(Current()).value.Json? ==>
        messages == Some(old(Current()).value.conversation.messages)
      ensures old(Current()) == Some(NoMessages) ==> messages.None?
      ensures old(Current()).None? || old(Current()) == Some(EmptyText) || old(Current()) == Some(Unparsable) ==>
        messages == old(messages)
    {
      if Key() in storage && storage[Key()].Json? {
        messages := Some(storage[Key()].conversation.messages);
      } else if Key() in storage && storage[Key()].NoMessages? {
        messages := None;
      }
    }

    /** `addMessage`: the stored conversation, or a new one, gets `m` at the
        end of its messages, without a check for a repeated id; it is written
        back under the same key and becomes the hook's state. Text that does
        not parse, or a value without messages to push onto, throws (`ok`
        false) and changes nothing. */
    method AddMessage(m: ChatMessage) returns (ok: bool)
      modifies this
      ensures ok <==> old(Current()) != Some(Unparsable) && old(Current()) != Some(NoMessages)
      ensures !ok ==> storage == old(storage) && messages == old(messages)
      ensures ok ==> var before :=
          if old(Current()).Some? && old(Current()).value.Json? then old(Current()).value.conversation
          else NewConversation(conversationId);
        && storage == old(storage)[Key() := Json(before.(messages := before.messages + [m]))]
        && messages == Some(before.messages + [m])
      ensures ok ==> StoredMessages(Current()) == messages
    {
      var conversation: Conversation;
      if Key() in storage && storage[Key()] != EmptyText {
        if storage[Key()].Unparsable? || storage[Key()].NoMessages? {
          return false;
        }
        conversation := storage[Key()].conversation;
      } else {
        conversation := NewConversation(conversationId);
      }
      conversation := conversation.(messages := conversation.messages + [m]);
      storage := storage[Key() := Json(conversation)];
      messages := Some(conversation.messages);
      ok := true;
    }
  }
}

/** The message controller: the conversation list of a user, the thread
    with one peer (which marks the peer's messages read), sending a message,
    and marking one message read. */
module Messages {
  import opened Common
  import opened Base
  import opened Sorting
  import opened UserModel
  import opened Store

  // ---- Conversations -------------------------------------------------------

  /** The other party of a message, as seen by `me`: its receiver when `me`
      sent it, its sender otherwise. */
  function Peer(m: Message, me: Id): Id {
    if m.senderId == me then m.receiverId else m.senderId
  }

  /** The messages `me` sent or received. */
  function Involving(me: Id): (q: Message -> bool)
    ensures forall m :: q(m) <==> m.senderId == me || m.receiverId == me
  {
    (m: Message) => m.senderId == me || m.receiverId == me
  }

  /** `sort({ timestamp: -1 })`. */
  function NewestMessageFirst(e: (Id, Message)): int {
    -e.1.timestamp
  }

  /** The peer of each message of `list`, in order. */
  function Peers(list: seq<(Id, Message)>, me: Id): (ps: seq<Id>)
    ensures |ps| == |list|
    ensures forall k :: 0 <= k < |list| ==> ps[k] == Peer(list[k].1, me)
  {
    seq(|list|, k requires 0 <= k < |list| => Peer(list[k].1, me))
  }

  /** Whether `p` already has an entry. */
  predicate Seen(seen: seq<(Id, nat)>, p: Id) {
    exists k :: 0 <= k < |seen| && seen[k].0 == p
  }

  /** What the entries for the first `n` keys of `ps` are: each names the
      key at its position, no earlier position has that key, positions
      increase, and every key among the first `n` has an entry. */
  predicate SeenOk(ps: seq<Id>, n: nat, seen: seq<(Id, nat)>)
    requires n <= |ps|
  {
    && (forall k :: 0 <= k < |seen| ==> seen[k].1 < n && ps[seen[k].1] == seen[k].0)
    && (forall k, j :: 0 <= k < |seen| && 0 <= j < seen[k].1 ==> ps[j] != seen[k].0)
    && (forall i, j :: 0 <= i < j < |seen| ==> seen[i].1 < seen[j].1)
    && (forall j :: 0 <= j < n ==> Seen(seen, ps[j]))
  }

  /** The `Map` after one more key `p`, met at position `i`: unchanged when
      `p` has an entry, else with an entry for `p` at the end. */
  function Extend(seen: seq<(Id, nat)>, p: Id, i: nat): seq<(Id, nat)> {
    if Seen(seen, p) then seen else seen + [(p, i)]
  }

  /** One more key that has an entry already: nothing to add. */
  lemma SeenKeep(ps: seq<Id>, n: nat, prev: seq<(Id, nat)>)
    requires n < |ps| && SeenOk(ps, n, prev) && Seen(prev, ps[n])
    ensures SeenOk(ps, n + 1, prev)
  {
  }

  /** One more key with no entry: it gets one at the end. */
  lemma SeenAdd(ps: seq<Id>, n: nat, prev: seq<(Id, nat)>)
    requires n < |ps| && SeenOk(ps, n, prev) && !Seen(prev, ps[n])
    ensures SeenOk(ps, n + 1, prev + [(ps[n], n)])
  {
    var seen := prev + [(ps[n], n)];
    assert seen[|prev|] == (ps[n], n);
    forall k, j | 0 <= k < |seen| && 0 <= j < seen[k].1 ensures ps[j] != seen[k].0 {
      if k == |prev| {
        assert Seen(prev, ps[j]);
      }
    }
    forall j | 0 <= j < n + 1 ensures Seen(seen, ps[j]) {
      if j < n {
        assert Seen(prev, ps[j]);
        var k :| 0 <= k < |prev| && prev[k].0 == ps[j];
        assert seen[k] == prev[k];
      }
    }
  }

  lemma SeenStep(ps: seq<Id>, n: nat, prev: seq<(Id, nat)>)
    requires n < |ps| && SeenOk(ps, n, prev)
    ensures SeenOk(ps, n + 1, Extend(prev, ps[n], n))
  {
    if Seen(prev, ps[n]) {
      SeenKeep(ps, n, prev);
    } else {
      SeenAdd(ps, n, prev);
    }
  }

  /** The first `n` keys of `ps` in the order they first turn up, each with
      its first position: the entries a `Map` gets when an entry is added
      only for a key it does not have. */
  function FirstSeen(ps: seq<Id>, n: nat): (seen: seq<(Id, nat)>)
    requires n <= |ps|
    ensures forall k :: 0 <= k < |seen| ==> seen[k].1 < n
  {
    if n == 0 then [] else Extend(FirstSeen(ps, n - 1), ps[n - 1], n - 1)
  }

  /** The entries are what they are meant to be: one for each key, at its
      first position, in order of first appearance. */
  lemma {:induction false} FirstSeenOk(ps: seq<Id>, n: nat)
    requires n <= |ps|
    ensures SeenOk(ps, n, FirstSeen(ps, n))
  {
    if n > 0 {
      FirstSeenOk(ps, n - 1);
      SeenStep(ps, n - 1, FirstSeen(ps, n - 1));
    }
  }

  /** One entry per key. */
  lemma FirstSeenDistinct(ps: seq<Id>)
    ensures var seen := FirstSeen(ps, |ps|);
      forall i, j :: 0 <= i < j < |seen| ==> seen[i].0 != seen[j].0
  {
    var seen := FirstSeen(ps, |ps|);
    FirstSeenOk(ps, |ps|);
    forall i, j | 0 <= i < j < |seen| ensures seen[i].0 != seen[j].0 {
      assert seen[i].1 < seen[j].1;
      assert ps[seen[i].1] == seen[i].0;
    }
  }

  /** On a newest-first list, the first message with a peer is the newest
      message with that peer. */
  lemma FirstIsNewest(list: seq<(Id, Message)>, me: Id)
    requires SortedBy(list, NewestMessageFirst)
    ensures var seen := FirstSeen(Peers(list, me), |list|);
      forall k, j :: 0 <= k < |seen| && 0 <= j < |list| && Peer(list[j].1, me) == seen[k].0 ==>
        list[seen[k].1].1.timestamp >= list[j].1.timestamp
  {
    var ps := Peers(list, me);
    var seen := FirstSeen(ps, |ps|);
    FirstSeenOk(ps, |ps|);
    forall k, j | 0 <= k < |seen| && 0 <= j < |list| && Peer(list[j].1, me) == seen[k].0
      ensures list[seen[k].1].1.timestamp >= list[j].1.timestamp
    {
      assert ps[j] == seen[k].0;
      if seen[k].1 < j {
        assert NewestMessageFirst(list[seen[k].1]) <= NewestMessageFirst(list[j]);
      }
    }
  }

  /** On a newest-first list, the entries come out by the recency of their
      last message. */
  lemma SeenByRecency(list: seq<(Id, Message)>, me: Id)
    requires SortedBy(list, NewestMessageFirst)
    ensures var seen := FirstSeen(Peers(list, me), |list|);
      forall i, j :: 0 <= i < j < |seen| ==> list[seen[i].1].1.timestamp >= list[seen[j].1].1.timestamp
  {
    var seen := FirstSeen(Peers(list, me), |list|);
    FirstSeenOk(Peers(list, me), |list|);
    forall i, j | 0 <= i < j < |seen| ensures list[seen[i].1].1.timestamp >= list[seen[j].1].1.timestamp {
      assert NewestMessageFirst(list[seen[i].1]) <= NewestMessageFirst(list[seen[j].1]);
    }
  }

  /** The unread messages `peer` sent to `me`. */
  function UnreadFilter(peer: Id, me: Id): (q: Message -> bool)
    ensures forall m :: q(m) <==> m.senderId == peer && m.receiverId == me && !m.read
  {
    (m: Message) => m.senderId == peer && m.receiverId == me && !m.read
  }

  /** `countDocuments({ senderId: peer, receiverId: me, read: false })`. */
  function UnreadFrom(messages: map<Id, Message>, n: nat, peer: Id, me: Id): nat {
    |Select(messages, n, UnreadFilter(peer, me))|
  }

  datatype Conversation = Conversation(peer: Id, lastMessage: (Id, Message), unreadCount: nat)

  /** Populating a message fails on a sender without a user document, and,
      when `me` sent it, on a receiver without one; reading the id of the
      missing user then throws. */
  predicate Dangling(m: Message, me: Id, users: map<Id, User>) {
    m.senderId !in users || (m.senderId == me && m.receiverId !in users)
  }

  predicate HasPeer(groups: seq<Conversation>, p: Id) {
    exists k :: 0 <= k < |groups| && groups[k].peer == p
  }

  lemma HasPeerSeen(groups: seq<Conversation>, seen: seq<(Id, nat)>, p: Id)
    requires |groups| == |seen| && forall k :: 0 <= k < |seen| ==> groups[k].peer == seen[k].0
    ensures HasPeer(groups, p) <==> Seen(seen, p)
  {
    if HasPeer(groups, p) {
      var k :| 0 <= k < |groups| && groups[k].peer == p;
      assert seen[k].0 == p;
    }
    if Seen(seen, p) {
      var k :| 0 <= k < |seen| && seen[k].0 == p;
      assert groups[k].peer == p;
    }
  }

  /** The `forEach` over the newest-first list: an entry with unread count
      0 for each peer not seen before, holding the message it was first
      seen with; it stops at the first message that cannot be populated. */
  method GroupByPeer(list: seq<(Id, Message)>, me: Id, users: map<Id, User>) returns (ok: bool, groups: seq<Conversation>)
    ensures ok <==> forall k :: 0 <= k < |list| ==> !Dangling(list[k].1, me, users)
    ensures ok ==>
      var seen := FirstSeen(Peers(list, me), |list|);
      && |groups| == |seen|
      && forall k :: 0 <= k < |seen| ==> groups[k] == Conversation(seen[k].0, list[seen[k].1], 0)
  {
    groups := [];
    ghost var ps := Peers(list, me);
    ghost var seen: seq<(Id, nat)> := [];
    var i := 0;
    while i < |list|
      invariant 0 <= i <= |list|
      invariant seen == FirstSeen(ps, i)
      invariant |groups| == |seen|
      invariant forall k :: 0 <= k < |seen| ==> seen[k].1 < i
      invariant forall k :: 0 <= k < |seen| ==> groups[k] == Conversation(seen[k].0, list[seen[k].1], 0)
      invariant !exists k :: 0 <= k < i && Dangling(list[k].1, me, users)
    {
      var m := list[i];
      if Dangling(m.1, me, users) {
        return false, [];
      }
      var p := Peer(m.1, me);
      HasPeerSeen(groups, seen, p);
      if !HasPeer(groups, p) {
        groups := groups + [Conversation(p, m, 0)];
        seen := seen + [(p, i)];
      }
      i := i + 1;
    }
    ok := true;
  }

  /** The `for ... of` over the entries: each gets the number of unread
      messages its peer sent to `me`. */
  method CountUnread(groups: seq<Conversation>, messages: map<Id, Message>, n: nat, me: Id)
    returns (counted: seq<Conversation>)
    ensures |counted| == |groups|
    ensures forall k :: 0 <= k < |groups| ==>
      counted[k] == groups[k].(unreadCount := UnreadFrom(messages, n, groups[k].peer, me))
  {
    counted := groups;
    var j := 0;
    while j < |counted|
      invariant 0 <= j <= |counted| == |groups|
      invariant forall k :: 0 <= k < j ==>
        counted[k] == groups[k].(unreadCount := UnreadFrom(messages, n, groups[k].peer, me))
      invariant forall k :: j <= k < |counted| ==> counted[k] == groups[k]
    {
      counted := counted[j := counted[j].(unreadCount := UnreadFrom(messages, n, counted[j].peer, me))];
      j := j + 1;
    }
  }

  /** `getConversations`: the messages of `me`, newest first, grouped into
      one conversation per peer holding its first-seen, hence newest,
      message, in order of first appearance, hence of recency; then each
      conversation gets the number of unread messages from its peer. A
      message whose party cannot be populated makes the handler fail
      (500). */
  method GetConversations(db: Db, me: Id) returns (status: int, conversations: seq<Conversation>)
    ensures var list := SelectSorted(db.messages, db.nextId, Involving(me), NewestMessageFirst);
      && (status == SERVER_ERROR <==> exists k :: 0 <= k < |list| && Dangling(list[k].1, me, db.users))
      && (status == SERVER_ERROR || status == OK)
      && (status == SERVER_ERROR ==> conversations == [])
      && (status == OK ==>
            var seen := FirstSeen(Peers(list, me), |list|);
            && |conversations| == |seen|
            && forall k :: 0 <= k < |seen| ==>
                 conversations[k] == Conversation(seen[k].0, list[seen[k].1],
                                                  UnreadFrom(db.messages, db.nextId, seen[k].0, me)))
  {
    var list := SelectSorted(db.messages, db.nextId, Involving(me), NewestMessageFirst);
    var ok, groups := GroupByPeer(list, me, db.users);
    if !ok {
      return SERVER_ERROR, [];
    }
    conversations := CountUnread(groups, db.messages, db.nextId, me);
    status := OK;
  }

  // ---- The thread with one peer --------------------------------------------

  /** The messages between `me` and `other`, both directions. */
  function Between(me: Id, other: Id): (q: Message -> bool)
    ensures forall m :: q(m) <==>
      (m.senderId == me && m.receiverId == other) || (m.senderId == other && m.receiverId == me)
  {
    (m: Message) => (m.senderId == me && m.receiverId == other) || (m.senderId == other && m.receiverId == me)
  }

  /** `sort({ timestamp: 1 })`. */
  function OldestMessageFirst(e: (Id, Message)): int {
    e.1.timestamp
  }

  /** `updateMany({ senderId: from, receiverId: to, read: false }, { read: true })`. */
  function MarkedRead(messages: map<Id, Message>, from: Id, to: Id): (r: map<Id, Message>)
    ensures r.Keys == messages.Keys
  {
    map i | i in messages :: if messages[i].senderId == from && messages[i].receiverId == to
                             then messages[i].(read := true) else messages[i]
  }

  /** After the update no message from `from` to `to` is unread. */
  lemma MarkedReadClears(messages: map<Id, Message>, n: nat, from: Id, to: Id)
    ensures UnreadFrom(MarkedRead(messages, from, to), n, from, to) == 0
  {
    var r := MarkedRead(messages, from, to);
    SelectNone(r, n, UnreadFilter(from, to));
  }

  /** The update leaves the unread messages from anyone else as they were. */
  lemma MarkedReadKeepsOthers(messages: map<Id, Message>, n: nat, from: Id, to: Id, peer: Id)
    requires peer != from
    ensures UnreadFrom(MarkedRead(messages, from, to), n, peer, to) == UnreadFrom(messages, n, peer, to)
  {
    SelectSame(messages, MarkedRead(messages, from, to), n, UnreadFilter(peer, to));
  }

  /** The update changes only the read flag, and only of messages from
      `from` to `to`. */
  lemma MarkedReadChanges(messages: map<Id, Message>, from: Id, to: Id, i: Id)
    requires i in messages
    ensures var r := MarkedRead(messages, from, to)[i];
      && r.(read := messages[i].read) == messages[i]
      && (r.read <==> messages[i].read || (messages[i].senderId == from && messages[i].receiverId == to))
  {
  }

  /** `getMessages`: the thread, oldest first, as it was before the call,
      and then every message `other` sent to `me` marked read. */
  method GetMessages(db: Db, me: Id, other: Id) returns (thread: seq<(Id, Message)>)
    requires db.Valid()
    modifies db
    ensures db.Valid()
    ensures thread == SelectSorted(old(db.messages), old(db.nextId), Between(me, other), OldestMessageFirst)
    ensures forall i, j :: 0 <= i < j < |thread| ==> thread[i].1.timestamp <= thread[j].1.timestamp
    ensures db.State() == old(db.State()).(messages := MarkedRead(old(db.messages), other, me))
  {
    thread := SelectSorted(db.messages, db.nextId, Between(me, other), OldestMessageFirst);
    assert forall i, j :: 0 <= i < j < |thread| ==> OldestMessageFirst(thread[i]) <= OldestMessageFirst(thread[j]);
    ghost var st := db.State();
    WithMessagesValid(st, MarkedRead(st.messages, other, me));
    db.messages := MarkedRead(db.messages, other, me);
    assert db.State() == st.(messages := MarkedRead(st.messages, other, me));
  }

  // ---- Sending -------------------------------------------------------------

  /** A new message: unread, dated at the time it was sent. */
  function NewMessage(senderId: Id, receiverId: Id, content: string, now: int): (m: Message)
    ensures m.senderId == senderId && m.receiverId == receiverId && m.content == content
    ensures !m.read && m.timestamp == now
  {
    Message(senderId, receiverId, content, false, now)
  }

  /** The database after the message is stored under the next id. */
  function SentState(st: DbState, me: Id, receiverId: Id, content: string, now: int): DbState {
    st.(messages := st.messages[st.nextId := NewMessage(me, receiverId, content, now)], nextId := st.nextId + 1)
  }

  /** `sendMessage`: the receiver must have a user document (404); no
      connection between the two is required. The message is stored; the
      notification names the sender, so without a user document for the
      sender the handler fails after the message is stored (500); otherwise
      a `message` notification about it is stored for the receiver (201). */
  method SendMessage(db: Db, me: Id, receiverId: Id, content: string, now: int) returns (status: int, id: Option<Id>)
    requires db.Valid()
    modifies db
    ensures db.Valid()
    ensures status == NOT_FOUND <==> receiverId !in old(db.users)
    ensures status == CREATED <==> receiverId in old(db.users) && me in old(db.users)
    ensures status == SERVER_ERROR <==> receiverId in old(db.users) && me !in old(db.users)
    ensures status == NOT_FOUND ==> id.None? && db.State() == old(db.State())
    ensures status != NOT_FOUND ==> id == Some(old(db.nextId))
    ensures status == SERVER_ERROR ==> db.State() == SentState(old(db.State()), me, receiverId, content, now)
    ensures status == CREATED ==>
      db.State() == Notified(SentState(old(db.State()), me, receiverId, content, now), Some(receiverId), "message", old(db.nextId), now)
  {
    if receiverId !in db.users {
      return NOT_FOUND, None;
    }
    var msgId := db.nextId;
    ghost var st := db.State();
    PutMessageValid(st.(nextId := msgId + 1), msgId, NewMessage(me, receiverId, content, now));
    db.messages := db.messages[msgId := NewMessage(me, receiverId, content, now)];
    db.nextId := msgId + 1;
    assert db.State() == SentState(st, me, receiverId, content, now);
    if me !in db.users {
      return SERVER_ERROR, Some(msgId);
    }
    NotifiedValid(db.State(), Some(receiverId), "message", msgId, now);
    db.notifications := db.notifications[db.nextId := NewNotification(Some(receiverId), "message", msgId, now)];
    db.nextId := db.nextId + 1;
    assert db.State() == Notified(SentState(st, me, receiverId, content, now), Some(receiverId), "message", msgId, now);
    return CREATED, Some(msgId);
  }

  // ---- Marking one message read --------------------------------------------

  /** The checks of `markAsRead`: the message exists (404) and the
      requester received it (403). */
  function ReadGuard(messages: map<Id, Message>, me: Id, id: Id): (status: int)
    ensures status == NOT_FOUND <==> id !in messages
    ensures status == FORBIDDEN <==> id in messages && messages[id].receiverId != me
    ensures status == OK <==> id in messages && messages[id].receiverId == me
  {
    if id !in messages then NOT_FOUND
    else if messages[id].receiverId != me then FORBIDDEN
    else OK
  }

  /** The database after message `id` is marked read. */
  function ReadState(st: DbState, id: Id): DbState
    requires id in st.messages
  {
    st.(messages := st.messages[id := st.messages[id].(read := true)])
  }

  /** Marking a message read a second time is allowed and changes nothing
      more. */
  lemma ReadIdempotent(st: DbState, me: Id, id: Id)
    requires ReadGuard(st.messages, me, id) == OK
    ensures ReadGuard(ReadState(st, id).messages, me, id) == OK
    ensures ReadState(ReadState(st, id), id) == ReadState(st, id)
  {
    var once := ReadState(st, id);
    assert once.messages[id := once.messages[id].(read := true)] == once.messages;
  }

  /** `markAsRead`: the checks, then the read flag is set (200). */
  method MarkMessageRead(db: Db, me: Id, id: Id) returns (status: int)
    requires db.Valid()
    modifies db
    ensures db.Valid()
    ensures status == ReadGuard(old(db.messages), me, id)
    ensures status != OK ==> db.State() == old(db.State())
    ensures status == OK ==> db.State() == ReadState(old(db.State()), id)
  {
    status := ReadGuard(db.messages, me, id);
    if status != OK {
      return;
    }
    ghost var st := db.State();
    WithMessagesValid(st, ReadState(st, id).messages);
    db.messages := db.messages[id := db.messages[id].(read := true)];
    assert db.State() == ReadState(st, id);
  }
}

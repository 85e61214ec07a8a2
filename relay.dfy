/** The presence registry shared by the two socket relays: the process-wide
    `connectedUsers` Map from a user id to the id of the socket that last
    registered it, and the vocabulary of events the relays receive and emit.

    A JavaScript Map iterates in insertion order, and `set` on a key that is
    already present keeps that key's place; the registry is therefore an
    insertion-ordered sequence of entries with distinct user ids. */
module Relay {
  import opened Common

  /** A user id as the client sends it in `register`; "" is falsy. */
  type UserId = string

  /** A socket id assigned by the transport; never empty. */
  type SocketId = s: string | s != [] witness "s"

  /** A chat message or other client payload, relayed without inspection. */
  type Payload = string

  datatype Entry = Entry(user: UserId, socket: SocketId)

  /** The invariant of a Map: a user id appears at most once. */
  ghost predicate UniqueKeys(es: seq<Entry>) {
    forall i, j :: 0 <= i < j < |es| ==> es[i].user != es[j].user
  }

  /** The user ids in iteration order. */
  function Keys(es: seq<Entry>): (ks: seq<UserId>)
    ensures |ks| == |es|
    ensures forall i :: 0 <= i < |es| ==> ks[i] == es[i].user
  {
    if es == [] then [] else [es[0].user] + Keys(es[1..])
  }

  /** `connectedUsers.get(u)`. */
  function Get(es: seq<Entry>, u: UserId): (r: Option<SocketId>)
    ensures r.None? <==> u !in Keys(es)
    ensures r.Some? ==> Entry(u, r.value) in es
  {
    if es == [] then None
    else if es[0].user == u then Some(es[0].socket)
    else Get(es[1..], u)
  }

  lemma GetUnique(es: seq<Entry>, i: nat)
    requires UniqueKeys(es) && i < |es|
    ensures Get(es, es[i].user) == Some(es[i].socket)
  {
    if i > 0 {
      assert es[0].user != es[i].user;
      GetUnique(es[1..], i - 1);
    }
  }

  /** `connectedUsers.set(u, s)`: overwrites in place when `u` is present,
      appends otherwise; either way the other keys keep their order. */
  function SetEntry(es: seq<Entry>, u: UserId, s: SocketId): (r: seq<Entry>)
    ensures Keys(r) == if u in Keys(es) then Keys(es) else Keys(es) + [u]
  {
    if es == [] then [Entry(u, s)]
    else if es[0].user == u then
      assert Keys([Entry(u, s)] + es[1..]) == [u] + Keys(es[1..]);
      [Entry(u, s)] + es[1..]
    else
      var t := SetEntry(es[1..], u, s);
      assert Keys([es[0]] + t) == [es[0].user] + Keys(t);
      assert Keys(es) == [es[0].user] + Keys(es[1..]);
      [es[0]] + t
  }

  /** After `set(u, s)`, `get(u)` is `s` and every other key reads as before. */
  lemma {:induction false} SetEntryGet(es: seq<Entry>, u: UserId, s: SocketId, v: UserId)
    ensures Get(SetEntry(es, u, s), v) == if v == u then Some(s) else Get(es, v)
  {
    if es != [] && es[0].user != u {
      SetEntryGet(es[1..], u, s, v);
      assert ([es[0]] + SetEntry(es[1..], u, s))[1..] == SetEntry(es[1..], u, s);
    } else if es != [] {
      assert ([Entry(u, s)] + es[1..])[1..] == es[1..];
    }
  }

  /** Distinct keys stay distinct after a `set`. */
  lemma SetEntryUnique(es: seq<Entry>, u: UserId, s: SocketId)
    requires UniqueKeys(es)
    ensures UniqueKeys(SetEntry(es, u, s))
  {
    var r := SetEntry(es, u, s);
    var ks := Keys(r);
    forall i, j | 0 <= i < j < |r| ensures r[i].user != r[j].user {
      assert ks[i] == r[i].user && ks[j] == r[j].user;
      if j == |es| {
        assert u !in Keys(es);
        assert ks[i] == Keys(es)[i];
      } else {
        assert ks[i] == Keys(es)[i] && ks[j] == Keys(es)[j];
        assert Keys(es)[i] == es[i].user && Keys(es)[j] == es[j].user;
      }
    }
  }

  /** The position of the first entry iterated whose socket is `s`, or the
      length when there is none. */
  function FirstWithSocket(es: seq<Entry>, s: SocketId): (i: nat)
    ensures i <= |es|
    ensures forall j :: 0 <= j < i ==> es[j].socket != s
    ensures i < |es| ==> es[i].socket == s
  {
    if es == [] then 0
    else if es[0].socket == s then 0
    else 1 + FirstWithSocket(es[1..], s)
  }

  /** The user the disconnect scan and the accept-call lookup find for `s`. */
  function UserOfSocket(es: seq<Entry>, s: SocketId): (r: Option<UserId>)
    ensures r.None? <==> forall j :: 0 <= j < |es| ==> es[j].socket != s
    ensures r.Some? ==> Entry(r.value, s) in es
  {
    var i := FirstWithSocket(es, s);
    if i < |es| then Some(es[i].user) else None
  }

  /** The registry after the disconnect scan: the first entry holding `s`
      deleted, all others kept in order. */
  function WithoutSocket(es: seq<Entry>, s: SocketId): (r: seq<Entry>)
    ensures |r| == if UserOfSocket(es, s).Some? then |es| - 1 else |es|
  {
    var i := FirstWithSocket(es, s);
    if i < |es| then es[..i] + es[i + 1..] else es
  }

  /** The disconnect scan removes exactly the entry it found. */
  lemma {:induction false} WithoutSocketGet(es: seq<Entry>, s: SocketId, v: UserId)
    requires UniqueKeys(es)
    ensures UniqueKeys(WithoutSocket(es, s))
    ensures Get(WithoutSocket(es, s), v) ==
            if UserOfSocket(es, s) == Some(v) then None else Get(es, v)
  {
    var i := FirstWithSocket(es, s);
    if i < |es| {
      var r := es[..i] + es[i + 1..];
      assert forall a, b :: 0 <= a < b < |r| ==> r[a].user != r[b].user by {
        forall a, b | 0 <= a < b < |r| ensures r[a].user != r[b].user {
          var a' := if a < i then a else a + 1;
          var b' := if b < i then b else b + 1;
          assert r[a] == es[a'] && r[b] == es[b'];
        }
      }
      GetAfterDelete(es, i, v);
    }
  }

  lemma {:induction false} GetAfterDelete(es: seq<Entry>, i: nat, v: UserId)
    requires UniqueKeys(es) && i < |es|
    ensures Get(es[..i] + es[i + 1..], v) == if es[i].user == v then None else Get(es, v)
  {
    if i == 0 {
      assert es[..0] + es[1..] == es[1..];
    } else {
      var t := es[1..];
      assert es[..i] + es[i + 1..] == [es[0]] + (t[..i - 1] + t[i..]);
      assert UniqueKeys(t) by {
        forall a, b | 0 <= a < b < |t| ensures t[a].user != t[b].user {
          assert t[a] == es[a + 1] && t[b] == es[b + 1];
        }
      }
      GetAfterDelete(t, i - 1, v);
      assert es[0].user != es[i].user;
    }
  }

  /** A socket that registered a user again elsewhere does not take that
      user with it when it disconnects. */
  lemma ReRegisterSurvivesOldDisconnect(es: seq<Entry>, u: UserId, s1: SocketId, s2: SocketId)
    requires UniqueKeys(es) && s1 != s2
    ensures Get(WithoutSocket(SetEntry(es, u, s2), s1), u) == Some(s2)
  {
    var r := SetEntry(es, u, s2);
    SetEntryUnique(es, u, s2);
    SetEntryGet(es, u, s2, u);
    WithoutSocketGet(r, s1, u);
  }

  /** The `connectedUsers` Map as a mutable object. */
  class UserSocketMap {
    var entries: seq<Entry>

    ghost predicate Valid()
      reads this
    {
      UniqueKeys(entries)
    }

    constructor ()
      ensures Valid() && entries == []
    {
      entries := [];
    }

    method Set(u: UserId, s: SocketId)
      requires Valid()
      modifies this
      ensures Valid()
      ensures entries == SetEntry(old(entries), u, s)
    {
      SetEntryUnique(entries, u, s);
      entries := SetEntry(entries, u, s);
    }

    /** The `for ... of connectedUsers.entries()` scan with `delete` and
        `break` that the disconnect handlers run. */
    method RemoveFirstWithSocket(s: SocketId) returns (removed: Option<UserId>)
      requires Valid()
      modifies this
      ensures Valid()
      ensures removed == UserOfSocket(old(entries), s)
      ensures entries == WithoutSocket(old(entries), s)
    {
      WithoutSocketGet(entries, s, "");
      removed := None;
      var k := 0;
      while k < |entries|
        invariant 0 <= k <= |entries|
        invariant entries == old(entries)
        invariant forall j :: 0 <= j < k ==> entries[j].socket != s
      {
        if entries[k].socket == s {
          removed := Some(entries[k].user);
          entries := entries[..k] + entries[k + 1..];
          return;
        }
        k := k + 1;
      }
    }

    /** `Array.from(connectedUsers.entries()).find(([_, id]) => id === s)?.[0]`. */
    method FindUserOfSocket(s: SocketId) returns (r: Option<UserId>)
      ensures r.None? <==> forall j :: 0 <= j < |entries| ==> entries[j].socket != s
      ensures r.Some? ==> exists i :: 0 <= i < |entries| && entries[i] == Entry(r.value, s) &&
                                      forall j :: 0 <= j < i ==> entries[j].socket != s
    {
      r := None;
      var k := 0;
      while k < |entries|
        invariant 0 <= k <= |entries|
        invariant forall j :: 0 <= j < k ==> entries[j].socket != s
      {
        if entries[k].socket == s {
          r := Some(entries[k].user);
          return;
        }
        k := k + 1;
      }
    }
  }

  /** Where an emitted event goes: the room named after a user id
      (`io.to(id)`), or every socket but the sender (`socket.broadcast`). */
  datatype Target = ToRoom(room: UserId) | AllExcept(sender: SocketId)

  /** The events the relays emit. */
  datatype OutEvent =
    | UserOnline(user: UserId)
    | UserOffline(user: UserId)
    | ReceiveMessage(message: Payload)
    | UserTyping(userId: UserId, isTyping: bool)
    | DailyCallInviteOut(roomUrl: Payload, callerName: Payload)
    | CallAccepted(from: Option<UserId>)
    | CallRejected
    | CallEnded

  datatype Emit = Emit(target: Target, event: OutEvent)

  /** A socket's membership of a room, made by `socket.join(userId)`. */
  datatype Membership = Membership(socket: SocketId, room: UserId)

  /** The events a client can send on its socket; `Unhandled` stands for any
      event name no handler is attached to. */
  datatype Inbound =
    | Register(userId: UserId)
    | SendMessage(receiverId: UserId, message: Payload)
    | Typing(receiverId: UserId, senderId: UserId, isTyping: bool)
    | DailyCallInvite(to: UserId, roomUrl: Payload, callerName: Payload)
    | AcceptCall(to: UserId)
    | RejectCall(to: UserId)
    | EndCall(to: UserId)
    | Disconnect
    | Unhandled(name: string)

  /** What the transport does on disconnect: the socket leaves every room. */
  function LeaveAll(rooms: set<Membership>, s: SocketId): (r: set<Membership>)
    ensures forall m :: m in r <==> m in rooms && m.socket != s
  {
    set m | m in rooms && m.socket != s
  }
}

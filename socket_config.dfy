/** The relay in the socket configuration module: the same presence registry,
    unconditional chat delivery, and the signalling events of a video call
    (invite, accept, reject, end) forwarded to the callee's room. */
module SocketConfig {
  import opened Common
  import opened Relay

  class SocketRelay {
    /** `connectedUsers`, exported by the module. */
    const users: UserSocketMap
    var rooms: set<Membership>
    var outbox: seq<Emit>

    ghost predicate Valid()
      reads this, users
    {
      users.Valid()
    }

    constructor ()
      ensures Valid() && fresh(users)
      ensures users.entries == [] && rooms == {} && outbox == []
    {
      users := new UserSocketMap();
      rooms := {};
      outbox := [];
    }

    method OnRegister(sock: SocketId, u: UserId)
      requires Valid()
      modifies this, users
      ensures Valid()
      ensures users.entries == SetEntry(old(users.entries), u, sock)
      ensures rooms == old(rooms) + {Membership(sock, u)}
      ensures outbox == old(outbox) + [Emit(AllExcept(sock), UserOnline(u))]
    {
      users.Set(u, sock);
      rooms := rooms + {Membership(sock, u)};
      outbox := outbox + [Emit(AllExcept(sock), UserOnline(u))];
    }

    /** `send-message`: emitted to the receiver's room with no registry check. */
    method OnSendMessage(sock: SocketId, receiverId: UserId, message: Payload)
      requires Valid()
      modifies this
      ensures Valid()
      ensures users.entries == old(users.entries) && rooms == old(rooms)
      ensures outbox == old(outbox) + [Emit(ToRoom(receiverId), ReceiveMessage(message))]
    {
      outbox := outbox + [Emit(ToRoom(receiverId), ReceiveMessage(message))];
    }

    method OnTyping(sock: SocketId, receiverId: UserId, senderId: UserId, isTyping: bool)
      requires Valid()
      modifies this
      ensures Valid()
      ensures users.entries == old(users.entries) && rooms == old(rooms)
      ensures outbox == old(outbox) + [Emit(ToRoom(receiverId), UserTyping(senderId, isTyping))]
    {
      outbox := outbox + [Emit(ToRoom(receiverId), UserTyping(senderId, isTyping))];
    }

    /** `daily-call-invite`: only the room URL and the caller's name are
        forwarded; the `to` field only selects the room. */
    method OnDailyCallInvite(sock: SocketId, to: UserId, roomUrl: Payload, callerName: Payload)
      requires Valid()
      modifies this
      ensures Valid()
      ensures users.entries == old(users.entries) && rooms == old(rooms)
      ensures outbox == old(outbox) + [Emit(ToRoom(to), DailyCallInviteOut(roomUrl, callerName))]
    {
      outbox := outbox + [Emit(ToRoom(to), DailyCallInviteOut(roomUrl, callerName))];
    }

    /** `accept-call`: the caller learns who accepted, found by searching the
        registry for the accepting socket; absent when it never registered. */
    method OnAcceptCall(sock: SocketId, to: UserId)
      requires Valid()
      modifies this
      ensures Valid()
      ensures users.entries == old(users.entries) && rooms == old(rooms)
      ensures outbox == old(outbox) + [Emit(ToRoom(to), CallAccepted(UserOfSocket(users.entries, sock)))]
    {
      var from := users.FindUserOfSocket(sock);
      assert from == UserOfSocket(users.entries, sock) by {
        if from.Some? {
          var i :| 0 <= i < |users.entries| && users.entries[i] == Entry(from.value, sock) &&
                   forall j :: 0 <= j < i ==> users.entries[j].socket != sock;
          assert FirstWithSocket(users.entries, sock) == i;
        }
      }
      outbox := outbox + [Emit(ToRoom(to), CallAccepted(from))];
    }

    method OnRejectCall(sock: SocketId, to: UserId)
      requires Valid()
      modifies this
      ensures Valid()
      ensures users.entries == old(users.entries) && rooms == old(rooms)
      ensures outbox == old(outbox) + [Emit(ToRoom(to), CallRejected)]
    {
      outbox := outbox + [Emit(ToRoom(to), CallRejected)];
    }

    method OnEndCall(sock: SocketId, to: UserId)
      requires Valid()
      modifies this
      ensures Valid()
      ensures users.entries == old(users.entries) && rooms == old(rooms)
      ensures outbox == old(outbox) + [Emit(ToRoom(to), CallEnded)]
    {
      outbox := outbox + [Emit(ToRoom(to), CallEnded)];
    }

    method OnDisconnect(sock: SocketId)
      requires Valid()
      modifies this, users
      ensures Valid()
      ensures users.entries == WithoutSocket(old(users.entries), sock)
      ensures rooms == LeaveAll(old(rooms), sock)
      ensures outbox == old(outbox) +
        match UserOfSocket(old(users.entries), sock)
        case Some(u) => if u != "" then [Emit(AllExcept(sock), UserOffline(u))] else []
        case None => []
    {
      var disconnectedUserId := users.RemoveFirstWithSocket(sock);
      if disconnectedUserId.Some? && disconnectedUserId.value != "" {
        outbox := outbox + [Emit(AllExcept(sock), UserOffline(disconnectedUserId.value))];
      }
      rooms := LeaveAll(rooms, sock);
    }

    /** Routes one inbound event; every event but `register` and `disconnect`
        leaves the registry as it was, and an event with no handler changes
        nothing. */
    method Handle(sock: SocketId, ev: Inbound)
      requires Valid()
      modifies this, users
      ensures Valid()
      ensures !ev.Register? && !ev.Disconnect? ==> users.entries == old(users.entries)
      ensures ev.Unhandled? ==> outbox == old(outbox) && rooms == old(rooms)
      ensures !ev.Register? && !ev.Disconnect? && !ev.Unhandled? ==> |outbox| == |old(outbox)| + 1
      ensures ev.Register? ==>
        users.entries == SetEntry(old(users.entries), ev.userId, sock) &&
        rooms == old(rooms) + {Membership(sock, ev.userId)} &&
        outbox == old(outbox) + [Emit(AllExcept(sock), UserOnline(ev.userId))]
      ensures ev.SendMessage? ==>
        users.entries == old(users.entries) && rooms == old(rooms) &&
        outbox == old(outbox) + [Emit(ToRoom(ev.receiverId), ReceiveMessage(ev.message))]
      ensures ev.Typing? ==>
        users.entries == old(users.entries) && rooms == old(rooms) &&
        outbox == old(outbox) + [Emit(ToRoom(ev.receiverId), UserTyping(ev.senderId, ev.isTyping))]
      ensures ev.DailyCallInvite? ==>
        users.entries == old(users.entries) && rooms == old(rooms) &&
        outbox == old(outbox) + [Emit(ToRoom(ev.to), DailyCallInviteOut(ev.roomUrl, ev.callerName))]
      ensures ev.AcceptCall? ==>
        users.entries == old(users.entries) && rooms == old(rooms) &&
        outbox == old(outbox) + [Emit(ToRoom(ev.to), CallAccepted(UserOfSocket(old(users.entries), sock)))]
      ensures ev.RejectCall? ==>
        users.entries == old(users.entries) && rooms == old(rooms) &&
        outbox == old(outbox) + [Emit(ToRoom(ev.to), CallRejected)]
      ensures ev.EndCall? ==>
        users.entries == old(users.entries) && rooms == old(rooms) &&
        outbox == old(outbox) + [Emit(ToRoom(ev.to), CallEnded)]
      ensures ev.Disconnect? ==>
        users.entries == WithoutSocket(old(users.entries), sock) &&
        rooms == LeaveAll(old(rooms), sock) &&
        outbox == old(outbox) +
          match UserOfSocket(old(users.entries), sock)
          case Some(u) => if u != "" then [Emit(AllExcept(sock), UserOffline(u))] else []
          case None => []
    {
      match ev
      case Register(u) => OnRegister(sock, u);
      case SendMessage(r, m) => OnSendMessage(sock, r, m);
      case Typing(r, s, t) => OnTyping(sock, r, s, t);
      case DailyCallInvite(t, url, name) => OnDailyCallInvite(sock, t, url, name);
      case AcceptCall(t) => OnAcceptCall(sock, t);
      case RejectCall(t) => OnRejectCall(sock, t);
      case EndCall(t) => OnEndCall(sock, t);
      case Disconnect => OnDisconnect(sock);
      case Unhandled(_) =>
    }
  }
}

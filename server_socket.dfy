/** The real-time relay wired up in the server's entry point: presence
    registration, chat delivery to registered users, typing indicators and
    the offline broadcast on disconnect. Each handler runs for the socket
    `sock` that received the event. */
module ServerSocket {
  import opened Common
  import opened Relay

  class ServerRelay {
    /** `connectedUsers`, created once for the process. */
    const users: UserSocketMap
    /** Room memberships made by `socket.join`. */
    var rooms: set<Membership>
    /** Every event emitted so far, oldest first. */
    var outbox: seq<Emit>

    ghost predicate Valid()
      reads this, users
    {
      users.Valid()
    }

    constructor ()
      ensures Valid() && fresh(users)
      ensures users.entries == [] && rooms == {} && outbox == []
    {
      users := new UserSocketMap();
      rooms := {};
      outbox := [];
    }

    /** `register`: record the socket, join the user's room, tell the others. */
    method OnRegister(sock: SocketId, u: UserId)
      requires Valid()
      modifies this, users
      ensures Valid()
      ensures users.entries == SetEntry(old(users.entries), u, sock)
      ensures rooms == old(rooms) + {Membership(sock, u)}
      ensures outbox == old(outbox) + [Emit(AllExcept(sock), UserOnline(u))]
    {
      users.Set(u, sock);
      rooms := rooms + {Membership(sock, u)};
      outbox := outbox + [Emit(AllExcept(sock), UserOnline(u))];
    }

    /** `send-message`: delivered to the receiver's room only when the
        receiver has a registered socket. */
    method OnSendMessage(sock: SocketId, receiverId: UserId, message: Payload)
      requires Valid()
      modifies this
      ensures Valid()
      ensures users.entries == old(users.entries) && rooms == old(rooms)
      ensures outbox == old(outbox) + if Get(users.entries, receiverId).Some?
                                     then [Emit(ToRoom(receiverId), ReceiveMessage(message))]
                                     else []
    {
      var receiverSocketId := Get(users.entries, receiverId);
      if receiverSocketId.Some? {
        outbox := outbox + [Emit(ToRoom(receiverId), ReceiveMessage(message))];
      }
    }

    /** `typing`: forwarded to the receiver's room whether or not anyone is
        registered there, carrying the sender id the client supplied. */
    method OnTyping(sock: SocketId, receiverId: UserId, senderId: UserId, isTyping: bool)
      requires Valid()
      modifies this
      ensures Valid()
      ensures users.entries == old(users.entries) && rooms == old(rooms)
      ensures outbox == old(outbox) + [Emit(ToRoom(receiverId), UserTyping(senderId, isTyping))]
    {
      outbox := outbox + [Emit(ToRoom(receiverId), UserTyping(senderId, isTyping))];
    }

    /** `disconnect`: drop the first registration held by this socket and,
        when it named a truthy user id, broadcast that user as offline. The
        socket leaves its rooms. */
    method OnDisconnect(sock: SocketId)
      requires Valid()
      modifies this, users
      ensures Valid()
      ensures users.entries == WithoutSocket(old(users.entries), sock)
      ensures rooms == LeaveAll(old(rooms), sock)
      ensures outbox == old(outbox) +
        match UserOfSocket(old(users.entries), sock)
        case Some(u) => if u != "" then [Emit(AllExcept(sock), UserOffline(u))] else []
        case None => []
    {
      var disconnectedUserId := users.RemoveFirstWithSocket(sock);
      if disconnectedUserId.Some? && disconnectedUserId.value != "" {
        outbox := outbox + [Emit(AllExcept(sock), UserOffline(disconnectedUserId.value))];
      }
      rooms := LeaveAll(rooms, sock);
    }

    /** Routes one inbound event to its handler. The call-signalling events
        have no handler in this relay and change nothing; only `register` and
        `disconnect` change the registry. */
    method Handle(sock: SocketId, ev: Inbound)
      requires Valid()
      modifies this, users
      ensures Valid()
      ensures !ev.Register? && !ev.Disconnect? ==> users.entries == old(users.entries)
      ensures (ev.Unhandled? || ev.DailyCallInvite? || ev.AcceptCall? || ev.RejectCall? || ev.EndCall?) ==>
                outbox == old(outbox) && rooms == old(rooms)
      ensures ev.Register? ==>
        users.entries == SetEntry(old(users.entries), ev.userId, sock) &&
        rooms == old(rooms) + {Membership(sock, ev.userId)} &&
        outbox == old(outbox) + [Emit(AllExcept(sock), UserOnline(ev.userId))]
      ensures ev.SendMessage? ==>
        users.entries == old(users.entries) && rooms == old(rooms) &&
        outbox == old(outbox) + if Get(old(users.entries), ev.receiverId).Some?
                                then [Emit(ToRoom(ev.receiverId), ReceiveMessage(ev.message))]
                                else []
      ensures ev.Typing? ==>
        users.entries == old(users.entries) && rooms == old(rooms) &&
        outbox == old(outbox) + [Emit(ToRoom(ev.receiverId), UserTyping(ev.senderId, ev.isTyping))]
      ensures ev.Disconnect? ==>
        users.entries == WithoutSocket(old(users.entries), sock) &&
        rooms == LeaveAll(old(rooms), sock) &&
        outbox == old(outbox) +
          match UserOfSocket(old(users.entries), sock)
          case Some(u) => if u != "" then [Emit(AllExcept(sock), UserOffline(u))] else []
          case None => []
    {
      match ev
      case Register(u) => OnRegister(sock, u);
      case SendMessage(r, m) => OnSendMessage(sock, r, m);
      case Typing(r, s, t) => OnTyping(sock, r, s, t);
      case Disconnect => OnDisconnect(sock);
      case _ =>
    }
  }
}

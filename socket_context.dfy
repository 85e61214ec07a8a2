/** The client's mirror of presence: a `connected` flag driven by the
    socket's own connect/disconnect, and the set of user ids announced online
    by `user-online` and withdrawn by `user-offline`. Every update builds a
    new set from the previous one. */
module SocketContext {
  import opened Common
  import opened Relay

  datatype ClientEvent =
    | Connected
    | Disconnected
    | UserOnlineEvent(user: UserId)
    | UserOfflineEvent(user: UserId)

  datatype PresenceState = PresenceState(connected: bool, onlineUsers: set<UserId>)

  /** The state before any event: disconnected, nobody online. */
  const Initial := PresenceState(false, {})

  /** `new Set([...prev, u])`. */
  function AddOnline(prev: set<UserId>, u: UserId): (r: set<UserId>)
    ensures u in r
    ensures forall v :: v != u ==> (v in r <==> v in prev)
    ensures u in prev ==> r == prev
  {
    prev + {u}
  }

  /** A fresh copy of `prev` with `u` deleted. */
  function RemoveOnline(prev: set<UserId>, u: UserId): (r: set<UserId>)
    ensures u !in r
    ensures forall v :: v != u ==> (v in r <==> v in prev)
    ensures u !in prev ==> r == prev
  {
    prev - {u}
  }

  /** One event applied to the provider's state. */
  function Step(st: PresenceState, ev: ClientEvent): PresenceState {
    match ev
    case Connected => st.(connected := true)
    case Disconnected => st.(connected := false)
    case UserOnlineEvent(u) => st.(onlineUsers := AddOnline(st.onlineUsers, u))
    case UserOfflineEvent(u) => st.(onlineUsers := RemoveOnline(st.onlineUsers, u))
  }

  /** The events applied in arrival order. */
  function Replay(st: PresenceState, evs: seq<ClientEvent>): PresenceState
    decreases |evs|
  {
    if evs == [] then st else Replay(Step(st, evs[0]), evs[1..])
  }

  /** `isUserOnline(u)`. */
  predicate IsUserOnline(st: PresenceState, u: UserId) {
    u in st.onlineUsers
  }

  /** The last presence announcement about `u`, if any: true for online. */
  function LastAnnouncement(evs: seq<ClientEvent>, u: UserId): Option<bool>
    decreases |evs|
  {
    if evs == [] then None
    else
      var last := evs[|evs| - 1];
      if last.UserOnlineEvent? && last.user == u then Some(true)
      else if last.UserOfflineEvent? && last.user == u then Some(false)
      else LastAnnouncement(evs[..|evs| - 1], u)
  }

  /** The last connection event, if any: true for connect. */
  function LastConnection(evs: seq<ClientEvent>): Option<bool>
    decreases |evs|
  {
    if evs == [] then None
    else if evs[|evs| - 1].Connected? then Some(true)
    else if evs[|evs| - 1].Disconnected? then Some(false)
    else LastConnection(evs[..|evs| - 1])
  }

  lemma {:induction false} ReplayAppend(st: PresenceState, evs: seq<ClientEvent>, ev: ClientEvent)
    ensures Replay(st, evs + [ev]) == Step(Replay(st, evs), ev)
    decreases |evs|
  {
    if evs != [] {
      assert (evs + [ev])[1..] == evs[1..] + [ev];
      ReplayAppend(Step(st, evs[0]), evs[1..], ev);
    }
  }

  /** A user is shown online exactly when the last announcement about them
      said online, or there was none and they were online before. */
  lemma {:induction false} OnlineFollowsLastAnnouncement(st: PresenceState, evs: seq<ClientEvent>, u: UserId)
    ensures IsUserOnline(Replay(st, evs), u) <==>
            match LastAnnouncement(evs, u)
            case Some(online) => online
            case None => u in st.onlineUsers
    decreases |evs|
  {
    if evs != [] {
      var init := evs[..|evs| - 1];
      assert init + [evs[|evs| - 1]] == evs;
      ReplayAppend(st, init, evs[|evs| - 1]);
      OnlineFollowsLastAnnouncement(st, init, u);
    }
  }

  /** `connected` is the outcome of the last connect or disconnect. */
  lemma {:induction false} ConnectedFollowsLastConnection(st: PresenceState, evs: seq<ClientEvent>)
    ensures Replay(st, evs).connected <==>
            match LastConnection(evs)
            case Some(c) => c
            case None => st.connected
    decreases |evs|
  {
    if evs != [] {
      var init := evs[..|evs| - 1];
      assert init + [evs[|evs| - 1]] == evs;
      ReplayAppend(st, init, evs[|evs| - 1]);
      ConnectedFollowsLastConnection(st, init);
    }
  }
}

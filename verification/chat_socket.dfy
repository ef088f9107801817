/** The real-time chat coordinator: authenticated connections, per-room
    presence lists, the username-to-socket registry, message relay and
    typing notifications. Each handler is one atomic transition from a state
    to a new state plus the list of events it emits. */
module ChatSocket {

  import opened Wrappers
  import opened Text
  import opened Seqs
  import Sorting
  import ChatStore

  type SocketId = string
  type UserId = ChatStore.UserId

  /** The account a connection authenticated as. */
  type Account = ChatStore.Account

  /** A live connection: its account, the room it last joined, and every
      room it has subscribed to at the transport level. */
  datatype Connection = Connection(id: SocketId, user: Account, room: Option<string>, joined: set<string>)

  /** One entry of a room's presence list. */
  datatype Presence = Presence(socketId: SocketId, username: string)

  /** The coordinator's state: live connections in connection order, the
      username-to-socket registry, room presence lists, and the message store. */
  datatype State = State(
    conns: seq<Connection>,
    userSockets: map<string, SocketId>,
    roomUsers: map<string, seq<Presence>>,
    store: ChatStore.Store)

  /** A history entry as delivered to a joining connection. */
  datatype HistoryEntry = HistoryEntry(
    username: Option<string>,
    text: Option<string>,
    images: seq<string>,
    avatarUrl: Option<string>,
    timestamp: int,
    to: Option<string>)

  /** A relayed message. */
  datatype MessageData = MessageData(
    id: ChatStore.MessageId,
    username: string,
    text: Option<string>,
    images: seq<string>,
    timestamp: int,
    avatarUrl: string,
    to: Option<string>)

  /** Who an emitted event is addressed to. */
  datatype Target = Room(name: string) | RoomExcept(name: string, except: SocketId) | Direct(socket: SocketId)

  datatype Payload =
    | OnlineUsers(users: seq<Presence>)
    | PreviousMessages(history: seq<HistoryEntry>)
    | Delivery(data: MessageData)
    | Typing(username: string, isTyping: bool, avatarUrl: string)

  datatype Emit = Emit(target: Target, payload: Payload)

  /** A transition: the state after the handler and what it emitted. */
  datatype Step = Step(state: State, emits: seq<Emit>)

  /** The size of the join-time history window. */
  const HistoryWindow: nat := 20

  function IsSocket(sid: SocketId): Connection -> bool
  {
    (c: Connection) => c.id == sid
  }

  function HasUsername(name: string): Connection -> bool
  {
    (c: Connection) => c.user.username == name
  }

  function NotSocket(sid: SocketId): Presence -> bool
  {
    (p: Presence) => p.socketId != sid
  }

  predicate Connected(st: State, sid: SocketId)
  {
    exists i :: 0 <= i < |st.conns| && st.conns[i].id == sid
  }

  /** The sockets that receive an event addressed to `target`. */
  function Recipients(st: State, target: Target): set<SocketId>
  {
    match target
    case Room(r) => set c | c in st.conns && r in c.joined :: c.id
    case RoomExcept(r, x) => (set c | c in st.conns && r in c.joined :: c.id) - {x}
    case Direct(x) => if Connected(st, x) then {x} else {}
  }

  /** The sockets that receive at least one of `emits`. */
  function Receivers(st: State, emits: seq<Emit>): set<SocketId>
  {
    if |emits| == 0 then {} else Recipients(st, emits[0].target) + Receivers(st, emits[1..])
  }

  // ---------------------------------------------------------- invariant

  /** Socket ids are unique among live connections. */
  predicate DistinctIds(st: State)
  {
    forall i, j :: 0 <= i < j < |st.conns| ==> st.conns[i].id != st.conns[j].id
  }

  /** Socket ids are distinct, a connection's current room is one it
      subscribed to, and the registry points at live connections of the
      registered username. */
  predicate Valid(st: State)
  {
    && DistinctIds(st)
    && (forall i :: 0 <= i < |st.conns| && st.conns[i].room.Some? ==>
          st.conns[i].room.value in st.conns[i].joined)
    && (forall u :: u in st.userSockets ==>
          exists i :: 0 <= i < |st.conns| && st.conns[i].id == st.userSockets[u]
                      && st.conns[i].user.username == u)
  }

  // ----------------------------------------------------------- connect

  /** A new connection. The handshake's credential check is an oracle:
      `identity` is the account the bearer token resolves to, or None when
      verification fails, in which case the connection is refused. The
      registry is keyed by username, so the most recent connection wins. */
  function Connect(st: State, sid: SocketId, identity: Option<Account>): (s: Step)
    requires !Connected(st, sid)
    ensures s.emits == []
    ensures identity.None? ==> s.state == st
    ensures identity.Some? ==> Connected(s.state, sid)
    ensures identity.Some? ==> s.state.userSockets == st.userSockets[identity.value.username := sid]
    ensures identity.Some? ==> |s.state.conns| == |st.conns| + 1 && s.state.conns[..|st.conns|] == st.conns
    ensures identity.Some? ==> s.state.conns[|st.conns|] == Connection(sid, identity.value, None, {})
    ensures s.state.roomUsers == st.roomUsers && s.state.store == st.store
  {
    match identity
    case None => Step(st, [])
    case Some(a) =>
      var c := Connection(sid, a, None, {});
      assert (st.conns + [c])[|st.conns|] == c;
      Step(st.(conns := st.conns + [c], userSockets := st.userSockets[a.username := sid]), [])
  }

  /** Connecting keeps the state valid. */
  lemma {:induction false} ConnectValid(st: State, sid: SocketId, identity: Option<Account>)
    requires Valid(st) && !Connected(st, sid)
    ensures Valid(Connect(st, sid, identity).state)
  {
    if identity.Some? {
      var s := Connect(st, sid, identity).state;
      var n := |st.conns|;
      assert |s.conns| == n + 1 && s.conns[n].id == sid;
      forall u | u in s.userSockets
        ensures exists i :: 0 <= i < |s.conns| && s.conns[i].id == s.userSockets[u]
                            && s.conns[i].user.username == u
      {
        if u == identity.value.username {
          assert s.conns[n].user == identity.value;
        } else {
          var i :| 0 <= i < n && st.conns[i].id == st.userSockets[u] && st.conns[i].user.username == u;
          assert s.conns[i] == st.conns[i];
        }
      }
    }
  }

  // ----------------------------------------------------------- history

  /** The room's messages newest first, the `n` newest of them reversed:
      oldest first, and nothing left out is newer than anything kept. */
  lemma {:induction false} WindowFacts(inRoom: seq<ChatStore.Message>, newest: seq<ChatStore.Message>, n: nat, room: string)
    requires forall k :: 0 <= k < |inRoom| ==> inRoom[k].room == room
    requires multiset(newest) == multiset(inRoom)
    requires Sorting.SortedBy(newest, ChatStore.Timestamp, true)
    requires n <= |newest|
    ensures var r := Sorting.Reverse(newest[..n]);
            && (forall k :: 0 <= k < |r| ==> r[k].room == room)
            && Sorting.SortedBy(r, ChatStore.Timestamp, false)
            && multiset(r) <= multiset(inRoom)
            && (forall m, k :: m in multiset(inRoom) - multiset(r) && 0 <= k < |r| ==> m.timestamp <= r[k].timestamp)
  {
    Sorting.NewestWindow(newest, ChatStore.Timestamp, n);
    WindowInRoom(inRoom, newest, n, room);
    WindowLeftBehindOlder(inRoom, newest, n);
  }

  lemma {:induction false} WindowInRoom(inRoom: seq<ChatStore.Message>, newest: seq<ChatStore.Message>, n: nat, room: string)
    requires forall k :: 0 <= k < |inRoom| ==> inRoom[k].room == room
    requires multiset(newest) == multiset(inRoom)
    requires n <= |newest|
    ensures var r := Sorting.Reverse(newest[..n]);
            forall k :: 0 <= k < |r| ==> r[k].room == room
  {
    var r := Sorting.Reverse(newest[..n]);
    forall k | 0 <= k < |r|
      ensures r[k].room == room
    {
      assert r[k] == newest[n - 1 - k];
      assert r[k] in multiset(newest);
      assert r[k] in inRoom;
    }
  }

  lemma {:induction false} WindowLeftBehindOlder(inRoom: seq<ChatStore.Message>, newest: seq<ChatStore.Message>, n: nat)
    requires multiset(newest) == multiset(inRoom)
    requires n <= |newest|
    requires multiset(newest) == multiset(Sorting.Reverse(newest[..n])) + multiset(newest[n..])
    requires forall j, k :: n <= j < |newest| && 0 <= k < n ==>
               ChatStore.Timestamp(newest[j]) <= ChatStore.Timestamp(Sorting.Reverse(newest[..n])[k])
    ensures var r := Sorting.Reverse(newest[..n]);
            forall m, k :: m in multiset(inRoom) - multiset(r) && 0 <= k < |r| ==> m.timestamp <= r[k].timestamp
  {
    var r := Sorting.Reverse(newest[..n]);
    assert multiset(inRoom) - multiset(r) == multiset(newest[n..]);
    RestOlder(newest, n);
  }

  lemma {:induction false} RestOlder(newest: seq<ChatStore.Message>, n: nat)
    requires n <= |newest|
    requires forall j, k :: n <= j < |newest| && 0 <= k < n ==>
               ChatStore.Timestamp(newest[j]) <= ChatStore.Timestamp(Sorting.Reverse(newest[..n])[k])
    ensures var r := Sorting.Reverse(newest[..n]);
            forall m, k :: m in multiset(newest[n..]) && 0 <= k < |r| ==> m.timestamp <= r[k].timestamp
  {
    var r := Sorting.Reverse(newest[..n]);
    var rest := newest[n..];
    forall m: ChatStore.Message, k | m in multiset(rest) && 0 <= k < |r|
      ensures m.timestamp <= r[k].timestamp
    {
      assert m in rest;
      var j :| 0 <= j < |rest| && rest[j] == m;
      assert newest[n + j] == m;
      assert ChatStore.Timestamp(newest[n + j]) <= ChatStore.Timestamp(r[k]);
    }
  }

  /** The messages a join delivers: the `HistoryWindow` most recent messages
      of the room, oldest first. */
  function RecentMessages(store: ChatStore.Store, room: string): (r: seq<ChatStore.Message>)
    ensures |r| <= HistoryWindow
    ensures |r| == if |Filter(store, ChatStore.InRoom(room))| < HistoryWindow
                   then |Filter(store, ChatStore.InRoom(room))| else HistoryWindow
    ensures forall k :: 0 <= k < |r| ==> r[k].room == room
    ensures Sorting.SortedBy(r, ChatStore.Timestamp, false)
    ensures multiset(r) <= multiset(Filter(store, ChatStore.InRoom(room)))
    ensures forall m, k :: (m in multiset(Filter(store, ChatStore.InRoom(room))) - multiset(r) && 0 <= k < |r|)
              ==> m.timestamp <= r[k].timestamp
  {
    var inRoom := Filter(store, ChatStore.InRoom(room));
    var newest := Sorting.SortBy(inRoom, ChatStore.Timestamp, true);
    var n := if |newest| < HistoryWindow then |newest| else HistoryWindow;
    WindowFacts(inRoom, newest, n, room);
    Sorting.Reverse(newest[..n])
  }

  /** A short room's whole history is delivered. */
  lemma {:induction false} ShortRoomFullHistory(store: ChatStore.Store, room: string)
    requires |Filter(store, ChatStore.InRoom(room))| <= HistoryWindow
    ensures multiset(RecentMessages(store, room)) == multiset(Filter(store, ChatStore.InRoom(room)))
  {
    var r := RecentMessages(store, room);
    var all := multiset(Filter(store, ChatStore.InRoom(room)));
    assert |multiset(r)| == |all|;
    assert |all - multiset(r)| == 0;
  }

  /** The username and avatar are not persisted with a message; a history
      entry takes them from the sender's account, when it still exists. */
  function HistoryOf(m: ChatStore.Message, directory: ChatStore.Directory): HistoryEntry
  {
    var sender := if m.sender in directory then Some(directory[m.sender]) else None;
    HistoryEntry(
      if sender.Some? then Some(sender.value.username) else None,
      m.text,
      m.images,
      if sender.Some? && sender.value.avatarUrl != "" then Some(sender.value.avatarUrl) else None,
      m.timestamp,
      if Truthy(m.to) then m.to else None)
  }

  /** History entry `e` shows a stored message of `room`. */
  predicate ShownFrom(e: HistoryEntry, store: ChatStore.Store, room: string, directory: ChatStore.Directory)
  {
    exists j :: 0 <= j < |store| && store[j].room == room && e == HistoryOf(store[j], directory)
  }

  /** The `previousMessages` payload for a room: at most the window, oldest
      first, each entry shown from a message of that room, and an empty
      recipient shown as none. */
  function History(store: ChatStore.Store, room: string, directory: ChatStore.Directory): (h: seq<HistoryEntry>)
    ensures |h| <= HistoryWindow
    ensures forall i, j :: 0 <= i < j < |h| ==> h[i].timestamp <= h[j].timestamp
    ensures forall k :: 0 <= k < |h| ==> ShownFrom(h[k], store, room, directory)
    ensures forall k :: 0 <= k < |h| ==> h[k].to.None? || h[k].to.value != ""
  {
    var recent := RecentMessages(store, room);
    RecentFromStore(store, room);
    var h := Shown(recent, directory);
    ShownInOrder(store, room, recent, h, directory);
    h
  }

  /** Each message of a window as a history entry. */
  function Shown(recent: seq<ChatStore.Message>, directory: ChatStore.Directory): (h: seq<HistoryEntry>)
    ensures |h| == |recent| && forall k :: 0 <= k < |h| ==> h[k] == HistoryOf(recent[k], directory)
  {
    seq(|recent|, k requires 0 <= k < |recent| => HistoryOf(recent[k], directory))
  }

  /** Showing the window entry by entry keeps its order and its provenance. */
  lemma {:induction false} ShownInOrder(store: ChatStore.Store, room: string, recent: seq<ChatStore.Message>,
                                        h: seq<HistoryEntry>, directory: ChatStore.Directory)
    requires Sorting.SortedBy(recent, ChatStore.Timestamp, false)
    requires forall k :: 0 <= k < |recent| ==> recent[k] in store && recent[k].room == room
    requires |h| == |recent| && forall k :: 0 <= k < |h| ==> h[k] == HistoryOf(recent[k], directory)
    ensures forall i, j :: 0 <= i < j < |h| ==> h[i].timestamp <= h[j].timestamp
    ensures forall k :: 0 <= k < |h| ==> ShownFrom(h[k], store, room, directory)
  {
    forall i, j | 0 <= i < j < |h|
      ensures h[i].timestamp <= h[j].timestamp
    {
      assert Sorting.InOrder(ChatStore.Timestamp(recent[i]), ChatStore.Timestamp(recent[j]), false);
    }
    forall k | 0 <= k < |h|
      ensures ShownFrom(h[k], store, room, directory)
    {
      var j :| 0 <= j < |store| && store[j] == recent[k];
    }
  }

  /** Every message of the join window is a stored message of the room. */
  lemma {:induction false} RecentFromStore(store: ChatStore.Store, room: string)
    ensures var recent := RecentMessages(store, room);
            forall k :: 0 <= k < |recent| ==> recent[k] in store && recent[k].room == room
  {
    var recent := RecentMessages(store, room);
    forall k | 0 <= k < |recent|
      ensures recent[k] in store
    {
      assert recent[k] in multiset(Filter(store, ChatStore.InRoom(room)));
    }
  }

  /** A room nobody has written to has an empty history. */
  lemma {:induction false} EmptyRoomEmptyHistory(store: ChatStore.Store, room: string, directory: ChatStore.Directory)
    requires forall k :: 0 <= k < |store| ==> store[k].room != room
    ensures History(store, room, directory) == []
  {
    FilterNone(store, ChatStore.InRoom(room));
  }

  // -------------------------------------------------------------- join

  /** The presence list of `room`, empty when the room has none yet. */
  function PresenceOf(st: State, room: string): seq<Presence>
  {
    if room in st.roomUsers then st.roomUsers[room] else []
  }

  /** `joinRoom`: subscribes the connection, makes `room` its current room,
      appends one presence entry (no de-duplication, and the previous room's
      list is left alone), broadcasts the room's presence list and sends the
      joining connection the room's recent history. */
  function JoinRoom(st: State, sid: SocketId, room: string, directory: ChatStore.Directory): (s: Step)
    ensures !Connected(st, sid) ==> s == Step(st, [])
    ensures Connected(st, sid) ==>
              exists i :: 0 <= i < |st.conns| && st.conns[i].id == sid
                && s.state.conns == st.conns[i := st.conns[i].(room := Some(room), joined := st.conns[i].joined + {room})]
                && room in s.state.roomUsers
                && s.state.roomUsers[room] == PresenceOf(st, room) + [Presence(sid, st.conns[i].user.username)]
                && (forall r :: r != room ==> (r in s.state.roomUsers <==> r in st.roomUsers))
                && (forall r :: r != room && r in st.roomUsers ==> s.state.roomUsers[r] == st.roomUsers[r])
                && s.state.userSockets == st.userSockets && s.state.store == st.store
                && s.emits == [Emit(Room(room), OnlineUsers(s.state.roomUsers[room])),
                               Emit(Direct(sid), PreviousMessages(History(st.store, room, directory)))]
  {
    match FindFirst(st.conns, IsSocket(sid))
    case None => Step(st, [])
    case Some(i) => JoinAt(st, sid, i, room, directory)
  }

  /** The join of connection `i`, found for `sid`. */
  function JoinAt(st: State, sid: SocketId, i: nat, room: string, directory: ChatStore.Directory): (s: Step)
    requires i < |st.conns| && st.conns[i].id == sid
    ensures s.state.conns == st.conns[i := st.conns[i].(room := Some(room), joined := st.conns[i].joined + {room})]
    ensures room in s.state.roomUsers
    ensures s.state.roomUsers[room] == PresenceOf(st, room) + [Presence(sid, st.conns[i].user.username)]
    ensures forall r :: r != room ==> (r in s.state.roomUsers <==> r in st.roomUsers)
    ensures forall r :: r != room && r in st.roomUsers ==> s.state.roomUsers[r] == st.roomUsers[r]
    ensures s.state.userSockets == st.userSockets && s.state.store == st.store
    ensures s.emits == [Emit(Room(room), OnlineUsers(s.state.roomUsers[room])),
                        Emit(Direct(sid), PreviousMessages(History(st.store, room, directory)))]
  {
    var c := st.conns[i];
    var c' := c.(room := Some(room), joined := c.joined + {room});
    var list := PresenceOf(st, room) + [Presence(sid, c.user.username)];
    var st' := st.(conns := st.conns[i := c'], roomUsers := st.roomUsers[room := list]);
    Step(st', [Emit(Room(room), OnlineUsers(list)),
               Emit(Direct(sid), PreviousMessages(History(st.store, room, directory)))])
  }

  /** Joining keeps the state valid. */
  lemma {:induction false} JoinValid(st: State, sid: SocketId, room: string, directory: ChatStore.Directory)
    requires Valid(st)
    ensures Valid(JoinRoom(st, sid, room, directory).state)
  {
    match FindFirst(st.conns, IsSocket(sid))
    case None =>
    case Some(i) =>
      var c := st.conns[i];
      ValidAfterRoomChange(st, JoinRoom(st, sid, room, directory).state, i,
                           c.(room := Some(room), joined := c.joined + {room}));
  }

  /** Changing one connection's rooms, with its id and account kept and its
      current room among those it subscribed to, keeps the state valid. */
  lemma {:induction false} ValidAfterRoomChange(st: State, s: State, i: nat, c: Connection)
    requires Valid(st)
    requires i < |st.conns| && c.id == st.conns[i].id && c.user == st.conns[i].user
    requires c.room.Some? ==> c.room.value in c.joined
    requires s.conns == st.conns[i := c] && s.userSockets == st.userSockets
    ensures Valid(s)
  {
    forall u | u in s.userSockets
      ensures exists k :: 0 <= k < |s.conns| && s.conns[k].id == s.userSockets[u]
                          && s.conns[k].user.username == u
    {
      var k :| 0 <= k < |st.conns| && st.conns[k].id == st.userSockets[u] && st.conns[k].user.username == u;
      assert s.conns[k].id == st.conns[k].id && s.conns[k].user == st.conns[k].user;
    }
  }

  /** Joining the same room twice lists the connection twice. */
  lemma {:induction false} RejoinDuplicatesPresence(st: State, sid: SocketId, room: string, directory: ChatStore.Directory)
    requires Connected(st, sid)
    ensures var s1 := JoinRoom(st, sid, room, directory).state;
            var s2 := JoinRoom(s1, sid, room, directory).state;
            |PresenceOf(s2, room)| == |PresenceOf(st, room)| + 2
            && PresenceOf(s2, room)[|PresenceOf(st, room)|].socketId == sid
            && PresenceOf(s2, room)[|PresenceOf(st, room)| + 1].socketId == sid
  {
    var s1 := JoinRoom(st, sid, room, directory).state;
    assert Connected(s1, sid) by {
      var i :| 0 <= i < |st.conns| && st.conns[i].id == sid && s1.conns == st.conns[i := st.conns[i].(room := Some(room), joined := st.conns[i].joined + {room})];
      assert s1.conns[i].id == sid;
    }
  }

  // -------------------------------------------------------------- send

  /** A `sendMessage` request as received; absent images arrive as []. */
  datatype SendRequest = SendRequest(room: Option<string>, text: Option<string>, images: seq<string>, to: Option<string>)

  /** The store's answer to a save: the id and timestamp it assigned, or a
      failure (which the handler only logs). */
  datatype SaveResult = Saved(id: ChatStore.MessageId, timestamp: int) | SaveFailed

  /** The text has something other than whitespace. */
  predicate HasText(text: Option<string>)
  {
    text.Some? && Trim(text.value) != ""
  }

  /** The guard of `sendMessage`: a room, and text or at least one image. */
  predicate Accepted(req: SendRequest)
  {
    Truthy(req.room) && (HasText(req.text) || |req.images| > 0)
  }

  /** `sendMessage`: persists first, then relays. A message with a recipient
      goes to the first live connection of that username (if any) and back
      to the sender; any other message goes to the whole room. A rejected
      request or a failed save changes nothing and emits nothing. */
  function SendMessage(st: State, sid: SocketId, req: SendRequest, save: SaveResult): (s: Step)
    ensures !Connected(st, sid) || !Accepted(req) || save.SaveFailed? ==> s == Step(st, [])
    ensures |s.emits| > 0 ==> save.Saved? && Accepted(req) && |s.state.store| == |st.store| + 1
    ensures Connected(st, sid) && Accepted(req) && save.Saved? ==>
              && |s.state.store| == |st.store| + 1
              && s.state == st.(store := s.state.store)
              && s.state.store[..|st.store|] == st.store
              && (var m := s.state.store[|st.store|];
                  && m.id == save.id && m.room == req.room.value && m.text == req.text
                  && m.images == req.images && m.to == req.to && m.timestamp == save.timestamp
                  && (exists i :: 0 <= i < |st.conns| && st.conns[i].id == sid && m.sender == st.conns[i].user.id))
              && 1 <= |s.emits| <= 2
              && (forall e :: e in s.emits ==> e.payload.Delivery? && e.payload.data.id == save.id)
    ensures Connected(st, sid) && Accepted(req) && save.Saved? && !Truthy(req.to) ==>
              |s.emits| == 1 && s.emits[0].target == Room(req.room.value)
    ensures Connected(st, sid) && Accepted(req) && save.Saved? && Truthy(req.to) ==>
              && 1 <= |s.emits|
              && s.emits[|s.emits| - 1].target == Direct(sid)
              && (forall e :: e in s.emits ==> e.target.Direct?)
              && (|s.emits| == 2 <==> exists i :: 0 <= i < |st.conns| && st.conns[i].user.username == req.to.value)
              && (|s.emits| == 2 ==>
                    exists i :: 0 <= i < |st.conns| && s.emits[0].target == Direct(st.conns[i].id)
                      && st.conns[i].user.username == req.to.value
                      && forall k :: 0 <= k < i ==> st.conns[k].user.username != req.to.value)
  {
    match FindFirst(st.conns, IsSocket(sid))
    case None => Step(st, [])
    case Some(i) =>
      if !Accepted(req) then Step(st, [])
      else match save
        case SaveFailed => Step(st, [])
        case Saved(id, ts) =>
          var u := st.conns[i].user;
          var m := ChatStore.Message(id, req.room.value, u.id, req.to, req.text, req.images, ts);
          var st' := st.(store := st.store + [m]);
          assert st'.store[..|st.store|] == st.store;
          var data := MessageData(id, u.username, req.text, req.images, ts, u.avatarUrl, req.to);
          if Truthy(req.to) then
            var echo := [Emit(Direct(sid), Delivery(data))];
            match FindFirst(st.conns, HasUsername(req.to.value))
            case None => Step(st', echo)
            case Some(t) => Step(st', [Emit(Direct(st.conns[t].id), Delivery(data))] + echo)
          else
            Step(st', [Emit(Room(req.room.value), Delivery(data))])
  }

  /** Relaying a message or a typing notice keeps the state valid. */
  lemma {:induction false} SendValid(st: State, sid: SocketId, req: SendRequest, save: SaveResult)
    requires Valid(st)
    ensures Valid(SendMessage(st, sid, req, save).state)
  {
  }

  /** A message without a recipient reaches every connection subscribed to
      the room, the sender included when it is in the room. */
  lemma {:induction false} BroadcastReachesRoom(st: State, sid: SocketId, req: SendRequest, save: SaveResult)
    requires Connected(st, sid) && Accepted(req) && save.Saved? && !Truthy(req.to)
    ensures var s := SendMessage(st, sid, req, save);
            Receivers(s.state, s.emits) == set c | c in st.conns && req.room.value in c.joined :: c.id
    ensures forall i :: 0 <= i < |st.conns| && st.conns[i].id == sid && req.room.value in st.conns[i].joined ==>
              sid in Receivers(SendMessage(st, sid, req, save).state, SendMessage(st, sid, req, save).emits)
  {
    var s := SendMessage(st, sid, req, save);
    assert s.emits[1..] == [];
    forall i | 0 <= i < |st.conns| && st.conns[i].id == sid && req.room.value in st.conns[i].joined
      ensures sid in Receivers(s.state, s.emits)
    {
      assert st.conns[i] in st.conns;
    }
  }

  /** A message with a recipient is never broadcast: it reaches at most the
      sender and the recipient's first live connection. */
  lemma {:induction false} DirectedReachesOnlyParties(st: State, sid: SocketId, req: SendRequest, save: SaveResult)
    requires Connected(st, sid) && Accepted(req) && save.Saved? && Truthy(req.to)
    ensures var s := SendMessage(st, sid, req, save);
            forall x :: x in Receivers(s.state, s.emits) ==>
              x == sid || exists i :: 0 <= i < |st.conns| && st.conns[i].id == x
                                      && st.conns[i].user.username == req.to.value
  {
    var s := SendMessage(st, sid, req, save);
    DirectPartiesOnly(st, s.state, sid, req.to.value, s.emits);
  }

  /** One or two direct emits, the last to `sid` and a first one to a
      connection of `name`, reach nobody else. */
  lemma {:induction false} DirectPartiesOnly(st: State, after: State, sid: SocketId, name: string, emits: seq<Emit>)
    requires 1 <= |emits| <= 2 && emits[|emits| - 1].target == Direct(sid)
    requires forall e :: e in emits ==> e.target.Direct?
    requires |emits| == 2 ==>
               exists i :: 0 <= i < |st.conns| && emits[0].target == Direct(st.conns[i].id)
                 && st.conns[i].user.username == name
                 && forall k :: 0 <= k < i ==> st.conns[k].user.username != name
    ensures forall x :: x in Receivers(after, emits) ==>
              x == sid || exists i :: 0 <= i < |st.conns| && st.conns[i].id == x
                                      && st.conns[i].user.username == name
  {
    forall x | x in Receivers(after, emits)
      ensures x == sid || exists i :: 0 <= i < |st.conns| && st.conns[i].id == x
                                       && st.conns[i].user.username == name
    {
      var k := ReceivedFrom(after, emits, x);
      if k == |emits| - 1 {
        assert x == sid;
      } else {
        var i :| 0 <= i < |st.conns| && emits[0].target == Direct(st.conns[i].id)
                  && st.conns[i].user.username == name
                  && forall j :: 0 <= j < i ==> st.conns[j].user.username != name;
        assert x == st.conns[i].id;
      }
    }
  }

  /** Whoever receives a batch of emits receives one of them. */
  lemma {:induction false} ReceivedFrom(st: State, emits: seq<Emit>, x: SocketId) returns (k: nat)
    requires x in Receivers(st, emits)
    ensures k < |emits| && x in Recipients(st, emits[k].target)
    decreases |emits|
  {
    if x in Recipients(st, emits[0].target) {
      k := 0;
    } else {
      var j := ReceivedFrom(st, emits[1..], x);
      k := j + 1;
    }
  }

  // ------------------------------------------------------------ typing

  /** `userTyping`: relayed to the rest of the room, the sender excluded;
      nothing is stored. */
  function UserTyping(st: State, sid: SocketId, room: string, isTyping: bool): (s: Step)
    ensures s.state == st
    ensures !Connected(st, sid) ==> s.emits == []
    ensures Connected(st, sid) ==>
              && |s.emits| == 1 && s.emits[0].payload.Typing?
              && s.emits[0].payload.isTyping == isTyping
              && sid !in Recipients(st, s.emits[0].target)
              && Recipients(st, s.emits[0].target) == (set c | c in st.conns && room in c.joined :: c.id) - {sid}
  {
    match FindFirst(st.conns, IsSocket(sid))
    case None => Step(st, [])
    case Some(i) =>
      var u := st.conns[i].user;
      Step(st, [Emit(RoomExcept(room, sid), Typing(u.username, isTyping, u.avatarUrl))])
  }

  // -------------------------------------------------------- disconnect

  /** `disconnect`: drops the connection and its username from the registry;
      when its current room is a non-empty name with a presence list, every
      entry of this socket leaves that list (and only that list) and the list
      is broadcast to the room. */
  function Disconnect(st: State, sid: SocketId): (s: Step)
    ensures !Connected(st, sid) ==> s == Step(st, [])
    ensures Connected(st, sid) ==>
              && s.state.store == st.store
              && exists i :: 0 <= i < |st.conns| && st.conns[i].id == sid
                  && (forall k :: 0 <= k < i ==> st.conns[k].id != sid)
                  && s.state.userSockets == st.userSockets - {st.conns[i].user.username}
                  && s.state.conns == RemoveAt(st.conns, i)
                  && (forall r :: r in st.roomUsers && st.conns[i].room != Some(r) ==>
                        r in s.state.roomUsers && s.state.roomUsers[r] == st.roomUsers[r])
                  && (Truthy(st.conns[i].room) && st.conns[i].room.value in st.roomUsers ==>
                        var r := st.conns[i].room.value;
                        && s.state.roomUsers.Keys == st.roomUsers.Keys
                        && s.state.roomUsers[r] == Filter(st.roomUsers[r], NotSocket(sid))
                        && (forall p :: p in s.state.roomUsers[r] ==> p.socketId != sid)
                        && s.emits == [Emit(Room(r), OnlineUsers(s.state.roomUsers[r]))])
                  && (!(Truthy(st.conns[i].room) && st.conns[i].room.value in st.roomUsers) ==>
                        s.state.roomUsers == st.roomUsers && s.emits == [])
  {
    match FindFirst(st.conns, IsSocket(sid))
    case None => Step(st, [])
    case Some(i) => DisconnectAt(st, sid, i)
  }

  /** The disconnect of connection `i`, found for `sid`. */
  function DisconnectAt(st: State, sid: SocketId, i: nat): (s: Step)
    requires i < |st.conns| && st.conns[i].id == sid
    ensures && s.state.store == st.store
            && s.state.userSockets == st.userSockets - {st.conns[i].user.username}
            && s.state.conns == RemoveAt(st.conns, i)
    ensures forall r :: r in st.roomUsers && st.conns[i].room != Some(r) ==>
              r in s.state.roomUsers && s.state.roomUsers[r] == st.roomUsers[r]
    ensures Truthy(st.conns[i].room) && st.conns[i].room.value in st.roomUsers ==>
              var r := st.conns[i].room.value;
              && s.state.roomUsers.Keys == st.roomUsers.Keys
              && s.state.roomUsers[r] == Filter(st.roomUsers[r], NotSocket(sid))
              && (forall p :: p in s.state.roomUsers[r] ==> p.socketId != sid)
              && s.emits == [Emit(Room(r), OnlineUsers(s.state.roomUsers[r]))]
    ensures !(Truthy(st.conns[i].room) && st.conns[i].room.value in st.roomUsers) ==>
              s.state.roomUsers == st.roomUsers && s.emits == []
  {
    var c := st.conns[i];
    var base := Dropped(st, i);
    if Truthy(c.room) && c.room.value in st.roomUsers then
      var r := c.room.value;
      var list := Filter(st.roomUsers[r], NotSocket(sid));
      assert forall p :: p in list ==> p.socketId != sid;
      assert st.roomUsers[r := list].Keys == st.roomUsers.Keys;
      Step(base.(roomUsers := st.roomUsers[r := list]), [Emit(Room(r), OnlineUsers(list))])
    else
      Step(base, [])
  }

  /** The state without connection `i` and without its username's
      registry entry. */
  function Dropped(st: State, i: nat): State
    requires i < |st.conns|
  {
    st.(conns := RemoveAt(st.conns, i), userSockets := st.userSockets - {st.conns[i].user.username})
  }

  /** With unique socket ids, a disconnected socket is gone. */
  lemma {:induction false} DisconnectRemovesSocket(st: State, sid: SocketId)
    requires DistinctIds(st)
    ensures !Connected(Disconnect(st, sid).state, sid)
  {
    match FindFirst(st.conns, IsSocket(sid))
    case None =>
    case Some(i) =>
      var s := Disconnect(st, sid).state;
      forall k | 0 <= k < |s.conns|
        ensures s.conns[k].id != sid
      {
        if k >= i {
          assert s.conns[k] == st.conns[k + 1];
        }
      }
  }

  function IsPresenceOf(sid: SocketId): Presence -> bool
  {
    (p: Presence) => p.socketId == sid
  }

  /** Disconnecting removes exactly this socket's entries from its room's
      list: the list shrinks by their number. */
  lemma {:induction false} DisconnectShrinksPresence(st: State, sid: SocketId, i: nat)
    requires i < |st.conns| && st.conns[i].id == sid
    requires FindFirst(st.conns, IsSocket(sid)) == Some(i)
    requires Truthy(st.conns[i].room) && st.conns[i].room.value in st.roomUsers
    ensures var r := st.conns[i].room.value;
            |Disconnect(st, sid).state.roomUsers[r]| ==
              |st.roomUsers[r]| - |Filter(st.roomUsers[r], IsPresenceOf(sid))|
  {
    FilterPartition(st.roomUsers[st.conns[i].room.value], NotSocket(sid), IsPresenceOf(sid));
  }

  /** Disconnecting keeps the state valid. */
  lemma {:induction false} DisconnectValid(st: State, sid: SocketId)
    requires Valid(st)
    ensures Valid(Disconnect(st, sid).state)
  {
    match FindFirst(st.conns, IsSocket(sid))
    case None =>
    case Some(i) =>
      var s := Disconnect(st, sid).state;
      DroppedValid(st, i);
      assert s.conns == Dropped(st, i).conns && s.userSockets == Dropped(st, i).userSockets;
  }

  /** Dropping a connection and its username keeps the state valid. */
  lemma {:induction false} DroppedValid(st: State, i: nat)
    requires Valid(st) && i < |st.conns|
    ensures Valid(Dropped(st, i))
  {
    DroppedDistinct(st, i);
    DroppedRegistry(st, i);
  }

  lemma {:induction false} DroppedDistinct(st: State, i: nat)
    requires DistinctIds(st) && i < |st.conns|
    ensures DistinctIds(Dropped(st, i))
  {
    var s := Dropped(st, i);
    forall x, y | 0 <= x < y < |s.conns|
      ensures s.conns[x].id != s.conns[y].id
    {
      var x', y' := if x < i then x else x + 1, if y < i then y else y + 1;
      assert s.conns[x] == st.conns[x'] && s.conns[y] == st.conns[y'];
    }
  }

  lemma {:induction false} DroppedRegistry(st: State, i: nat)
    requires i < |st.conns|
    requires forall u :: u in st.userSockets ==>
               exists k :: 0 <= k < |st.conns| && st.conns[k].id == st.userSockets[u]
                           && st.conns[k].user.username == u
    ensures var s := Dropped(st, i);
            forall u :: u in s.userSockets ==>
              exists k :: 0 <= k < |s.conns| && s.conns[k].id == s.userSockets[u]
                          && s.conns[k].user.username == u
  {
    var s := Dropped(st, i);
    forall u | u in s.userSockets
      ensures exists k :: 0 <= k < |s.conns| && s.conns[k].id == s.userSockets[u]
                          && s.conns[k].user.username == u
    {
      var k :| 0 <= k < |st.conns| && st.conns[k].id == st.userSockets[u] && st.conns[k].user.username == u;
      assert k != i;
      var k' := if k < i then k else k - 1;
      assert s.conns[k'] == st.conns[k];
    }
  }

  // ---------------------------------------------------------- findings

  /** Every presence entry of a named room belongs to a live connection whose
      current room it is. */
  predicate PresenceLive(st: State)
  {
    forall r, p :: r in st.roomUsers && r != "" && p in st.roomUsers[r] ==> LiveEntry(st, r, p)
  }

  /** Entry `p` of room `r` belongs to a live connection currently in `r`. */
  predicate LiveEntry(st: State, r: string, p: Presence)
  {
    exists k :: 0 <= k < |st.conns| && st.conns[k].id == p.socketId && st.conns[k].room == Some(r)
  }

  /** Switching rooms leaves the old entry behind, and disconnecting later
      cleans only the current room: starting from any valid state with one
      live connection, the old room keeps listing a socket that no longer
      exists. */
  lemma {:induction false} StalePresenceAfterRoomSwitch(st: State, sid: SocketId, a: string, b: string)
    requires Valid(st) && PresenceLive(st)
    requires |st.conns| == 1 && st.conns[0].id == sid && a != b && a != ""
    ensures var s1 := JoinRoom(st, sid, a, map[]).state;
            var s2 := JoinRoom(s1, sid, b, map[]).state;
            var s3 := Disconnect(s2, sid).state;
            var p := Presence(sid, st.conns[0].user.username);
            && !Connected(s3, sid)
            && a in s3.roomUsers && p in s3.roomUsers[a]
            && !PresenceLive(s3)
  {
    var p := Presence(sid, st.conns[0].user.username);
    var s2 := JoinRoom(JoinRoom(st, sid, a, map[]).state, sid, b, map[]).state;
    SwitchLeavesEntry(st, sid, a, b);
    var s3 := Disconnect(s2, sid).state;
    assert s3.conns == [] && a in s3.roomUsers && p in s3.roomUsers[a] by {
      DisconnectSoleConnection(s2, sid);
    }
    assert !LiveEntry(s3, a, p);
  }

  /** The only connection joins `a`, then `b`: it is in `b`, and `a` still
      lists it. */
  lemma {:induction false} SwitchLeavesEntry(st: State, sid: SocketId, a: string, b: string)
    requires |st.conns| == 1 && st.conns[0].id == sid && a != b
    ensures var s2 := JoinRoom(JoinRoom(st, sid, a, map[]).state, sid, b, map[]).state;
            && |s2.conns| == 1 && s2.conns[0].id == sid && s2.conns[0].room == Some(b)
            && a in s2.roomUsers && Presence(sid, st.conns[0].user.username) in s2.roomUsers[a]
  {
    var p := Presence(sid, st.conns[0].user.username);
    var s1 := JoinRoom(st, sid, a, map[]).state;
    JoinSoleConnection(st, sid, a);
    assert p in s1.roomUsers[a] by {
      var list := s1.roomUsers[a];
      assert list[|list| - 1] == p;
    }
    JoinSoleConnection(s1, sid, b);
  }

  /** Joining from the only live connection: it stays the only one, now in
      `room`, and other rooms' lists are kept. */
  lemma {:induction false} JoinSoleConnection(st: State, sid: SocketId, room: string)
    requires |st.conns| == 1 && st.conns[0].id == sid
    ensures var s := JoinRoom(st, sid, room, map[]).state;
            && |s.conns| == 1 && s.conns[0].id == sid && s.conns[0].room == Some(room)
            && s.conns[0].user == st.conns[0].user
            && room in s.roomUsers
            && s.roomUsers[room] == PresenceOf(st, room) + [Presence(sid, st.conns[0].user.username)]
            && forall r :: r != room && r in st.roomUsers ==> r in s.roomUsers && s.roomUsers[r] == st.roomUsers[r]
  {
    assert Connected(st, sid);
  }

  /** Disconnecting the only live connection leaves none, and keeps the
      lists of rooms other than its current one. */
  lemma {:induction false} DisconnectSoleConnection(st: State, sid: SocketId)
    requires |st.conns| == 1 && st.conns[0].id == sid
    ensures var s := Disconnect(st, sid).state;
            && s.conns == []
            && forall r :: r in st.roomUsers && st.conns[0].room != Some(r) ==>
                 r in s.roomUsers && s.roomUsers[r] == st.roomUsers[r]
  {
    assert Connected(st, sid);
  }

  /** A message is visible to a viewer when it has no recipient, or the
      viewer sent it or is its recipient: exactly who live delivery reaches. */
  predicate VisibleTo(m: ChatStore.Message, viewer: Account)
  {
    !Truthy(m.to) || m.to.value == viewer.username || m.sender == viewer.id
  }

  function VisibleFor(viewer: Account): ChatStore.Message -> bool
  {
    (m: ChatStore.Message) => VisibleTo(m, viewer)
  }

  /** A directed message between two other users is replayed to whoever
      joins the room next, although live delivery never reached them. */
  lemma {:induction false} HistoryRevealsDirectedMessages()
    ensures var m := ChatStore.Message("m1", "A", "u1", Some("bob"), Some("hi"), [], 1);
            var carol := ChatStore.Account("u3", "carol", "");
            var st := State([Connection("s3", carol, None, {})], map[], map[], [m]);
            var s := JoinRoom(st, "s3", "A", map[]);
            && !VisibleTo(m, carol)
            && |s.emits| == 2
            && s.emits[1] == Emit(Direct("s3"), PreviousMessages([HistoryOf(m, map[])]))
            && HistoryOf(m, map[]).to == Some("bob")
  {
    var m := ChatStore.Message("m1", "A", "u1", Some("bob"), Some("hi"), [], 1);
    var carol := ChatStore.Account("u3", "carol", "");
    var st := State([Connection("s3", carol, None, {})], map[], map[], [m]);
    assert [m][1..] == [];
    assert Filter([m], ChatStore.InRoom("A")) == [m];
    assert Sorting.SortBy([m], ChatStore.Timestamp, true) == [m];
    assert Sorting.Reverse([m][..1]) == [m];
    assert RecentMessages([m], "A") == [m];
    assert History([m], "A", map[]) == [HistoryOf(m, map[])];
    assert FindFirst(st.conns, IsSocket("s3")) == Some(0);
  }

  /** The join-time history with only the messages visible to the viewer. */
  function VisibleHistory(store: ChatStore.Store, room: string, viewer: Account,
                          directory: ChatStore.Directory): (h: seq<HistoryEntry>)
    ensures |h| <= HistoryWindow
    ensures forall i, j :: 0 <= i < j < |h| ==> h[i].timestamp <= h[j].timestamp
    ensures forall k :: 0 <= k < |h| ==> ShownVisibly(h[k], store, room, viewer, directory)
  {
    var visible := Filter(store, VisibleFor(viewer));
    var h := History(visible, room, directory);
    ShownFromVisible(store, room, viewer, directory, h);
    h
  }

  /** History entry `e` shows a stored message of `room` that `viewer` may
      see. */
  predicate ShownVisibly(e: HistoryEntry, store: ChatStore.Store, room: string, viewer: Account,
                         directory: ChatStore.Directory)
  {
    exists j :: 0 <= j < |store| && store[j].room == room && VisibleTo(store[j], viewer)
                && e == HistoryOf(store[j], directory)
  }

  /** An entry shown from the visible messages shows a visible stored one. */
  lemma {:induction false} ShownFromVisible(store: ChatStore.Store, room: string, viewer: Account,
                                            directory: ChatStore.Directory, h: seq<HistoryEntry>)
    requires forall k :: 0 <= k < |h| ==> ShownFrom(h[k], Filter(store, VisibleFor(viewer)), room, directory)
    ensures forall k :: 0 <= k < |h| ==> ShownVisibly(h[k], store, room, viewer, directory)
  {
    var visible := Filter(store, VisibleFor(viewer));
    forall k | 0 <= k < |h|
      ensures ShownVisibly(h[k], store, room, viewer, directory)
    {
      assert ShownFrom(h[k], visible, room, directory);
      var j :| 0 <= j < |visible| && visible[j].room == room && h[k] == HistoryOf(visible[j], directory);
      assert visible[j] in visible;
      var n :| 0 <= n < |store| && store[n] == visible[j];
    }
  }

  /** A room whose messages are all public shows the same history to
      everyone. */
  lemma {:induction false} PublicRoomHistoryUnchanged(store: ChatStore.Store, room: string, viewer: Account,
                                   directory: ChatStore.Directory)
    requires forall k :: 0 <= k < |store| ==> !Truthy(store[k].to)
    ensures VisibleHistory(store, room, viewer, directory) == History(store, room, directory)
  {
    FilterKeepsAll(store, VisibleFor(viewer));
  }

  /** The presence lists after connection `i` switches to `room`: its entries
      leave its previous room's list and the new room's list, then one entry
      is appended to the new room's list. */
  function Switched(st: State, i: nat, room: string): State
    requires i < |st.conns|
  {
    var c := st.conns[i];
    var left := if c.room.Some? && c.room.value in st.roomUsers
                then st.roomUsers[c.room.value := Filter(st.roomUsers[c.room.value], NotSocket(c.id))]
                else st.roomUsers;
    var before := if room in left then left[room] else [];
    st.(conns := st.conns[i := c.(room := Some(room), joined := c.joined + {room})],
        roomUsers := left[room := Filter(before, NotSocket(c.id)) + [Presence(c.id, c.user.username)]])
  }

  /** Switching keeps the state valid and every presence entry live. */
  lemma {:induction false} SwitchedKeepsInvariants(st: State, i: nat, room: string)
    requires i < |st.conns|
    ensures Valid(st) && PresenceLive(st) ==> Valid(Switched(st, i, room)) && PresenceLive(Switched(st, i, room))
  {
    if Valid(st) && PresenceLive(st) {
      SwitchedKeepsBoth(st, i, room);
    }
  }

  lemma {:induction false} SwitchedKeepsBoth(st: State, i: nat, room: string)
    requires i < |st.conns| && Valid(st) && PresenceLive(st)
    ensures Valid(Switched(st, i, room)) && PresenceLive(Switched(st, i, room))
  {
    var s := Switched(st, i, room);
    var c := st.conns[i];
    assert forall k :: 0 <= k < |st.conns| ==> (s.conns[k].id == st.conns[k].id && s.conns[k].user == st.conns[k].user);
    assert forall k :: 0 <= k < |st.conns| && k != i ==> s.conns[k] == st.conns[k];
    forall u | u in s.userSockets
      ensures exists k :: 0 <= k < |s.conns| && s.conns[k].id == s.userSockets[u]
                          && s.conns[k].user.username == u
    {
      var k :| 0 <= k < |st.conns| && st.conns[k].id == st.userSockets[u] && st.conns[k].user.username == u;
      assert s.conns[k].id == st.conns[k].id;
    }
    forall r, p | r in s.roomUsers && r != "" && p in s.roomUsers[r]
      ensures LiveEntry(s, r, p)
    {
      if p.socketId == c.id {
        assert r == room;
        assert s.conns[i].id == p.socketId && s.conns[i].room == Some(r);
      } else {
        assert r in st.roomUsers && p in st.roomUsers[r];
        var k :| 0 <= k < |st.conns| && st.conns[k].id == p.socketId && st.conns[k].room == Some(r);
        assert k != i;
        assert s.conns[k] == st.conns[k];
      }
    }
  }

  /** `joinRoom` as evidently intended: a connection is listed once, in its
      current room only, and the history it receives holds only messages it
      may see. */
  function JoinRoomCorrected(st: State, sid: SocketId, room: string, directory: ChatStore.Directory): (s: Step)
    ensures !Connected(st, sid) ==> s == Step(st, [])
    ensures Valid(st) && PresenceLive(st) ==> Valid(s.state) && PresenceLive(s.state)
    ensures Connected(st, sid) ==>
              && room in s.state.roomUsers
              && |s.state.conns| == |st.conns|
              && |Filter(s.state.roomUsers[room], IsPresenceOf(sid))| == 1
              && (forall r :: r in s.state.roomUsers && r != room ==>
                    forall p :: p in s.state.roomUsers[r] ==> p.socketId != sid || r !in st.roomUsers || p in st.roomUsers[r])
              && exists i :: 0 <= i < |st.conns| && st.conns[i].id == sid
                   && s.state.conns[i].room == Some(room)
                   && s.emits == [Emit(Room(room), OnlineUsers(s.state.roomUsers[room])),
                                  Emit(Direct(sid), PreviousMessages(VisibleHistory(st.store, room, st.conns[i].user, directory)))]
  {
    match FindFirst(st.conns, IsSocket(sid))
    case None => Step(st, [])
    case Some(i) =>
      var st' := Switched(st, i, room);
      SwitchedKeepsInvariants(st, i, room);
      ListedOnce(st, i, room);
      Step(st', [Emit(Room(room), OnlineUsers(st'.roomUsers[room])),
                 Emit(Direct(sid), PreviousMessages(VisibleHistory(st.store, room, st.conns[i].user, directory)))])
  }

  /** After a switch the connection is listed exactly once in its new room. */
  lemma {:induction false} ListedOnce(st: State, i: nat, room: string)
    requires i < |st.conns|
    ensures var s := Switched(st, i, room);
            room in s.roomUsers && |Filter(s.roomUsers[room], IsPresenceOf(st.conns[i].id))| == 1
  {
    var s := Switched(st, i, room);
    var sid := st.conns[i].id;
    var kept := s.roomUsers[room][..|s.roomUsers[room]| - 1];
    assert s.roomUsers[room] == kept + [Presence(sid, st.conns[i].user.username)];
    FilterConcat(kept, [Presence(sid, st.conns[i].user.username)], IsPresenceOf(sid));
    FilterNone(kept, IsPresenceOf(sid));
  }

  /** The other handlers keep presence entries live too, so with the
      corrected join every reachable state lists only live connections in
      their current rooms. */
  lemma {:induction false} OtherHandlersKeepPresenceLive(st: State, sid: SocketId, identity: Option<Account>,
                                      req: SendRequest, save: SaveResult, room: string, isTyping: bool)
    requires Valid(st) && PresenceLive(st)
    ensures !Connected(st, sid) ==> PresenceLive(Connect(st, sid, identity).state)
    ensures PresenceLive(SendMessage(st, sid, req, save).state)
    ensures PresenceLive(UserTyping(st, sid, room, isTyping).state)
    ensures PresenceLive(Disconnect(st, sid).state)
  {
    if !Connected(st, sid) && identity.Some? {
      var s := Connect(st, sid, identity).state;
      assert forall k :: 0 <= k < |st.conns| ==> s.conns[k] == st.conns[k];
    }
    DisconnectKeepsPresenceLive(st, sid);
  }

  lemma {:induction false} DisconnectKeepsPresenceLive(st: State, sid: SocketId)
    requires Valid(st) && PresenceLive(st)
    ensures PresenceLive(Disconnect(st, sid).state)
  {
    match FindFirst(st.conns, IsSocket(sid))
    case None =>
    case Some(i) =>
      var s := Disconnect(st, sid).state;
      var c := st.conns[i];
      var hit := Truthy(c.room) && c.room.value in st.roomUsers;
      assert s.conns == RemoveAt(st.conns, i);
      assert hit ==> s.roomUsers == st.roomUsers[c.room.value := Filter(st.roomUsers[c.room.value], NotSocket(sid))];
      assert !hit ==> s.roomUsers == st.roomUsers;
      forall r, p | r in s.roomUsers && r != "" && p in s.roomUsers[r]
        ensures r in st.roomUsers && p in st.roomUsers[r] && p.socketId != sid
      {
        if !(hit && r == c.room.value) {
          assert p in st.roomUsers[r];
          var k :| 0 <= k < |st.conns| && st.conns[k].id == p.socketId && st.conns[k].room == Some(r);
          assert k != i;
        }
      }
      RemovalKeepsLive(st, i, s);
  }

  /** Removing connection `i` keeps presence live when none of the remaining
      entries is its own. */
  lemma {:induction false} RemovalKeepsLive(st: State, i: nat, s: State)
    requires i < |st.conns| && PresenceLive(st)
    requires s.conns == RemoveAt(st.conns, i)
    requires forall r, p :: r in s.roomUsers && r != "" && p in s.roomUsers[r] ==>
               r in st.roomUsers && p in st.roomUsers[r] && p.socketId != st.conns[i].id
    ensures PresenceLive(s)
  {
    forall r, p | r in s.roomUsers && r != "" && p in s.roomUsers[r]
      ensures LiveEntry(s, r, p)
    {
      var k :| 0 <= k < |st.conns| && st.conns[k].id == p.socketId && st.conns[k].room == Some(r);
      assert k != i;
      var k' := if k < i then k else k - 1;
      assert s.conns[k'] == st.conns[k];
    }
  }
}

/** The chat page: how it keeps its message list and typing indicator in
    step with the events the coordinator sends, and what it sends back. */
module ChatClient {

  import opened Wrappers
  import opened Seqs
  import opened Text
  import ChatStore
  import ChatSocket

  /** A message as the page holds it. */
  datatype ClientMessage = ClientMessage(
    id: Option<ChatStore.MessageId>,
    username: Option<string>,
    text: Option<string>,
    images: seq<string>,
    to: Option<string>)

  /** A replayed history entry carries no id. */
  function FromHistory(e: ChatSocket.HistoryEntry): ClientMessage
  {
    ClientMessage(None, e.username, e.text, e.images, e.to)
  }

  function FromDelivery(d: ChatSocket.MessageData): ClientMessage
  {
    ClientMessage(Some(d.id), Some(d.username), d.text, d.images, d.to)
  }

  /** `previousMessages` replaces the list with the history, in order. */
  function LoadHistory(h: seq<ChatSocket.HistoryEntry>): (r: seq<ClientMessage>)
    ensures |r| == |h|
    ensures forall k :: 0 <= k < |r| ==> r[k] == FromHistory(h[k]) && r[k].id.None?
  {
    seq(|h|, k requires 0 <= k < |h| => FromHistory(h[k]))
  }

  // ---------------------------------------------------- incoming messages

  /** The page keeps an incoming message when it has no recipient, is
      addressed to the signed-in user, or was sent by them. */
  predicate Shows(d: ChatSocket.MessageData, me: string)
  {
    !Truthy(d.to) || d.to.value == me || d.username == me
  }

  function OnMessage(msgs: seq<ClientMessage>, d: ChatSocket.MessageData, me: string): (r: seq<ClientMessage>)
    ensures Shows(d, me) ==> r == msgs + [FromDelivery(d)]
    ensures !Shows(d, me) ==> r == msgs
  {
    if Shows(d, me) then msgs + [FromDelivery(d)] else msgs
  }

  /** The page's filter never drops what the coordinator delivers: every
      delivery of a sent message, on every connection it reaches, passes it. */
  lemma {:induction false} DeliveriesAreShown(st: ChatSocket.State, sid: ChatSocket.SocketId, req: ChatSocket.SendRequest,
                           save: ChatSocket.SaveResult, c: nat)
    requires ChatSocket.DistinctIds(st) && c < |st.conns|
    ensures var s := ChatSocket.SendMessage(st, sid, req, save);
            forall e :: e in s.emits && st.conns[c].id in ChatSocket.Recipients(s.state, e.target) ==>
              e.payload.Delivery? && Shows(e.payload.data, st.conns[c].user.username)
  {
    var s := ChatSocket.SendMessage(st, sid, req, save);
    var me := st.conns[c];
    if |s.emits| > 0 {
      var i := FindFirst(st.conns, ChatSocket.IsSocket(sid)).value;
      var sender := st.conns[i].user;
      SentPayloads(st, sid, req, save, i);
      assert s.state.conns == st.conns;
      forall e | e in s.emits && me.id in ChatSocket.Recipients(s.state, e.target)
        ensures e.payload.Delivery? && Shows(e.payload.data, me.user.username)
      {
        if Truthy(req.to) {
          SentTargets(st, sid, req, save, i);
        }
        ReachedShows(st, s.state, c, i, req.to, e.payload.data, e.target);
      }
    }
  }

  /** A delivery from connection `i` that reaches connection `c` passes the
      filter of `c`: an addressed one only reaches the sender and the
      first connection of the recipient. */
  lemma {:induction false} ReachedShows(st: ChatSocket.State, after: ChatSocket.State, c: nat, i: nat,
                                        to: Option<string>, data: ChatSocket.MessageData, target: ChatSocket.Target)
    requires ChatSocket.DistinctIds(st) && c < |st.conns| && i < |st.conns| && after.conns == st.conns
    requires data.to == to && data.username == st.conns[i].user.username
    requires Truthy(to) ==>
               target == ChatSocket.Direct(st.conns[i].id)
               || exists t :: 0 <= t < |st.conns| && st.conns[t].user.username == to.value
                                && target == ChatSocket.Direct(st.conns[t].id)
    requires st.conns[c].id in ChatSocket.Recipients(after, target)
    ensures Shows(data, st.conns[c].user.username)
  {
    if Truthy(to) {
      if target == ChatSocket.Direct(st.conns[i].id) {
        assert c == i;
      } else {
        var t :| 0 <= t < |st.conns| && st.conns[t].user.username == to.value
                 && target == ChatSocket.Direct(st.conns[t].id);
        assert c == t;
      }
    }
  }

  /** Every emit of a relayed message carries the same delivery, built from
      the request and the sender's account. */
  lemma {:induction false} SentPayloads(st: ChatSocket.State, sid: ChatSocket.SocketId, req: ChatSocket.SendRequest,
                                        save: ChatSocket.SaveResult, i: nat)
    requires FindFirst(st.conns, ChatSocket.IsSocket(sid)) == Some(i)
    ensures var u := st.conns[i].user;
            forall e :: e in ChatSocket.SendMessage(st, sid, req, save).emits ==>
              e.payload == ChatSocket.Delivery(ChatSocket.MessageData(
                save.id, u.username, req.text, req.images, save.timestamp, u.avatarUrl, req.to))
  {
  }

  /** A message with a recipient is emitted back to the sender and to the
      first connection of the recipient's username. */
  lemma {:induction false} SentTargets(st: ChatSocket.State, sid: ChatSocket.SocketId, req: ChatSocket.SendRequest,
                                       save: ChatSocket.SaveResult, i: nat)
    requires FindFirst(st.conns, ChatSocket.IsSocket(sid)) == Some(i) && Truthy(req.to)
    ensures forall e :: e in ChatSocket.SendMessage(st, sid, req, save).emits ==>
              e.target == ChatSocket.Direct(st.conns[i].id)
              || exists t :: 0 <= t < |st.conns| && st.conns[t].user.username == req.to.value
                               && e.target == ChatSocket.Direct(st.conns[t].id)
  {
    match FindFirst(st.conns, ChatSocket.HasUsername(req.to.value))
    case None =>
    case Some(t) =>
      assert st.conns[t].user.username == req.to.value;
  }

  // --------------------------------------------------------------- typing

  datatype Typist = Typist(username: string, avatarUrl: string)

  predicate Listed(typing: seq<Typist>, name: string)
  {
    exists k :: 0 <= k < |typing| && typing[k].username == name
  }

  predicate NoDuplicates(typing: seq<Typist>)
  {
    forall i, j :: 0 <= i < j < |typing| ==> typing[i].username != typing[j].username
  }

  function NotNamed(name: string): Typist -> bool
  {
    (t: Typist) => t.username != name
  }

  /** Dropping entries keeps names distinct. */
  lemma {:induction false} FilterKeepsNoDuplicates(typing: seq<Typist>, p: Typist -> bool)
    requires NoDuplicates(typing)
    ensures NoDuplicates(Filter(typing, p))
    decreases |typing|
  {
    if |typing| > 0 {
      var rest := Filter(typing[1..], p);
      FilterKeepsNoDuplicates(typing[1..], p);
      if p(typing[0]) {
        forall j | 0 <= j < |rest|
          ensures rest[j].username != typing[0].username
        {
          assert rest[j] in typing[1..];
        }
        assert Filter(typing, p) == [typing[0]] + rest;
      }
    }
  }

  /** The `userTyping` reducer: notices about oneself are ignored; a start
      adds the typist once; a stop removes every entry of that name. */
  function OnTyping(typing: seq<Typist>, me: string, who: string, isTyping: bool, avatarUrl: string): (r: seq<Typist>)
    ensures who == me ==> r == typing
    ensures who != me && isTyping && !Listed(typing, who) ==> r == typing + [Typist(who, avatarUrl)]
    ensures isTyping && Listed(typing, who) ==> r == typing
    ensures who != me && !isTyping ==>
              && !Listed(r, who)
              && IsSubseq(r, typing)
              && forall k :: 0 <= k < |typing| && typing[k].username != who ==> typing[k] in r
    ensures NoDuplicates(typing) ==> NoDuplicates(r)
    ensures !Listed(typing, me) ==> !Listed(r, me)
  {
    if who == me then typing
    else if isTyping && !Listed(typing, who) then typing + [Typist(who, avatarUrl)]
    else if !isTyping then
      var r := Filter(typing, NotNamed(who));
      FilterIsSubseq(typing, NotNamed(who));
      if NoDuplicates(typing) then FilterKeepsNoDuplicates(typing, NotNamed(who)); r else r
    else typing
  }

  /** A repeated notice changes nothing more. */
  lemma {:induction false} OnTypingIdempotent(typing: seq<Typist>, me: string, who: string, isTyping: bool, avatarUrl: string)
    ensures var once := OnTyping(typing, me, who, isTyping, avatarUrl);
            OnTyping(once, me, who, isTyping, avatarUrl) == once
  {
    if who != me && !isTyping {
      FilterIdempotent(typing, NotNamed(who));
    } else if who != me && isTyping && !Listed(typing, who) {
      var once := OnTyping(typing, me, who, isTyping, avatarUrl);
      assert once[|typing|].username == who;
    }
  }

  /** A start followed by a stop restores the indicator exactly. */
  lemma {:induction false} StartThenStop(typing: seq<Typist>, me: string, who: string, avatarUrl: string, later: string)
    requires who != me && !Listed(typing, who)
    ensures OnTyping(OnTyping(typing, me, who, true, avatarUrl), me, who, false, later) == typing
  {
    var t := Typist(who, avatarUrl);
    FilterConcat(typing, [t], NotNamed(who));
    FilterKeepsAll(typing, NotNamed(who));
    assert Filter([t], NotNamed(who)) == [];
  }

  // -------------------------------------------------------- edit, delete

  function HasId(id: ChatStore.MessageId): ClientMessage -> bool
  {
    (m: ClientMessage) => m.id == Some(id)
  }

  function LacksId(id: ChatStore.MessageId): ClientMessage -> bool
  {
    (m: ClientMessage) => m.id != Some(id)
  }

  /** After a successful edit: every message with that id becomes the
      edited one; the rest stay where they are. */
  function ReplaceById(msgs: seq<ClientMessage>, id: ChatStore.MessageId, updated: ClientMessage): (r: seq<ClientMessage>)
    ensures |r| == |msgs|
    ensures forall k :: 0 <= k < |r| ==> r[k] == if msgs[k].id == Some(id) then updated else msgs[k]
  {
    seq(|msgs|, k requires 0 <= k < |msgs| => if msgs[k].id == Some(id) then updated else msgs[k])
  }

  /** After a successful delete: the messages with that id are gone, and
      the others stay in order. */
  function RemoveById(msgs: seq<ClientMessage>, id: ChatStore.MessageId): (r: seq<ClientMessage>)
    ensures forall k :: 0 <= k < |r| ==> r[k].id != Some(id)
    ensures IsSubseq(r, msgs)
    ensures forall k :: 0 <= k < |msgs| && msgs[k].id != Some(id) ==> msgs[k] in r
    ensures |r| + |Filter(msgs, HasId(id))| == |msgs|
  {
    FilterIsSubseq(msgs, LacksId(id));
    FilterPartition(msgs, LacksId(id), HasId(id));
    Filter(msgs, LacksId(id))
  }

  /** Deleting an edited message removes it as if it had never been edited;
      an edit never changes which messages a delete removes. */
  lemma {:induction false} EditThenDelete(msgs: seq<ClientMessage>, id: ChatStore.MessageId, updated: ClientMessage)
    requires updated.id == Some(id)
    ensures RemoveById(ReplaceById(msgs, id, updated), id) == RemoveById(msgs, id)
    decreases |msgs|
  {
    if |msgs| > 0 {
      var r := ReplaceById(msgs, id, updated);
      assert r[1..] == ReplaceById(msgs[1..], id, updated);
      EditThenDelete(msgs[1..], id, updated);
    }
  }

  /** Replayed messages carry no id, so no edit or delete can reach them:
      the list stays as it was. */
  lemma {:induction false} ReloadedMessagesUnreachable(h: seq<ChatSocket.HistoryEntry>, id: ChatStore.MessageId, updated: ClientMessage)
    ensures ReplaceById(LoadHistory(h), id, updated) == LoadHistory(h)
    ensures RemoveById(LoadHistory(h), id) == LoadHistory(h)
  {
    FilterKeepsAll(LoadHistory(h), LacksId(id));
  }

  /** History that keeps the id of each replayed message. */
  function LoadHistoryWithIds(window: seq<ChatStore.Message>, directory: ChatStore.Directory): (r: seq<ClientMessage>)
    ensures |r| == |window|
    ensures forall k :: 0 <= k < |r| ==>
              r[k] == FromHistory(ChatSocket.HistoryOf(window[k], directory)).(id := Some(window[k].id))
  {
    seq(|window|, k requires 0 <= k < |window| =>
      FromHistory(ChatSocket.HistoryOf(window[k], directory)).(id := Some(window[k].id)))
  }

  /** With ids kept, deleting a replayed message removes it from the page. */
  lemma {:induction false} ReloadedMessageDeletable(store: ChatStore.Store, room: string,
                                 directory: ChatStore.Directory, k: nat)
    requires k < |ChatSocket.RecentMessages(store, room)|
    ensures var window := ChatSocket.RecentMessages(store, room);
            var shown := LoadHistoryWithIds(window, directory);
            var after := RemoveById(shown, window[k].id);
            |after| < |shown| && forall j :: 0 <= j < |after| ==> after[j].id != Some(window[k].id)
  {
    var window := ChatSocket.RecentMessages(store, room);
    var shown := LoadHistoryWithIds(window, directory);
    assert shown[k] in Filter(shown, HasId(window[k].id));
  }

  // ----------------------------------------------------------------- send

  datatype SendAction =
    | Skip
    | SaveEdit(id: ChatStore.MessageId)
    | EmitSend(req: ChatSocket.SendRequest)

  /** The send button: nothing without text or images; the pending edit when
      one is open; otherwise a `sendMessage` to the room, private when a
      recipient is picked. */
  function OnSend(room: string, text: string, images: seq<string>, editing: Option<ChatStore.MessageId>,
                  recipient: string): (a: SendAction)
    ensures a.Skip? <==> Trim(text) == "" && |images| == 0
    ensures a.SaveEdit? <==> !a.Skip? && Truthy(editing)
    ensures a.EmitSend? ==>
              a.req == ChatSocket.SendRequest(Some(room), Some(text), images, if recipient == "" then None else Some(recipient))
  {
    if Trim(text) == "" && |images| == 0 then Skip
    else if Truthy(editing) then SaveEdit(editing.value)
    else EmitSend(ChatSocket.SendRequest(Some(room), Some(text), images, if recipient == "" then None else Some(recipient)))
  }

  /** The page and the coordinator apply the same guard: in a named room,
      whatever the page sends is accepted, and it is private exactly when a
      recipient was picked. */
  lemma {:induction false} SendGuardsAgree(room: string, text: string, images: seq<string>, recipient: string)
    requires room != ""
    ensures var a := OnSend(room, text, images, None, recipient);
            var req := ChatSocket.SendRequest(Some(room), Some(text), images, if recipient == "" then None else Some(recipient));
            && (a.Skip? <==> !ChatSocket.Accepted(req))
            && (a.EmitSend? ==> a.req == req && (Truthy(a.req.to) <==> recipient != ""))
  {
  }

  /** The edit form `updateMessage` sends: the typed text, and when files are
      chosen, those files (under the names the upload stores them as) with
      `clearImages` set to "true". */
  function EditFormFor(text: string, files: seq<string>): (f: ChatStore.EditForm)
    ensures f.text == Some(text) && f.uploads == files
    ensures f.clearImages == Some("true") <==> |files| > 0
  {
    ChatStore.EditForm(Some(text), if |files| > 0 then Some("true") else None, files)
  }

  /** An edit from the page either keeps the images, or replaces all of them
      by the chosen files; an empty text keeps the old text. */
  lemma {:induction false} PageEditReplacesImages(m: ChatStore.Message, text: string, files: seq<string>)
    ensures var m' := ChatStore.Edited(m, EditFormFor(text, files));
            && (|files| == 0 ==> m'.images == m.images)
            && (|files| > 0 ==> m'.images == ChatStore.UploadPaths(files))
            && (text != "" ==> m'.text == Some(text))
            && (text == "" ==> m'.text == m.text)
  {
    var m' := ChatStore.Edited(m, EditFormFor(text, files));
    assert ChatStore.KeptImages(m, EditFormFor(text, files)) == (if |files| > 0 then [] else m.images);
    assert |files| > 0 ==> m'.images == [] + ChatStore.UploadPaths(files);
  }

  /** The people a private message can go to: everyone but oneself, in list
      order. */
  function RecipientChoices(users: seq<ChatSocket.Account>, me: string): (r: seq<ChatSocket.Account>)
    ensures forall k :: 0 <= k < |r| ==> r[k].username != me
    ensures forall k :: 0 <= k < |users| && users[k].username != me ==> users[k] in r
    ensures IsSubseq(r, users)
  {
    FilterIsSubseq(users, (a: ChatSocket.Account) => a.username != me);
    Filter(users, (a: ChatSocket.Account) => a.username != me)
  }
}

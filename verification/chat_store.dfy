/** The persisted chat messages and the request/response handlers over them:
    room and per-user listings, edit and delete by the original sender. */
module ChatStore {

  import opened Wrappers
  import opened Text
  import opened Seqs
  import Sorting

  type MessageId = string
  type UserId = string

  /** A stored message. Only the schema's fields are persisted: room, sender
      id, optional direct recipient, optional text, image paths, timestamp. */
  datatype Message = Message(
    id: MessageId,
    room: string,
    sender: UserId,
    to: Option<string>,
    text: Option<string>,
    images: seq<string>,
    timestamp: int)

  /** The message collection, in save order. */
  type Store = seq<Message>

  function Timestamp(m: Message): int
  {
    m.timestamp
  }

  function HasId(id: MessageId): Message -> bool
  {
    (m: Message) => m.id == id
  }

  function InRoom(room: string): Message -> bool
  {
    (m: Message) => m.room == room
  }

  function SentBy(user: UserId): Message -> bool
  {
    (m: Message) => m.sender == user
  }

  /** No two stored messages share an id (the store assigns fresh ids). */
  predicate UniqueIds(store: Store)
  {
    forall i, j :: 0 <= i < j < |store| ==> store[i].id != store[j].id
  }

  /** A user account as the chat services see it. */
  datatype Account = Account(id: UserId, username: string, avatarUrl: string)

  /** The stored accounts by id. */
  type Directory = map<UserId, Account>

  /** Ids of all stored messages. */
  function Ids(store: Store): set<MessageId>
  {
    set m | m in store :: m.id
  }

  // ------------------------------------------------------------- listings

  /** A sender as `populate("sender", "username")` shows it: the account's
      id and username. */
  datatype SenderRef = SenderRef(id: UserId, username: string)

  /** The populated sender: none (null) when the account no longer exists. */
  function SenderOf(sender: UserId, directory: Directory): Option<SenderRef>
  {
    if sender in directory then Some(SenderRef(sender, directory[sender].username)) else None
  }

  /** A message as the listing endpoints show it: the sender populated and
      every image path reduced to its last `/`-separated segment. */
  datatype Entry = Entry(
    id: MessageId,
    room: string,
    sender: Option<SenderRef>,
    to: Option<string>,
    text: Option<string>,
    images: seq<string>,
    timestamp: int)

  /** The basename of every path, in order. */
  function Basenames(paths: seq<string>): (r: seq<string>)
    ensures |r| == |paths|
    ensures forall k :: 0 <= k < |r| ==> r[k] == Basename(paths[k]) && '/' !in r[k]
  {
    seq(|paths|, k requires 0 <= k < |paths| => Basename(paths[k]))
  }

  function Listed(m: Message, directory: Directory): Entry
  {
    Entry(m.id, m.room, SenderOf(m.sender, directory), m.to, m.text, Basenames(m.images), m.timestamp)
  }

  function Entries(ms: seq<Message>, directory: Directory): (r: seq<Entry>)
    ensures |r| == |ms|
    ensures forall k :: 0 <= k < |r| ==> r[k] == Listed(ms[k], directory)
  {
    seq(|ms|, k requires 0 <= k < |ms| => Listed(ms[k], directory))
  }

  /** Entry `e` shows some stored message that `select` picks. */
  predicate ListedFrom(e: Entry, store: Store, directory: Directory, select: Message -> bool)
  {
    exists i :: 0 <= i < |store| && select(store[i]) && e == Listed(store[i], directory)
  }

  /** The messages `select` picks, sorted by timestamp in the given direction
      and shown as entries. */
  function Listing(store: Store, directory: Directory, select: Message -> bool, descending: bool): (r: seq<Entry>)
    ensures |r| == |Filter(store, select)|
    ensures forall i, j :: 0 <= i < j < |r| ==>
              Sorting.InOrder(r[i].timestamp, r[j].timestamp, descending)
    ensures forall k :: 0 <= k < |r| ==> ListedFrom(r[k], store, directory, select)
    ensures forall k, n :: 0 <= k < |r| && 0 <= n < |r[k].images| ==> '/' !in r[k].images[n]
  {
    var sorted := Sorting.SortBy(Filter(store, select), Timestamp, descending);
    EntriesInOrder(sorted, directory, descending);
    EntriesFromStore(store, directory, select, sorted);
    EntriesImages(sorted, directory);
    Entries(sorted, directory)
  }

  lemma {:induction false} EntriesInOrder(sorted: seq<Message>, directory: Directory, descending: bool)
    requires Sorting.SortedBy(sorted, Timestamp, descending)
    ensures var r := Entries(sorted, directory);
            forall i, j :: 0 <= i < j < |r| ==> Sorting.InOrder(r[i].timestamp, r[j].timestamp, descending)
  {
    var r := Entries(sorted, directory);
    assert forall k :: 0 <= k < |r| ==> r[k].timestamp == Timestamp(sorted[k]);
  }

  lemma {:induction false} EntriesImages(sorted: seq<Message>, directory: Directory)
    ensures var r := Entries(sorted, directory);
            forall k, n :: 0 <= k < |r| && 0 <= n < |r[k].images| ==> '/' !in r[k].images[n]
  {
    var r := Entries(sorted, directory);
    assert forall k :: 0 <= k < |r| ==> r[k].images == Basenames(sorted[k].images);
  }

  lemma {:induction false} EntriesFromStore(store: Store, directory: Directory, select: Message -> bool, sorted: seq<Message>)
    requires multiset(sorted) == multiset(Filter(store, select))
    ensures var r := Entries(sorted, directory);
            forall k :: 0 <= k < |r| ==> ListedFrom(r[k], store, directory, select)
  {
    var r := Entries(sorted, directory);
    PickedFromStore(store, select, sorted);
    forall k | 0 <= k < |r|
      ensures ListedFrom(r[k], store, directory, select)
    {
      var i :| 0 <= i < |store| && store[i] == sorted[k];
    }
  }

  /** A rearrangement of the picked messages holds only picked messages of
      the store. */
  lemma {:induction false} PickedFromStore(store: Store, select: Message -> bool, sorted: seq<Message>)
    requires multiset(sorted) == multiset(Filter(store, select))
    ensures forall k :: 0 <= k < |sorted| ==> sorted[k] in store && select(sorted[k])
  {
    forall k | 0 <= k < |sorted|
      ensures sorted[k] in store && select(sorted[k])
    {
      assert sorted[k] in multiset(Filter(store, select));
      assert sorted[k] in Filter(store, select);
    }
  }

  /** `getRoomMessages`: the room's messages, oldest first. */
  function RoomListing(store: Store, directory: Directory, room: string): (r: seq<Entry>)
    ensures forall k :: 0 <= k < |r| ==> r[k].room == room
    ensures forall i, j :: 0 <= i < j < |r| ==> r[i].timestamp <= r[j].timestamp
    ensures |r| == |Filter(store, InRoom(room))|
    ensures forall k :: 0 <= k < |r| ==> ListedFrom(r[k], store, directory, InRoom(room))
  {
    var r := Listing(store, directory, InRoom(room), false);
    assert forall k :: 0 <= k < |r| ==> r[k].room == room by {
      forall k | 0 <= k < |r| ensures r[k].room == room {
        assert ListedFrom(r[k], store, directory, InRoom(room));
      }
    }
    r
  }

  /** `getUserMessages`: the messages a user sent, newest first, each showing
      that user's account (or null when it is gone). The user id is cast to
      an object id by the query, so a malformed one fails with 500. */
  function UserListing(store: Store, directory: Directory, user: UserId): (r: Result<seq<Entry>>)
    ensures r.Err? <==> !ValidObjectId(user)
    ensures r.Err? ==> r.failure == ServerError
    ensures r.Ok? ==> forall k :: 0 <= k < |r.value| ==> r.value[k].sender == SenderOf(user, directory)
    ensures r.Ok? ==> forall i, j :: 0 <= i < j < |r.value| ==> r.value[i].timestamp >= r.value[j].timestamp
    ensures r.Ok? ==> |r.value| == |Filter(store, SentBy(user))|
    ensures r.Ok? ==> forall k :: 0 <= k < |r.value| ==> ListedFrom(r.value[k], store, directory, SentBy(user))
  {
    if !ValidObjectId(user) then Err(ServerError)
    else
      var r := Listing(store, directory, SentBy(user), true);
      assert forall k :: 0 <= k < |r| ==> r[k].sender == SenderOf(user, directory) by {
        forall k | 0 <= k < |r| ensures r[k].sender == SenderOf(user, directory) {
          assert ListedFrom(r[k], store, directory, SentBy(user));
        }
      }
      Ok(r)
  }

  /** Every message a listing selects is listed. */
  lemma {:induction false} ListingComplete(store: Store, directory: Directory, select: Message -> bool, descending: bool, m: Message)
    requires m in store && select(m)
    ensures Listed(m, directory) in Listing(store, directory, select, descending)
  {
    var picked := Filter(store, select);
    var sorted := Sorting.SortBy(picked, Timestamp, descending);
    assert m in multiset(sorted);
    var k :| 0 <= k < |sorted| && sorted[k] == m;
    assert Listing(store, directory, select, descending)[k] == Listed(m, directory);
  }

  // ---------------------------------------------------------------- edit

  /** The edit form: optional new text, the `clearImages` flag as sent, and
      the uploaded file names in upload order. */
  datatype EditForm = EditForm(text: Option<string>, clearImages: Option<string>, uploads: seq<string>)

  const UploadDir: string := "/uploads/messages/"

  /** Where an uploaded message image is stored. */
  function UploadPath(filename: string): string
  {
    UploadDir + filename
  }

  /** The images an edit keeps: none when `clearImages` is exactly "true". */
  function KeptImages(m: Message, form: EditForm): seq<string>
  {
    if form.clearImages == Some("true") then [] else m.images
  }

  /** The message after an authorised edit. */
  function Edited(m: Message, form: EditForm): (m': Message)
    ensures m'.id == m.id && m'.room == m.room && m'.sender == m.sender
    ensures m'.to == m.to && m'.timestamp == m.timestamp
    ensures Truthy(form.text) ==> m'.text == form.text
    ensures !Truthy(form.text) ==> m'.text == m.text
    ensures |m'.images| == |KeptImages(m, form)| + |form.uploads|
    ensures m'.images[..|KeptImages(m, form)|] == KeptImages(m, form)
    ensures forall k :: 0 <= k < |form.uploads| ==>
              m'.images[|KeptImages(m, form)| + k] == UploadPath(form.uploads[k])
  {
    var text := if Truthy(form.text) then form.text else m.text;
    m.(text := text, images := KeptImages(m, form) + UploadPaths(form.uploads))
  }

  /** The stored paths of the uploaded files, in upload order. */
  function UploadPaths(uploads: seq<string>): (r: seq<string>)
    ensures |r| == |uploads|
    ensures forall k :: 0 <= k < |r| ==> r[k] == UploadPath(uploads[k])
  {
    seq(|uploads|, k requires 0 <= k < |uploads| => UploadPath(uploads[k]))
  }

  /** The stored path of an upload lists as the uploaded file name. */
  lemma {:induction false} UploadPathBasename(filename: string)
    requires '/' !in filename
    ensures Basename(UploadPath(filename)) == filename
  {
    assert UploadPath(filename) == "/uploads/messages" + ['/'] + filename;
    BasenameOfPath("/uploads/messages", filename);
  }

  /** After an edit that uploads files, the listing of the message shows the
      uploaded file names last, in upload order. */
  lemma {:induction false} EditedListingShowsUploads(m: Message, directory: Directory, form: EditForm)
    requires forall k :: 0 <= k < |form.uploads| ==> '/' !in form.uploads[k]
    ensures var shown := Listed(Edited(m, form), directory).images;
            shown[|shown| - |form.uploads|..] == form.uploads
  {
    var kept := KeptImages(m, form);
    assert Edited(m, form).images == kept + UploadPaths(form.uploads);
    BasenamesConcat(kept, UploadPaths(form.uploads));
    BasenamesOfUploads(form.uploads);
  }

  /** Listing a run of paths after another lists each run in turn. */
  lemma {:induction false} BasenamesConcat(a: seq<string>, b: seq<string>)
    ensures Basenames(a + b) == Basenames(a) + Basenames(b)
  {
  }

  /** The uploads list as the names they were uploaded under. */
  lemma {:induction false} BasenamesOfUploads(uploads: seq<string>)
    requires forall k :: 0 <= k < |uploads| ==> '/' !in uploads[k]
    ensures Basenames(UploadPaths(uploads)) == uploads
  {
    forall k | 0 <= k < |uploads|
      ensures Basenames(UploadPaths(uploads))[k] == uploads[k]
    {
      UploadPathBasename(uploads[k]);
    }
  }

  /** The outcome of a handler over the store: the new store and the answer. */
  datatype Outcome = Outcome(store: Store, result: Result<Message>)

  /** `editMessage`. A malformed id fails the lookup with 500. The sender is
      populated from the stored accounts; a message whose sender account is
      gone fails with 500 when the handler reads the sender's id. Only the original sender may edit; the edited message
      keeps its place in the store. */
  function EditMessage(store: Store, directory: Directory, id: MessageId, requester: UserId, form: EditForm): (o: Outcome)
    ensures o.result.Err? ==> o.store == store
    ensures o.result.Err? ==> o.result.failure in {ServerError, NotFound, Forbidden}
    ensures o.result == Err(NotFound) <==> ValidObjectId(id) && id !in Ids(store)
    ensures o.result == Err(ServerError) <==>
              !ValidObjectId(id)
              || exists i :: 0 <= i < |store| && store[i].id == id && FindFirst(store, HasId(id)) == Some(i) && store[i].sender !in directory
    ensures o.result == Err(Forbidden) <==>
              ValidObjectId(id)
              && exists i :: 0 <= i < |store| && store[i].id == id && FindFirst(store, HasId(id)) == Some(i)
                   && store[i].sender in directory && store[i].sender != requester
    ensures o.result.Ok? ==>
              exists i :: 0 <= i < |store| && store[i].id == id && store[i].sender == requester
                && o.result.value == Edited(store[i], form) && o.store == store[i := o.result.value]
  {
    if !ValidObjectId(id) then Outcome(store, Err(ServerError))
    else match FindFirst(store, HasId(id))
    case None => Outcome(store, Err(NotFound))
    case Some(i) =>
      assert store[i] in store;
      if store[i].sender !in directory then Outcome(store, Err(ServerError))
      else if store[i].sender != requester then Outcome(store, Err(Forbidden))
      else
        var m' := Edited(store[i], form);
        Outcome(store[i := m'], Ok(m'))
  }

  // -------------------------------------------------------------- delete

  /** `deleteMessage`. A malformed id fails the lookup with 500. Only the
      original sender may delete; the message is removed and returned. */
  function DeleteMessage(store: Store, id: MessageId, requester: UserId): (o: Outcome)
    ensures o.result.Err? ==> o.store == store
    ensures o.result.Err? ==> o.result.failure in {ServerError, NotFound, Forbidden}
    ensures o.result == Err(ServerError) <==> !ValidObjectId(id)
    ensures o.result == Err(NotFound) <==> ValidObjectId(id) && id !in Ids(store)
    ensures o.result == Err(Forbidden) <==>
              ValidObjectId(id)
              && exists i :: 0 <= i < |store| && store[i].id == id && FindFirst(store, HasId(id)) == Some(i) && store[i].sender != requester
    ensures o.result.Ok? ==>
              exists i :: 0 <= i < |store| && store[i].id == id && store[i].sender == requester
                && o.result.value == store[i] && o.store == RemoveAt(store, i)
  {
    if !ValidObjectId(id) then Outcome(store, Err(ServerError))
    else match FindFirst(store, HasId(id))
    case None => Outcome(store, Err(NotFound))
    case Some(i) =>
      assert store[i] in store;
      if store[i].sender != requester then Outcome(store, Err(Forbidden))
      else Outcome(RemoveAt(store, i), Ok(store[i]))
  }

  /** The page deletes a replayed message, which has no id, by the text
      "undefined": the lookup fails with 500 and nothing is removed. */
  lemma {:induction false} DeleteWithoutIdFails(store: Store, requester: UserId)
    ensures DeleteMessage(store, "undefined", requester) == Outcome(store, Err(ServerError))
  {
    assert !ValidObjectId("undefined");
  }

  /** After a successful delete the message is gone from every listing. */
  lemma {:induction false} DeleteHidesFromListings(store: Store, directory: Directory, id: MessageId, requester: UserId,
                                                   room: string, user: UserId)
    requires UniqueIds(store)
    requires DeleteMessage(store, id, requester).result.Ok?
    ensures var after := DeleteMessage(store, id, requester).store;
            var rooms, users := RoomListing(after, directory, room), UserListing(after, directory, user);
            && (forall k :: 0 <= k < |rooms| ==> rooms[k].id != id)
            && (users.Ok? ==> forall k :: 0 <= k < |users.value| ==> users.value[k].id != id)
  {
    var o := DeleteMessage(store, id, requester);
    var i :| 0 <= i < |store| && store[i].id == id && o.store == RemoveAt(store, i);
    assert forall j :: 0 <= j < |o.store| ==> o.store[j].id != id;
    var rl := Listing(o.store, directory, InRoom(room), false);
    forall k | 0 <= k < |rl| ensures rl[k].id != id {
      assert ListedFrom(rl[k], o.store, directory, InRoom(room));
    }
    var ul := Listing(o.store, directory, SentBy(user), true);
    forall k | 0 <= k < |ul| ensures ul[k].id != id {
      assert ListedFrom(ul[k], o.store, directory, SentBy(user));
    }
  }

  /** Edits and deletes keep message ids unique. */
  lemma {:induction false} HandlersKeepIdsUnique(store: Store, directory: Directory, id: MessageId, requester: UserId, form: EditForm)
    requires UniqueIds(store)
    ensures UniqueIds(EditMessage(store, directory, id, requester, form).store)
    ensures UniqueIds(DeleteMessage(store, id, requester).store)
  {
  }
}

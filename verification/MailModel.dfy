/**
 The shared mail store as a value: folders with their next UID, mailboxes with
 their quota and byte counter, message rows and the mailbox rows that place
 them.  Every transaction of the store is one function from store to store, so
 that a run of the system, whoever started each transaction, is a sequence of
 operations.
 */
module MailModel {
  import opened Common
  import opened Sums

  datatype Flags = Flags(
    seen: bool, answered: bool, flagged: bool, deleted: bool, draft: bool, keywords: seq<string>)

  datatype Folder = Folder(mailbox: string, name: string, uidNext: nat)

  datatype Mailbox = Mailbox(quota: int, used: int)

  datatype Message = Message(size: int, createdAt: int)

  // A row places a message in a folder; deletedAt marks a soft deletion.
  datatype Row = Row(
    mailbox: string, message: string, folder: string, uid: nat, flags: Flags, deletedAt: Option<int>)
  {
    predicate Live() { deletedAt.None? }
  }

  datatype JobStatus = Queued | Retry | Processing | Sent | Failed

  datatype Job = Job(message: string, status: JobStatus)

  // folderIds: every id a folder was ever given; new ids are always fresh.
  datatype Store = Store(
    folders: map<string, Folder>, folderIds: set<string>, mailboxes: map<string, Mailbox>,
    messages: map<string, Message>, rows: map<string, Row>, jobs: map<string, Job>)

  datatype Error = NotFound | Conflict | OverQuota | Fault

  datatype Outcome = Outcome(store: Store, result: Result<nat, Error>)

  datatype Attachment = Attachment(
    id: string, mailbox: string, message: string, folder: string, size: int, flags: Flags, enforceQuota: bool)

  // The copy of a row that a caller read earlier and hands to an operation.
  datatype Item = Item(id: string, mailbox: string, message: string, folder: string, uid: nat, deleted: bool)

  function ItemOf(id: string, row: Row): Item {
    Item(id, row.mailbox, row.message, row.folder, row.uid, !row.Live())
  }

  // A message row that is gone counts nothing.
  function SizeOf(s: Store, message: string): int {
    if message in s.messages then s.messages[message].size else 0
  }

  predicate Fits(mailbox: Mailbox, size: int) {
    mailbox.quota <= 0 || mailbox.used + size <= mailbox.quota
  }

  function AddUsed(s: Store, mailbox: string, size: int): Store
    requires mailbox in s.mailboxes
  {
    var m := s.mailboxes[mailbox];
    s.(mailboxes := s.mailboxes[mailbox := m.(used := m.used + size)])
  }

  function AllocateUid(s: Store, folder: string): Store
    requires folder in s.folders
  {
    var f := s.folders[folder];
    s.(folders := s.folders[folder := f.(uidNext := f.uidNext + 1)])
  }

  function AttachOp(s: Store, p: Attachment): Outcome {
    if p.folder !in s.folders then Outcome(s, Err(NotFound))
    else if p.id in s.rows then Outcome(s, Err(Conflict))
    else if p.mailbox !in s.mailboxes then Outcome(s, Err(NotFound))
    else if p.enforceQuota && !Fits(s.mailboxes[p.mailbox], p.size) then Outcome(s, Err(OverQuota))
    else
      var uid := s.folders[p.folder].uidNext;
      var placed := AllocateUid(s, p.folder);
      var row := Row(p.mailbox, p.message, p.folder, uid, p.flags, None);
      Outcome(AddUsed(placed.(rows := placed.rows[p.id := row]), p.mailbox, p.size), Ok(uid))
  }

  function MoveOp(s: Store, item: Item, folder: string): Outcome {
    if item.folder == folder && !item.deleted then Outcome(s, Ok(item.uid))
    else if folder !in s.folders || item.id !in s.rows then Outcome(s, Err(NotFound))
    else if item.deleted && item.mailbox !in s.mailboxes then Outcome(s, Err(NotFound))
    else
      var uid := s.folders[folder].uidNext;
      var placed := AllocateUid(s, folder);
      var prior := s.rows[item.id];
      var row := prior.(folder := folder, uid := uid, flags := prior.flags.(deleted := false), deletedAt := None);
      var moved := placed.(rows := placed.rows[item.id := row]);
      Outcome(if item.deleted then AddUsed(moved, item.mailbox, SizeOf(s, item.message)) else moved, Ok(uid))
  }

  function SoftDeleteOp(s: Store, item: Item, now: int): Outcome {
    if item.deleted || item.id !in s.rows || !s.rows[item.id].Live() then Outcome(s, Ok(0))
    else if item.mailbox !in s.mailboxes then Outcome(s, Err(NotFound))
    else
      var marked := s.(rows := s.rows[item.id := s.rows[item.id].(deletedAt := Some(now))]);
      Outcome(AddUsed(marked, item.mailbox, -SizeOf(s, item.message)), Ok(0))
  }

  function DeleteEach(s: Store, items: seq<Item>, now: int): Store
    decreases |items|
  {
    if items == [] then s
    else DeleteEach(SoftDeleteOp(s, items[0], now).store, items[1..], now)
  }

  function SetFlagsOp(s: Store, ids: set<string>, flags: Flags): Store {
    s.(rows := map id | id in s.rows :: if id in ids then s.rows[id].(flags := flags) else s.rows[id])
  }

  predicate Expired(row: Row, message: string, retention: int) {
    row.message == message && row.deletedAt.Some? && row.deletedAt.value < retention
  }

  // The last check before a message row may be removed.
  predicate Unreferenced(s: Store, message: string, retention: int) {
    && (forall id :: id in s.rows && s.rows[id].message == message ==> Expired(s.rows[id], message, retention))
    && (forall j :: j in s.jobs && s.jobs[j].message == message ==> s.jobs[j].status.Sent? || s.jobs[j].status.Failed?)
  }

  function DropExpired(s: Store, message: string, retention: int): Store {
    s.(rows := map id | id in s.rows && !Expired(s.rows[id], message, retention) :: s.rows[id])
  }

  // The expired rows go first; unless the message goes too, all is rolled back.
  function CollectOp(s: Store, message: string, retention: int): Store {
    var dropped := DropExpired(s, message, retention);
    if message in s.messages && Unreferenced(dropped, message, retention)
    then dropped.(messages := dropped.messages - {message})
    else s
  }

  predicate NameTaken(s: Store, mailbox: string, name: string) {
    exists f :: f in s.folders && s.folders[f].mailbox == mailbox && s.folders[f].name == name
  }

  function NewFolderOp(s: Store, id: string, mailbox: string, name: string): Store {
    if id in s.folderIds || NameTaken(s, mailbox, name) then s
    else s.(folders := s.folders[id := Folder(mailbox, name, 1)], folderIds := s.folderIds + {id})
  }

  function NewMailboxOp(s: Store, id: string, quota: int): Store {
    if id in s.mailboxes then s else s.(mailboxes := s.mailboxes[id := Mailbox(quota, 0)])
  }

  // A purge is three statements, each on its own: rows, folders, mailbox.
  function PurgeRowsOp(s: Store, mailbox: string): Store {
    s.(rows := map id | id in s.rows && s.rows[id].mailbox != mailbox :: s.rows[id])
  }

  function PurgeFoldersOp(s: Store, mailbox: string): Store {
    s.(folders := map f | f in s.folders && s.folders[f].mailbox != mailbox :: s.folders[f])
  }

  function DropMailboxOp(s: Store, mailbox: string): Store {
    s.(mailboxes := s.mailboxes - {mailbox})
  }

  datatype Op =
    | DoAttach(params: Attachment)
    | DoMove(item: Item, folder: string)
    | DoSoftDelete(item: Item, now: int)
    | DoSoftDeleteMany(items: seq<Item>, now: int)
    | DoSetFlags(ids: set<string>, flags: Flags)
    | DoNewMessage(id: string, message: Message)
    | DoSetJob(id: string, job: Job)
    | DoCollect(id: string, retention: int)
    | DoNewFolder(id: string, mailbox: string, name: string)
    | DoDropFolder(id: string)
    | DoNewMailbox(id: string, quota: int)
    | DoPurgeRows(mailbox: string)
    | DoPurgeFolders(mailbox: string)
    | DoDropMailbox(mailbox: string)

  function Apply(s: Store, op: Op): Store {
    match op
    case DoAttach(p) => AttachOp(s, p).store
    case DoMove(item, folder) => MoveOp(s, item, folder).store
    case DoSoftDelete(item, now) => SoftDeleteOp(s, item, now).store
    case DoSoftDeleteMany(items, now) => DeleteEach(s, items, now)
    case DoSetFlags(ids, flags) => SetFlagsOp(s, ids, flags)
    case DoNewMessage(id, message) =>
      if id in s.messages then s else s.(messages := s.messages[id := message])
    case DoSetJob(id, job) => s.(jobs := s.jobs[id := job])
    case DoCollect(id, retention) => CollectOp(s, id, retention)
    case DoNewFolder(id, mailbox, name) => NewFolderOp(s, id, mailbox, name)
    case DoDropFolder(id) => s.(folders := s.folders - {id})
    case DoNewMailbox(id, quota) => NewMailboxOp(s, id, quota)
    case DoPurgeRows(mailbox) => PurgeRowsOp(s, mailbox)
    case DoPurgeFolders(mailbox) => PurgeFoldersOp(s, mailbox)
    case DoDropMailbox(mailbox) => DropMailboxOp(s, mailbox)
  }

  function Run(s: Store, ops: seq<Op>): Store
    decreases |ops|
  {
    if ops == [] then s else Run(Apply(s, ops[0]), ops[1..])
  }

  lemma {:induction false} RunAppend(s: Store, first: seq<Op>, second: seq<Op>)
    ensures Run(s, first + second) == Run(Run(s, first), second)
    decreases |first|
  {
    if first == [] {
      assert first + second == second;
    } else {
      assert (first + second)[1..] == first[1..] + second;
      RunAppend(Apply(s, first[0]), first[1..], second);
    }
  }
}

/** UIDs: allocated upwards, never given to a second row, never taken up again. */
module UidOrder {
  import opened Common
  import opened MailModel

  ghost predicate LiveAt(s: Store, id: string, folder: string, uid: nat) {
    id in s.rows && s.rows[id].Live() && s.rows[id].folder == folder && s.rows[id].uid == uid
  }

  ghost predicate Occupied(s: Store, folder: string, uid: nat) {
    exists id :: LiveAt(s, id, folder, uid)
  }

  ghost predicate OnePerUid(s: Store) {
    forall f, uid: nat, id, other :: LiveAt(s, id, f, uid) && LiveAt(s, other, f, uid) ==> other == id
  }

  ghost predicate BelowNext(s: Store) {
    forall f, uid: nat, id :: LiveAt(s, id, f, uid) ==>
        f in s.folderIds && (f in s.folders ==> uid < s.folders[f].uidNext)
  }

  // One live row per folder and UID, below the folder's next UID while it exists.
  ghost predicate UidsValid(s: Store) {
    s.folders.Keys <= s.folderIds && OnePerUid(s) && BelowNext(s)
  }

  /** t can follow s through any sequence of transactions: a folder that s had is
      gone for good or still there with a next UID no smaller, and a row live in t
      at a UID that s had already handed out is the very row that was live there. */
  ghost predicate Later(s: Store, t: Store) {
    && s.folderIds <= t.folderIds
    && (forall f :: f in t.folders && f in s.folderIds ==>
        && f in s.folders && s.folders[f].uidNext <= t.folders[f].uidNext
        && s.folders[f].mailbox == t.folders[f].mailbox && s.folders[f].name == t.folders[f].name)
    && (forall f, id, uid :: f in t.folders && f in s.folderIds && LiveAt(t, id, f, uid) ==>
        LiveAt(s, id, f, uid) || s.folders[f].uidNext <= uid)
  }

  lemma LaterTransitive(s: Store, t: Store, u: Store)
    requires Later(s, t) && Later(t, u)
    ensures Later(s, u)
  {
  }

  lemma LaterReflexive(s: Store)
    requires s.folders.Keys <= s.folderIds
    ensures Later(s, s)
  {
  }

  lemma ValidLater(s: Store)
    requires UidsValid(s)
    ensures Later(s, s)
  {
    LaterReflexive(s);
  }

  // A step that puts no row anywhere new, and allocates nothing.
  lemma NoNewPlaces(s: Store, t: Store)
    requires UidsValid(s) && t.folderIds == s.folderIds
    requires forall f :: f in t.folders ==> f in s.folders && t.folders[f] == s.folders[f]
    requires forall id :: id in t.rows && t.rows[id].Live() ==>
        && id in s.rows && s.rows[id].Live()
        && t.rows[id].folder == s.rows[id].folder && t.rows[id].uid == s.rows[id].uid
    ensures Later(s, t) && UidsValid(t)
  {
    assert forall id, f, uid :: LiveAt(t, id, f, uid) ==> LiveAt(s, id, f, uid);
    hide LiveAt;
  }

  // A new folder is empty, because its id is fresh.
  lemma NewFolderLater(s: Store, id: string, mailbox: string, name: string)
    requires UidsValid(s)
    ensures Later(s, NewFolderOp(s, id, mailbox, name)) && UidsValid(NewFolderOp(s, id, mailbox, name))
  {
    hide NameTaken;
    var t := NewFolderOp(s, id, mailbox, name);
    assert forall x, f, uid :: LiveAt(t, x, f, uid) <==> LiveAt(s, x, f, uid);
    hide LiveAt;
  }

  // A step that puts one row at the next UID of a folder.
  lemma OneNewPlace(s: Store, t: Store, row: string, folder: string)
    requires UidsValid(s) && folder in s.folders && t.folderIds == s.folderIds
    requires t.folders == s.folders[folder := s.folders[folder].(uidNext := s.folders[folder].uidNext + 1)]
    requires LiveAt(t, row, folder, s.folders[folder].uidNext)
    requires forall id :: id != row ==> (id in s.rows <==> id in t.rows) && (id in s.rows ==> s.rows[id] == t.rows[id])
    ensures Later(s, t) && UidsValid(t)
  {
    var next := s.folders[folder].uidNext;
    assert forall id, f, uid :: LiveAt(t, id, f, uid) ==>
        if id == row then f == folder && uid == next else LiveAt(s, id, f, uid);
    hide LiveAt;
  }

  // The row is live at the folder's next UID, which the caller is told.
  ghost predicate PlacedAt(s: Store, r: Outcome, id: string, folder: string) {
    && folder in s.folders && folder in r.store.folders && r.result == Ok(s.folders[folder].uidNext)
    && LiveAt(r.store, id, folder, s.folders[folder].uidNext) && !Occupied(s, folder, s.folders[folder].uidNext)
    && r.store.folders[folder].uidNext == s.folders[folder].uidNext + 1
  }

  lemma NextUnoccupied(s: Store, folder: string)
    requires UidsValid(s) && folder in s.folders
    ensures !Occupied(s, folder, s.folders[folder].uidNext)
  {
  }

  lemma AttachLater(s: Store, p: Attachment)
    requires UidsValid(s)
    ensures Later(s, AttachOp(s, p).store) && UidsValid(AttachOp(s, p).store)
    ensures AttachOp(s, p).result.Ok? ==> PlacedAt(s, AttachOp(s, p), p.id, p.folder)
  {
    hide UidsValid, Later;
    if AttachOp(s, p).result.Ok? {
      OneNewPlace(s, AttachOp(s, p).store, p.id, p.folder);
      NextUnoccupied(s, p.folder);
    } else {
      ValidLater(s);
    }
  }

  lemma MoveLater(s: Store, item: Item, folder: string)
    requires UidsValid(s)
    ensures Later(s, MoveOp(s, item, folder).store) && UidsValid(MoveOp(s, item, folder).store)
    ensures MoveOp(s, item, folder).store != s ==> PlacedAt(s, MoveOp(s, item, folder), item.id, folder)
  {
    hide UidsValid, Later;
    if MoveOp(s, item, folder).store != s {
      OneNewPlace(s, MoveOp(s, item, folder).store, item.id, folder);
      NextUnoccupied(s, folder);
    } else {
      ValidLater(s);
    }
  }

  lemma SoftDeleteLater(s: Store, item: Item, now: int)
    requires UidsValid(s)
    ensures Later(s, SoftDeleteOp(s, item, now).store) && UidsValid(SoftDeleteOp(s, item, now).store)
  {
    hide UidsValid, Later;
    NoNewPlaces(s, SoftDeleteOp(s, item, now).store);
  }

  lemma {:induction false} DeleteEachLater(s: Store, items: seq<Item>, now: int)
    requires UidsValid(s)
    ensures Later(s, DeleteEach(s, items, now)) && UidsValid(DeleteEach(s, items, now))
    decreases |items|
  {
    hide UidsValid, Later, SoftDeleteOp;
    ValidLater(s);
    if items != [] {
      var t := SoftDeleteOp(s, items[0], now).store;
      SoftDeleteLater(s, items[0], now);
      DeleteEachLater(t, items[1..], now);
      LaterTransitive(s, t, DeleteEach(t, items[1..], now));
    }
  }

  lemma SetFlagsLater(s: Store, ids: set<string>, flags: Flags)
    requires UidsValid(s)
    ensures Later(s, SetFlagsOp(s, ids, flags)) && UidsValid(SetFlagsOp(s, ids, flags))
  {
    hide UidsValid, Later;
    NoNewPlaces(s, SetFlagsOp(s, ids, flags));
  }

  lemma CollectLater(s: Store, id: string, retention: int)
    requires UidsValid(s)
    ensures Later(s, CollectOp(s, id, retention)) && UidsValid(CollectOp(s, id, retention))
  {
    hide UidsValid, Later, Unreferenced;
    NoNewPlaces(s, CollectOp(s, id, retention));
  }

  lemma ApplyLater(s: Store, op: Op)
    requires UidsValid(s)
    ensures Later(s, Apply(s, op)) && UidsValid(Apply(s, op))
  {
    hide UidsValid, Later, AttachOp, MoveOp, SoftDeleteOp, DeleteEach, SetFlagsOp, CollectOp, NewFolderOp;
    match op
    case DoAttach(p) => AttachLater(s, p);
    case DoMove(item, folder) => MoveLater(s, item, folder);
    case DoSoftDelete(item, now) => SoftDeleteLater(s, item, now);
    case DoSoftDeleteMany(items, now) => DeleteEachLater(s, items, now);
    case DoSetFlags(ids, flags) => SetFlagsLater(s, ids, flags);
    case DoCollect(id, retention) => CollectLater(s, id, retention);
    case DoNewFolder(id, mailbox, name) => NewFolderLater(s, id, mailbox, name);
    case _ => NoNewPlaces(s, Apply(s, op));
  }

  /** Whatever the interleaving, the store only moves later. */
  lemma {:induction false} RunLater(s: Store, ops: seq<Op>)
    requires UidsValid(s)
    ensures Later(s, Run(s, ops)) && UidsValid(Run(s, ops))
    decreases |ops|
  {
    hide UidsValid, Later, Apply;
    ValidLater(s);
    if ops != [] {
      var t := Apply(s, ops[0]);
      ApplyLater(s, ops[0]);
      RunLater(t, ops[1..]);
      LaterTransitive(s, t, Run(t, ops[1..]));
    }
  }

  /** A UID that has been handed out and is no longer occupied stays empty. */
  lemma VacantForever(s: Store, ops: seq<Op>, folder: string, uid: nat)
    requires UidsValid(s) && folder in s.folders && uid < s.folders[folder].uidNext
    requires !Occupied(s, folder, uid)
    ensures folder in Run(s, ops).folders ==> !Occupied(Run(s, ops), folder, uid)
  {
    RunLater(s, ops);
  }
}

/** Conservation: a mailbox's byte counter follows the sizes of its live rows. */
module ByteCount {
  import opened Common
  import opened Sums
  import opened MailModel

  ghost function Weight(s: Store, mailbox: string, id: string): int {
    if id in s.rows && s.rows[id].Live() && s.rows[id].mailbox == mailbox then SizeOf(s, s.rows[id].message) else 0
  }

  ghost function LiveBytes(s: Store, mailbox: string): int {
    Total(s.rows.Keys, id => Weight(s, mailbox, id))
  }

  ghost function Used(s: Store, mailbox: string): int {
    if mailbox in s.mailboxes then s.mailboxes[mailbox].used else 0
  }

  // How far the counter is off; a mailbox that is not there counts nothing.
  ghost function Drift(s: Store, mailbox: string): int {
    Used(s, mailbox) - LiveBytes(s, mailbox)
  }

  ghost predicate DriftKept(s: Store, t: Store) {
    forall m :: Drift(t, m) == Drift(s, m)
  }

  lemma LiveBytesOver(s: Store, mailbox: string, keys: set<string>)
    requires s.rows.Keys <= keys
    ensures LiveBytes(s, mailbox) == Total(keys, id => Weight(s, mailbox, id))
  {
    TotalExtend(s.rows.Keys, keys, id => Weight(s, mailbox, id));
  }

  // Stores that weigh every row but one alike differ by that row's weight.
  lemma OneRow(s: Store, t: Store, mailbox: string, id: string)
    requires forall other :: other != id ==> Weight(s, mailbox, other) == Weight(t, mailbox, other)
    ensures LiveBytes(t, mailbox) - LiveBytes(s, mailbox) == Weight(t, mailbox, id) - Weight(s, mailbox, id)
  {
    var keys := s.rows.Keys + t.rows.Keys + {id};
    var ws, wt := (k: string) => Weight(s, mailbox, k), (k: string) => Weight(t, mailbox, k);
    LiveBytesOver(s, mailbox, keys);
    LiveBytesOver(t, mailbox, keys);
    TotalPick(keys, ws, id);
    TotalPick(keys, wt, id);
    TotalSame(keys - {id}, ws, wt);
  }

  lemma SameWeights(s: Store, t: Store, mailbox: string)
    requires forall id :: Weight(s, mailbox, id) == Weight(t, mailbox, id)
    ensures LiveBytes(s, mailbox) == LiveBytes(t, mailbox)
  {
    OneRow(s, t, mailbox, "");
  }

  // The snapshot names the row's own mailbox and message, which never change.
  ghost predicate SameRow(s: Store, item: Item) {
    item.id in s.rows ==> s.rows[item.id].mailbox == item.mailbox && s.rows[item.id].message == item.message
  }

  ghost predicate Current(s: Store, item: Item) {
    item.id in s.rows ==> SameRow(s, item) && item.deleted == !s.rows[item.id].Live()
  }

  lemma AttachDrift(s: Store, p: Attachment)
    requires p.size == SizeOf(s, p.message)
    ensures DriftKept(s, AttachOp(s, p).store)
  {
    var t := AttachOp(s, p).store;
    forall m ensures Drift(t, m) == Drift(s, m) {
      OneRow(s, t, m, p.id);
    }
  }

  /** The drift a move adds, for any snapshot at all: a move conserves the
      counter exactly when the snapshot is right about the row being deleted,
      or the message weighs nothing. */
  lemma MoveDrift(s: Store, item: Item, folder: string)
    requires SameRow(s, item) && item.mailbox in s.mailboxes
    requires folder in s.folders && item.id in s.rows && (item.folder != folder || item.deleted)
    ensures
      var t := MoveOp(s, item, folder).store;
      && (forall m :: m != item.mailbox ==> Drift(t, m) == Drift(s, m))
      && (Drift(t, item.mailbox) == Drift(s, item.mailbox)
          <==> item.deleted == !s.rows[item.id].Live() || SizeOf(s, item.message) == 0)
  {
    var t := MoveOp(s, item, folder).store;
    forall m ensures LiveBytes(t, m) - LiveBytes(s, m) == Weight(t, m, item.id) - Weight(s, m, item.id) {
      OneRow(s, t, m, item.id);
    }
  }

  lemma SoftDeleteDrift(s: Store, item: Item, now: int)
    requires SameRow(s, item)
    ensures DriftKept(s, SoftDeleteOp(s, item, now).store)
    ensures forall other :: SameRow(s, other) ==> SameRow(SoftDeleteOp(s, item, now).store, other)
  {
    var t := SoftDeleteOp(s, item, now).store;
    forall m ensures Drift(t, m) == Drift(s, m) {
      OneRow(s, t, m, item.id);
    }
  }

  lemma {:induction false} DeleteEachDrift(s: Store, items: seq<Item>, now: int)
    requires forall item :: item in items ==> SameRow(s, item)
    ensures DriftKept(s, DeleteEach(s, items, now))
    decreases |items|
  {
    if items != [] {
      SoftDeleteDrift(s, items[0], now);
      DeleteEachDrift(SoftDeleteOp(s, items[0], now).store, items[1..], now);
    }
  }

  lemma CollectDrift(s: Store, message: string, retention: int)
    ensures DriftKept(s, CollectOp(s, message, retention))
  {
    var t := CollectOp(s, message, retention);
    forall m ensures Drift(t, m) == Drift(s, m) {
      SameWeights(s, t, m);
    }
  }

  lemma QuietDrift(s: Store, t: Store)
    requires forall m :: Used(t, m) == Used(s, m)
    requires forall m, id :: Weight(s, m, id) == Weight(t, m, id)
    ensures DriftKept(s, t)
  {
    forall m ensures Drift(t, m) == Drift(s, m) {
      SameWeights(s, t, m);
    }
  }

  // What the callers of each operation hand it.
  ghost predicate Faithful(s: Store, op: Op) {
    match op
    case DoAttach(p) => p.size == SizeOf(s, p.message)
    case DoMove(item, folder) => Current(s, item)
    case DoSoftDelete(item, now) => SameRow(s, item)
    case DoSoftDeleteMany(items, now) => forall item :: item in items ==> SameRow(s, item)
    case DoNewMessage(id, message) => forall r :: r in s.rows ==> s.rows[r].message != id
    case _ => true
  }

  ghost predicate FaithfulRun(s: Store, ops: seq<Op>)
    decreases |ops|
  {
    ops != [] ==> Faithful(s, ops[0]) && FaithfulRun(Apply(s, ops[0]), ops[1..])
  }

  // What the statements of a purge do to a drift: the rows go before the counter.
  ghost function Shift(s: Store, op: Op, mailbox: string): int {
    match op
    case DoPurgeRows(m) => if m == mailbox then LiveBytes(s, m) else 0
    case DoDropMailbox(m) => if m == mailbox then -Used(s, m) else 0
    case _ => 0
  }

  lemma PurgeRowsDrift(s: Store, purged: string, mailbox: string)
    ensures Drift(PurgeRowsOp(s, purged), mailbox)
         == Drift(s, mailbox) + if purged == mailbox then LiveBytes(s, mailbox) else 0
  {
    var t := PurgeRowsOp(s, purged);
    if purged == mailbox {
      SameWeights(t, t.(rows := map[]), mailbox);
    } else {
      SameWeights(s, t, mailbox);
    }
  }

  lemma ApplyDrift(s: Store, op: Op, mailbox: string)
    requires Faithful(s, op)
    ensures Drift(Apply(s, op), mailbox) == Drift(s, mailbox) + Shift(s, op, mailbox)
  {
    match op
    case DoAttach(p) => AttachDrift(s, p);
    case DoMove(item, folder) =>
      if folder in s.folders && item.id in s.rows && (item.folder != folder || item.deleted) {
        if item.mailbox in s.mailboxes {
          MoveDrift(s, item, folder);
        } else if !item.deleted {
          QuietDrift(s, Apply(s, op));
        }
      }
    case DoSoftDelete(item, now) => SoftDeleteDrift(s, item, now);
    case DoSoftDeleteMany(items, now) => DeleteEachDrift(s, items, now);
    case DoCollect(id, retention) => CollectDrift(s, id, retention);
    case DoPurgeRows(m) => PurgeRowsDrift(s, m, mailbox);
    case DoDropMailbox(m) => SameWeights(s, Apply(s, op), mailbox);
    case _ => QuietDrift(s, Apply(s, op));
  }

  ghost function RunShift(s: Store, ops: seq<Op>, mailbox: string): int
    decreases |ops|
  {
    if ops == [] then 0 else Shift(s, ops[0], mailbox) + RunShift(Apply(s, ops[0]), ops[1..], mailbox)
  }

  /** Over any run at all a mailbox's counter moves away from its live rows by
      exactly what purges of that mailbox took away without counting. */
  lemma {:induction false} RunDrift(s: Store, ops: seq<Op>, mailbox: string)
    requires FaithfulRun(s, ops)
    ensures Drift(Run(s, ops), mailbox) == Drift(s, mailbox) + RunShift(s, ops, mailbox)
    decreases |ops|
  {
    if ops != [] {
      ApplyDrift(s, ops[0], mailbox);
      RunDrift(Apply(s, ops[0]), ops[1..], mailbox);
    }
  }

  predicate Purges(op: Op, mailbox: string) {
    op == DoPurgeRows(mailbox) || op == DoDropMailbox(mailbox)
  }

  lemma {:induction false} UnpurgedShift(s: Store, ops: seq<Op>, mailbox: string)
    requires forall op :: op in ops ==> !Purges(op, mailbox)
    ensures RunShift(s, ops, mailbox) == 0
    decreases |ops|
  {
    if ops != [] {
      assert !Purges(ops[0], mailbox);
      UnpurgedShift(Apply(s, ops[0]), ops[1..], mailbox);
    }
  }

  /** A counter that starts exact is exact after a run if and only if purges of its
      mailbox took no bytes; in particular as long as no purge of it has begun. */
  lemma Conservation(s: Store, ops: seq<Op>, mailbox: string)
    requires FaithfulRun(s, ops) && Used(s, mailbox) == LiveBytes(s, mailbox)
    ensures Used(Run(s, ops), mailbox) == LiveBytes(Run(s, ops), mailbox) <==> RunShift(s, ops, mailbox) == 0
    ensures (forall op :: op in ops ==> !Purges(op, mailbox)) ==>
      Used(Run(s, ops), mailbox) == LiveBytes(Run(s, ops), mailbox)
  {
    RunDrift(s, ops, mailbox);
    if forall op :: op in ops ==> !Purges(op, mailbox) {
      UnpurgedShift(s, ops, mailbox);
    }
  }

  /** A purge that stops after its first statement leaves the mailbox with its old
      counter and no rows: off by all that was live. */
  lemma StoppedPurge(s: Store, mailbox: string)
    requires mailbox in s.mailboxes && Drift(s, mailbox) == 0
    ensures
      var t := Run(s, [DoPurgeRows(mailbox)]);
      && mailbox in t.mailboxes && t.mailboxes[mailbox] == s.mailboxes[mailbox] && LiveBytes(t, mailbox) == 0
      && Drift(t, mailbox) == LiveBytes(s, mailbox)
  {
    var t := PurgeRowsOp(s, mailbox);
    assert Run(s, [DoPurgeRows(mailbox)]) == Run(t, []);
    PurgeRowsDrift(s, mailbox, mailbox);
  }
}

/** Facts about one deletion or move of a message that a view still lists. */
module Vacating {
  import opened Common
  import opened MailModel
  import opened UidOrder

  // Nobody but this row can be live at this UID, now or later.
  ghost predicate OnlyAt(s: Store, id: string, folder: string, uid: nat) {
    && folder in s.folderIds
    && (folder in s.folders ==>
        uid < s.folders[folder].uidNext && forall other :: LiveAt(s, other, folder, uid) ==> other == id)
  }

  ghost predicate Vacant(s: Store, folder: string, uid: nat) {
    && folder in s.folderIds
    && (folder in s.folders ==> uid < s.folders[folder].uidNext && !Occupied(s, folder, uid))
  }

  lemma OnlyAtLater(s: Store, t: Store, id: string, folder: string, uid: nat)
    requires Later(s, t) && OnlyAt(s, id, folder, uid)
    ensures OnlyAt(t, id, folder, uid)
  {
  }

  lemma VacantLater(s: Store, t: Store, folder: string, uid: nat)
    requires Later(s, t) && Vacant(s, folder, uid)
    ensures Vacant(t, folder, uid)
  {
    forall id | folder in t.folders && LiveAt(t, id, folder, uid) ensures false {
      assert Occupied(s, folder, uid);
    }
  }

  // Moving on a snapshot, however stale, empties the UID the view lists.
  lemma MoveVacates(read: Store, s: Store, id: string, folder: string, uid: nat, target: string)
    requires UidsValid(s) && Later(read, s) && id in read.rows && OnlyAt(read, id, folder, uid) && target != folder
    requires MoveOp(s, ItemOf(id, read.rows[id]), target).result.Ok?
    ensures Vacant(MoveOp(s, ItemOf(id, read.rows[id]), target).store, folder, uid)
  {
    var item := ItemOf(id, read.rows[id]);
    OnlyAtLater(read, s, id, folder, uid);
    if item.folder == target && !item.deleted {
      assert folder in read.folders ==> !Occupied(read, folder, uid);
      VacantLater(read, s, folder, uid);
    } else {
      MoveLater(s, item, target);
      OnlyAtLater(s, MoveOp(s, item, target).store, id, folder, uid);
    }
  }

  lemma SoftDeleteVacates(read: Store, s: Store, id: string, folder: string, uid: nat, now: int)
    requires UidsValid(s) && Later(read, s) && id in read.rows && OnlyAt(read, id, folder, uid)
    requires SoftDeleteOp(s, ItemOf(id, read.rows[id]), now).result.Ok?
    ensures Vacant(SoftDeleteOp(s, ItemOf(id, read.rows[id]), now).store, folder, uid)
  {
    var item := ItemOf(id, read.rows[id]);
    OnlyAtLater(read, s, id, folder, uid);
    if item.deleted {
      assert folder in read.folders ==> !Occupied(read, folder, uid);
      VacantLater(read, s, folder, uid);
    } else {
      SoftDeleteLater(s, item, now);
      OnlyAtLater(s, SoftDeleteOp(s, item, now).store, id, folder, uid);
    }
  }
}

/** The session object: the selected folder's view and the commands that step it. */
module ImapSession {
  import opened Common
  import opened MailModel
  import opened UidOrder
  import opened MailStorage
  import opened ImapView
  import opened ImapFolder
  import opened Vacating

  const TRASH := "Trash"

  datatype CommandResult = Done | ReadOnly | StoreError | Revoked

  // A set of sequence numbers or of UIDs; a dynamic one ends in '*'.
  datatype NumSet = NumSet(byUid: bool, member: nat -> bool, dynamic: bool)

  // What the rest of the system does just before the k-th transaction of a command.
  type Schedule = nat -> seq<Op>

  predicate InSet(entries: seq<Entry>, numbers: NumSet, i: nat)
    requires i < |entries|
  {
    || numbers.member(if numbers.byUid then entries[i].uid else i + 1)
    || (numbers.dynamic && i == |entries| - 1)
  }

  ghost function SelectedUids(entries: seq<Entry>, numbers: NumSet): set<nat> {
    set i | 0 <= i < |entries| && InSet(entries, numbers, i) :: entries[i].uid
  }

  predicate Doomed(e: Entry, uids: Option<set<nat>>) {
    e.flags.deleted && (uids.Some? ==> e.uid in uids.value)
  }

  function ExpungePass(entries: seq<Entry>, uids: Option<set<nat>>): (pass: seq<Verdict>)
    ensures PassOver(pass, entries)
  {
    seq(|entries|, i requires 0 <= i < |entries| => if Doomed(entries[i], uids) then Drop else Keep(entries[i], false))
  }

  function RemovePass(entries: seq<Entry>, removed: set<nat>): (pass: seq<Verdict>)
    ensures PassOver(pass, entries)
  {
    seq(|entries|, i requires 0 <= i < |entries| => if i in removed then Drop else Keep(entries[i], false))
  }

  // The load part way: the smallest UIDs are in, in order, and todo is left.
  ghost predicate PartLoaded(s: Store, folder: string, todo: set<string>, loaded: seq<Entry>) {
    && (forall id :: id in todo ==> id in s.rows && s.rows[id].Live() && s.rows[id].folder == folder)
    && Ascending(loaded)
    && (forall e :: e in loaded ==> LiveAt(s, e.item, folder, e.uid) && e == EntryOf(e.item, s.rows[e.item]))
    && (forall id :: id in s.rows && s.rows[id].Live() && s.rows[id].folder == folder && id !in todo
          ==> EntryOf(id, s.rows[id]) in loaded)
    && (forall e, id :: e in loaded && id in todo ==> e.uid < s.rows[id].uid)
  }

  lemma PartLoadedFirst(s: Store, folder: string, all: set<string>)
    requires all == set id | id in s.rows && s.rows[id].folder == folder && s.rows[id].Live()
    ensures PartLoaded(s, folder, all, [])
  {
  }

  lemma PartLoadedRows(s: Store, folder: string, todo: set<string>, loaded: seq<Entry>)
    requires PartLoaded(s, folder, todo, loaded)
    ensures todo <= s.rows.Keys
  {
  }

  lemma PartLoadedLast(s: Store, folder: string, loaded: seq<Entry>)
    requires PartLoaded(s, folder, {}, loaded)
    ensures IsLoad(s, folder, loaded)
  {
  }

  lemma PartLoadedNext(s: Store, folder: string, todo: set<string>, loaded: seq<Entry>, id: string)
    requires UidsValid(s) && PartLoaded(s, folder, todo, loaded)
    requires id in todo && forall other :: other in todo ==> other in s.rows && s.rows[id].uid <= s.rows[other].uid
    ensures PartLoaded(s, folder, todo - {id}, loaded + [EntryOf(id, s.rows[id])])
  {
    forall other | other in todo && other != id ensures s.rows[id].uid < s.rows[other].uid {
      assert LiveAt(s, other, folder, s.rows[other].uid) && LiveAt(s, id, folder, s.rows[id].uid);
    }
    hide UidsValid;
    var e := EntryOf(id, s.rows[id]);
    assert forall i :: 0 <= i < |loaded| ==> loaded[i] in loaded;
    assert e in loaded + [e];
  }

  lemma SmallestUid(rows: map<string, Row>, todo: set<string>)
    requires todo != {} && todo <= rows.Keys
    ensures exists id :: id in todo && forall other :: other in todo ==> rows[id].uid <= rows[other].uid
  {
    var id :| id in todo;
    var rest := todo - {id};
    if rest == {} {
      assert todo == {id};
    } else {
      SmallestUid(rows, rest);
      var least :| least in rest && forall other :: other in rest ==> rows[least].uid <= rows[other].uid;
      var pick := if rows[id].uid <= rows[least].uid then id else least;
      forall other | other in todo ensures rows[pick].uid <= rows[other].uid {
        assert other == id || other in rest;
      }
    }
  }

  // EXPUNGE and MOVE begin with a forced resync that may expunge and not extend.
  const COMMAND_MODE := Mode(true, false, true)

  // The view and the responses once that first resync is done.
  function Synced(entries: seq<Entry>, loaded: seq<Entry>): seq<Entry> {
    ResyncEntries(entries, loaded, ExpungeOnly, COMMAND_MODE)
  }

  function SyncSaid(entries: seq<Entry>, loaded: seq<Entry>): seq<Response> {
    ResyncSaid(entries, loaded, ExpungeOnly, COMMAND_MODE)
  }

  // After that resync the view lists only rows that were live in the load.
  lemma SyncedLive(s: Store, folder: string, entries: seq<Entry>, loaded: seq<Entry>, e: Entry)
    requires UidsValid(s) && IsLoad(s, folder, loaded) && e in Synced(entries, loaded)
    ensures LiveAt(s, e.item, folder, e.uid) && OnlyAt(s, e.item, folder, e.uid) && !e.gone
  {
    ByUidContents(loaded);
    NextOrigin(entries, loaded, ExpungeOnly, COMMAND_MODE, e);
    assert e in loaded;
  }

  ghost predicate AllOnlyAt(s: Store, folder: string, entries: seq<Entry>) {
    forall i :: 0 <= i < |entries| ==> OnlyAt(s, entries[i].item, folder, entries[i].uid)
  }

  lemma SyncedNoneGone(s: Store, folder: string, entries: seq<Entry>, loaded: seq<Entry>)
    requires UidsValid(s) && IsLoad(s, folder, loaded)
    ensures NoneGone(Synced(entries, loaded))
  {
    forall e | e in Synced(entries, loaded) ensures !e.gone {
      SyncedLive(s, folder, entries, loaded, e);
    }
  }

  lemma SyncedAllLive(s: Store, folder: string, entries: seq<Entry>, loaded: seq<Entry>)
    requires UidsValid(s) && IsLoad(s, folder, loaded)
    ensures forall e :: e in Synced(entries, loaded) ==> IsLive(s, e.item)
  {
    forall e | e in Synced(entries, loaded) ensures IsLive(s, e.item) {
      SyncedLive(s, folder, entries, loaded, e);
    }
  }

  lemma SelectedAre(entries: seq<Entry>, numbers: NumSet, chosen: seq<nat>)
    requires forall i :: i in chosen <==> 0 <= i < |entries| && InSet(entries, numbers, i)
    ensures (set i | i in chosen :: entries[i].uid) == SelectedUids(entries, numbers)
  {
  }

  lemma SyncedOnlyAt(s: Store, folder: string, entries: seq<Entry>, loaded: seq<Entry>)
    requires UidsValid(s) && IsLoad(s, folder, loaded)
    ensures AllOnlyAt(s, folder, Synced(entries, loaded))
  {
    var next := Synced(entries, loaded);
    forall i | 0 <= i < |next| ensures OnlyAt(s, next[i].item, folder, next[i].uid) {
      SyncedLive(s, folder, entries, loaded, next[i]);
    }
  }

  ghost predicate DroppedVacant(s: Store, folder: string, entries: seq<Entry>, pass: seq<Verdict>, k: nat)
    requires |pass| == |entries|
  {
    forall i :: 0 <= i < |pass| && i < k && pass[i].Drop? ==> Vacant(s, folder, entries[i].uid)
  }

  lemma CommandLater(s: Store, t: Store, folder: string, entries: seq<Entry>, pass: seq<Verdict>, k: nat)
    requires Later(s, t) && |pass| == |entries| && AllOnlyAt(s, folder, entries)
        && DroppedVacant(s, folder, entries, pass, k)
    ensures AllOnlyAt(t, folder, entries) && DroppedVacant(t, folder, entries, pass, k)
  {
    forall i | 0 <= i < |entries| ensures OnlyAt(t, entries[i].item, folder, entries[i].uid) {
      OnlyAtLater(s, t, entries[i].item, folder, entries[i].uid);
    }
    forall i | 0 <= i < |pass| && i < k && pass[i].Drop? ensures Vacant(t, folder, entries[i].uid) {
      VacantLater(s, t, folder, entries[i].uid);
    }
  }

  // Where an expunged message ends up when nobody else interferes.
  ghost predicate Settled(s: Store, id: string, folderName: string) {
    if folderName == TRASH then id in s.rows && !s.rows[id].Live() else InTrash(s, id)
  }

  ghost predicate IsLive(s: Store, id: string) {
    id in s.rows && s.rows[id].Live()
  }

  ghost predicate Arrived(s: Store, id: string, target: string) {
    id in s.rows && s.rows[id].Live() && s.rows[id].folder == target
  }

  // The view after the resync without the removed entries, told EXPUNGE by EXPUNGE.
  ghost predicate Removed(before: seq<Entry>, loaded: seq<Entry>, removed: set<nat>, after: seq<Entry>,
      out: seq<Response>) {
    var pass := RemovePass(Synced(before, loaded), removed);
    after == Kept(pass) && out == SyncSaid(before, loaded) + Said(pass, FullWriter)
  }

  ghost predicate MovedOnly(entries: seq<Entry>, removed: set<nat>, uids: set<nat>) {
    forall i :: i in removed ==> i < |entries| && entries[i].uid in uids
  }

  ghost predicate UidsVacant(s: Store, folder: string, entries: seq<Entry>, uids: set<nat>) {
    forall e :: e in entries && e.uid in uids ==> Vacant(s, folder, e.uid)
  }

  // Rows are as they were read, or in the target by now.
  ghost predicate Undisturbed(read: Store, s: Store, target: string) {
    forall id :: id in read.rows ==> id in s.rows && (s.rows[id] == read.rows[id] || Arrived(s, id, target))
  }

  ghost predicate ArrivedMore(s: Store, t: Store, target: string) {
    forall id :: Arrived(s, id, target) ==> Arrived(t, id, target)
  }

  lemma MoveArrives(read: Store, s: Store, id: string, target: string)
    requires id in read.rows && Undisturbed(read, s, target)
    ensures var r := MoveOp(s, ItemOf(id, read.rows[id]), target);
        && Undisturbed(read, r.store, target) && ArrivedMore(s, r.store, target)
        && (r.result.Ok? ==> Arrived(r.store, id, target))
  {
    var t := MoveOp(s, ItemOf(id, read.rows[id]), target).store;
    assert t == s || (t.rows.Keys == s.rows.Keys && Arrived(t, id, target)
                      && forall other :: other in s.rows && other != id ==> t.rows[other] == s.rows[other]);
    hide MoveOp;
    forall other | Arrived(s, other, target) ensures Arrived(t, other, target) {
    }
  }

  ghost predicate AllArrived(s: Store, target: string, entries: seq<Entry>, removed: set<nat>) {
    forall i :: i in removed ==> i < |entries| && Arrived(s, entries[i].item, target)
  }

  ghost predicate AllVacant(s: Store, folder: string, entries: seq<Entry>, indexes: seq<nat>) {
    forall i :: i in indexes ==> i < |entries| && Vacant(s, folder, entries[i].uid)
  }

  lemma AllVacantLater(s: Store, t: Store, folder: string, entries: seq<Entry>, indexes: seq<nat>)
    requires Later(s, t) && AllVacant(s, folder, entries, indexes)
    ensures AllVacant(t, folder, entries, indexes)
  {
    forall i | i in indexes ensures Vacant(t, folder, entries[i].uid) {
      VacantLater(s, t, folder, entries[i].uid);
    }
  }

  lemma AllOnlyAtLater(s: Store, t: Store, folder: string, entries: seq<Entry>)
    requires Later(s, t) && AllOnlyAt(s, folder, entries)
    ensures AllOnlyAt(t, folder, entries)
  {
    forall i | 0 <= i < |entries| ensures OnlyAt(t, entries[i].item, folder, entries[i].uid) {
      OnlyAtLater(s, t, entries[i].item, folder, entries[i].uid);
    }
  }

  lemma DeadVacates(read: Store, s: Store, id: string, folder: string, uid: nat)
    requires Later(read, s) && OnlyAt(read, id, folder, uid) && !IsLive(read, id)
    ensures Vacant(s, folder, uid)
  {
    assert Vacant(read, folder, uid);
    VacantLater(read, s, folder, uid);
  }

  lemma NoneMovedYet(read: Store, target: string, entries: seq<Entry>)
    ensures Undisturbed(read, read, target) && AllArrived(read, target, entries, {}) && AllVacant(read, "", entries, [])
  {
  }

  lemma NothingMoved(s: Store, target: string, entries: seq<Entry>, uids: set<nat>)
    ensures MovedOnly(entries, {}, uids) && AllArrived(s, target, entries, {})
  {
  }

  lemma NothingRemoved(entries: seq<Entry>)
    ensures Kept(RemovePass(entries, {})) == entries && Said(RemovePass(entries, {}), FullWriter) == []
  {
    var pass := RemovePass(entries, {});
    KeptAll(pass);
    NothingSaid(pass, FullWriter);
  }

  lemma NothingPassedBy(pass: seq<Verdict>, w: Writer)
    ensures Kept(pass[..0]) == [] && Said(pass[..0], w) == []
  {
  }

  lemma {:induction false} NothingSaid(pass: seq<Verdict>, w: Writer)
    requires forall i :: 0 <= i < |pass| ==> pass[i].Keep? && !pass[i].tell
    ensures Said(pass, w) == []
  {
    if pass != [] {
      NothingSaid(pass[..|pass| - 1], w);
    }
  }

  // Messages that have settled stay settled.
  ghost predicate SettledMore(s: Store, t: Store, folderName: string) {
    forall id :: Settled(s, id, folderName) ==> Settled(t, id, folderName)
  }

  lemma SoftDeleteSettles(s: Store, id: string, now: int)
    requires id in s.rows
    ensures var r := SoftDeleteOp(s, ItemOf(id, s.rows[id]), now);
        SettledMore(s, r.store, TRASH) && (r.result.Ok? ==> Settled(r.store, id, TRASH))
  {
  }

  lemma MoveSettles(s: Store, id: string, trash: string, folderName: string)
    requires id in s.rows && trash in s.folders && s.folders[trash].name == TRASH && folderName != TRASH
    ensures var r := MoveOp(s, ItemOf(id, s.rows[id]), trash);
        SettledMore(s, r.store, folderName) && (r.result.Ok? ==> Settled(r.store, id, folderName))
  {
  }

  // What holds of the store after the first k verdicts of an EXPUNGE.
  ghost predicate Expunged(begin: Store, s: Store, folder: string, entries: seq<Entry>, pass: seq<Verdict>, k: nat)
    requires |pass| == |entries|
  {
    UidsValid(s) && Later(begin, s) && AllOnlyAt(s, folder, entries) && DroppedVacant(s, folder, entries, pass, k)
  }

  ghost predicate AllSettled(s: Store, folderName: string, entries: seq<Entry>, pass: seq<Verdict>, k: nat)
    requires |pass| == |entries|
  {
    forall i :: 0 <= i < |pass| && i < k && pass[i].Drop? ==> Settled(s, entries[i].item, folderName)
  }

  lemma ExpungedFirst(begin: Store, folder: string, folderName: string, entries: seq<Entry>, pass: seq<Verdict>)
    requires |pass| == |entries| && UidsValid(begin) && AllOnlyAt(begin, folder, entries)
    ensures Expunged(begin, begin, folder, entries, pass, 0) && AllSettled(begin, folderName, entries, pass, 0)
  {
  }

  lemma ExpungedHere(begin: Store, s: Store, folder: string, entries: seq<Entry>, pass: seq<Verdict>, k: nat)
    requires |pass| == |entries| && k <= |entries| && Expunged(begin, s, folder, entries, pass, k)
    ensures UidsValid(s) && Later(begin, s) && DroppedVacant(s, folder, entries, pass, k)
    ensures k < |entries| ==> OnlyAt(s, entries[k].item, folder, entries[k].uid)
  {
  }

  lemma ExpungedNext(begin: Store, s: Store, t: Store, folder: string, entries: seq<Entry>, pass: seq<Verdict>, k: nat)
    requires |pass| == |entries| && k < |entries| && Expunged(begin, s, folder, entries, pass, k)
    requires Later(s, t) && UidsValid(t) && (pass[k].Drop? ==> Vacant(t, folder, entries[k].uid))
    ensures Expunged(begin, t, folder, entries, pass, k + 1)
  {
    CommandLater(s, t, folder, entries, pass, k);
    LaterTransitive(begin, s, t);
  }

  lemma AllSettledNext(s: Store, t: Store, folderName: string, entries: seq<Entry>, pass: seq<Verdict>, k: nat)
    requires |pass| == |entries| && k < |entries| && AllSettled(s, folderName, entries, pass, k)
    requires pass[k].Drop? ==> SettledMore(s, t, folderName) && Settled(t, entries[k].item, folderName)
    requires pass[k].Keep? ==> s == t
    ensures AllSettled(t, folderName, entries, pass, k + 1)
  {
  }

  ghost predicate Quiet(env: Schedule) {
    forall k :: env(k) == []
  }

  // No row but this one differs.
  ghost predicate OnlyRow(s: Store, t: Store, id: string) {
    forall other :: other != id ==> SameRow(s, t, other)
  }

  ghost predicate SameRow(s: Store, t: Store, id: string) {
    (id in s.rows <==> id in t.rows) && (id in s.rows ==> t.rows[id] == s.rows[id])
  }

  lemma OneRowEach(s: Store, item: Item, target: string, now: int)
    ensures OnlyRow(s, s, item.id)
    ensures OnlyRow(s, MoveOp(s, item, target).store, item.id)
    ensures OnlyRow(s, SoftDeleteOp(s, item, now).store, item.id)
  {
  }

  // The rows behind the entries that are not to be expunged, and all that have no entry.
  ghost predicate Spared(entries: seq<Entry>, uids: Option<set<nat>>, id: string) {
    forall e :: e in entries && e.item == id ==> !e.flags.deleted || (uids.Some? && e.uid !in uids.value)
  }

  ghost predicate SparedSame(s: Store, t: Store, entries: seq<Entry>, uids: Option<set<nat>>) {
    forall id :: Spared(entries, uids, id) ==> SameRow(s, t, id)
  }

  lemma SparedFirst(s: Store, entries: seq<Entry>, uids: Option<set<nat>>)
    ensures SparedSame(s, s, entries, uids)
  {
  }

  lemma SparedNext(s: Store, t: Store, u: Store, entries: seq<Entry>, uids: Option<set<nat>>, e: Entry)
    requires SparedSame(s, t, entries, uids) && OnlyRow(t, u, e.item) && e in entries && Doomed(e, uids)
    ensures SparedSame(s, u, entries, uids)
  {
    forall id | Spared(entries, uids, id) ensures SameRow(s, u, id) {
      assert id != e.item && SameRow(s, t, id) && SameRow(t, u, id);
    }
  }

  // Rows outside the folder, not marked \Deleted, or outside the UID set are spared.
  lemma SparedRows(s: Store, folder: string, entries: seq<Entry>, loaded: seq<Entry>, uids: Option<set<nat>>,
      id: string)
    requires UidsValid(s) && IsLoad(s, folder, loaded) && id in s.rows
    requires s.rows[id].deletedAt.Some? || s.rows[id].folder != folder || !s.rows[id].flags.deleted
      || (uids.Some? && s.rows[id].uid !in uids.value)
    ensures Spared(Synced(entries, loaded), uids, id)
  {
    forall e | e in Synced(entries, loaded) && e.item == id
      ensures !e.flags.deleted || (uids.Some? && e.uid !in uids.value)
    {
      SyncedAre(entries, loaded);
      SyncedLive(s, folder, entries, loaded, e);
    }
  }

  /** The entries after the forced resync are those of the load the view had listed. */
  lemma SyncedAre(entries: seq<Entry>, loaded: seq<Entry>)
    requires Ascending(loaded)
    ensures forall e :: e in Synced(entries, loaded) <==> e in loaded && exists o :: o in entries && o.uid == e.uid
  {
    AscendingDistinct(loaded);
    forall e ensures e in Synced(entries, loaded) <==> e in loaded && exists o :: o in entries && o.uid == e.uid {
      if e in Synced(entries, loaded) {
        ByUidContents(loaded);
        NextOrigin(entries, loaded, ExpungeOnly, COMMAND_MODE, e);
      }
      if e in loaded && exists o :: o in entries && o.uid == e.uid {
        var o :| o in entries && o.uid == e.uid;
        ByUidOf(loaded, e);
        KeptOf(entries, loaded, ExpungeOnly, COMMAND_MODE, o);
      }
    }
  }

  lemma DoomedMeans(e: Entry, uids: Option<set<nat>>)
    ensures Doomed(e, uids) <==> e.flags.deleted && (uids.Some? ==> e.uid in uids.value)
  {
  }

  /** EXPUNGE leaves exactly the entries that are not marked \Deleted, or whose UID
      is outside the given set. */
  lemma ExpungeLeaves(entries: seq<Entry>, uids: Option<set<nat>>)
    ensures forall e :: e in Kept(ExpungePass(entries, uids)) <==>
        e in entries && (!e.flags.deleted || (uids.Some? && e.uid !in uids.value))
  {
    var pass := ExpungePass(entries, uids);
    KeptContents(pass);
    forall e ensures e in Kept(pass) <==>
        e in entries && (!e.flags.deleted || (uids.Some? && e.uid !in uids.value))
    {
      if e in entries && !Doomed(e, uids) {
        var i :| 0 <= i < |entries| && entries[i] == e;
        assert pass[i].Keep? && pass[i].entry == e;
      }
    }
  }

  /** MOVE leaves what it did not remove. */
  lemma RemoveLeaves(entries: seq<Entry>, removed: set<nat>, uids: set<nat>)
    requires MovedOnly(entries, removed, uids)
    ensures var next := Kept(RemovePass(entries, removed));
      && (forall e :: e in next ==> e in entries)
      && (forall e :: e in entries && e.uid !in uids ==> e in next)
      && ((forall i :: 0 <= i < |entries| && entries[i].uid in uids ==> i in removed) ==>
            forall e :: e in next ==> e.uid !in uids)
  {
    var pass := RemovePass(entries, removed);
    var next := Kept(pass);
    KeptContents(pass);
    forall e | e in entries && e.uid !in uids ensures e in next {
      var i :| 0 <= i < |entries| && entries[i] == e;
      assert pass[i].Keep? && pass[i].entry == e;
    }
  }

  // Only rows behind these entries differ.
  ghost predicate OthersSame(s: Store, t: Store, entries: seq<Entry>, indexes: seq<nat>) {
    forall id :: (forall i :: i in indexes && i < |entries| ==> entries[i].item != id) ==> SameRow(s, t, id)
  }

  ghost predicate UnchosenSame(s: Store, t: Store, entries: seq<Entry>, uids: set<nat>) {
    forall id :: (forall e :: e in entries && e.item == id ==> e.uid !in uids) ==> SameRow(s, t, id)
  }

  lemma UnchosenAre(s: Store, t: Store, entries: seq<Entry>, uids: set<nat>, indexes: seq<nat>)
    requires OthersSame(s, t, entries, indexes)
    requires forall i :: i in indexes ==> i < |entries| && entries[i].uid in uids
    ensures UnchosenSame(s, t, entries, uids)
  {
    forall id | forall e :: e in entries && e.item == id ==> e.uid !in uids ensures SameRow(s, t, id) {
      forall i | i in indexes && i < |entries| ensures entries[i].item != id {
        assert entries[i] in entries;
      }
    }
  }

  // A row not live in the folder at a chosen UID is behind no chosen entry.
  lemma UnchosenRows(s: Store, t: Store, folder: string, entries: seq<Entry>, loaded: seq<Entry>, uids: set<nat>,
      id: string)
    requires UidsValid(s) && IsLoad(s, folder, loaded) && id in s.rows
    requires UnchosenSame(s, t, Synced(entries, loaded), uids)
    requires s.rows[id].deletedAt.Some? || s.rows[id].folder != folder || s.rows[id].uid !in uids
    ensures id in t.rows && t.rows[id] == s.rows[id]
  {
    forall e | e in Synced(entries, loaded) && e.item == id ensures e.uid !in uids {
      SyncedLive(s, folder, entries, loaded, e);
    }
    assert SameRow(s, t, id);
  }

  lemma OthersFirst(s: Store, entries: seq<Entry>, indexes: seq<nat>)
    ensures OthersSame(s, s, entries, indexes)
  {
  }

  lemma OthersNext(s: Store, t: Store, u: Store, entries: seq<Entry>, indexes: seq<nat>, i: nat)
    requires OthersSame(s, t, entries, indexes) && i in indexes && i < |entries| && OnlyRow(t, u, entries[i].item)
    ensures OthersSame(s, u, entries, indexes)
  {
    forall id | forall j :: j in indexes && j < |entries| ==> entries[j].item != id ensures SameRow(s, u, id) {
      assert id != entries[i].item && SameRow(s, t, id) && SameRow(t, u, id);
    }
  }

  // Each entry to be expunged has left its UID, and settled when nobody interfered.
  lemma DoomedVacant(s: Store, folder: string, folderName: string, entries: seq<Entry>, uids: Option<set<nat>>,
      quiet: bool)
    requires var pass := ExpungePass(entries, uids);
      DroppedVacant(s, folder, entries, pass, |pass|)
      && (quiet ==> AllSettled(s, folderName, entries, pass, |pass|))
    ensures forall e :: e in entries && e.flags.deleted && (uids.Some? ==> e.uid in uids.value) ==>
        Vacant(s, folder, e.uid) && (quiet ==> Settled(s, e.item, folderName))
  {
    var pass := ExpungePass(entries, uids);
    forall e | e in entries && e.flags.deleted && (uids.Some? ==> e.uid in uids.value)
      ensures Vacant(s, folder, e.uid) && (quiet ==> Settled(s, e.item, folderName))
    {
      var i :| 0 <= i < |entries| && entries[i] == e;
      assert pass[i].Drop?;
    }
  }

  lemma QuietRun(env: Schedule, k: nat, s: Store)
    ensures Quiet(env) ==> Run(s, env(k)) == s
  {
  }

  ghost predicate InTrash(s: Store, id: string) {
    && id in s.rows && s.rows[id].Live() && s.rows[id].folder in s.folders
    && s.folders[s.rows[id].folder].name == TRASH
  }

  lemma AnyDiffersNone(byUid: map<nat, Entry>)
    ensures !AnyDiffers([], byUid)
  {
  }

  lemma KnownPlus(before: seq<Entry>, last: Entry)
    ensures Known(before + [last]) == Known(before) + {last.uid}
  {
    assert last in before + [last];
    forall e | e in before ensures e in before + [last] {
    }
  }

  lemma AnyDiffersPlus(before: seq<Entry>, last: Entry, byUid: map<nat, Entry>)
    ensures AnyDiffers(before + [last], byUid) <==> AnyDiffers(before, byUid) || Differs(last, byUid)
  {
    if Differs(last, byUid) {
      assert last in before + [last];
    }
  }

  // STORE skips entries that are gone and messages that no longer exist.
  predicate Storable(entries: seq<Entry>, s: Store, i: nat) {
    i < |entries| && !entries[i].gone && entries[i].item in s.rows
  }

  function ChangeFlags(s: Store, ids: set<string>, change: Flags -> Flags): Store {
    s.(rows := map id | id in s.rows ::
         if id in ids then s.rows[id].(flags := change(s.rows[id].flags)) else s.rows[id])
  }

  ghost function StoredItems(entries: seq<Entry>, s: Store, numbers: NumSet): set<string> {
    set i | 0 <= i < |entries| && InSet(entries, numbers, i) && Storable(entries, s, i) :: entries[i].item
  }

  function WithFlags(entries: seq<Entry>, nextFlags: map<nat, Flags>): seq<Entry> {
    seq(|entries|, i requires 0 <= i < |entries| =>
      if i in nextFlags then entries[i].(flags := nextFlags[i]) else entries[i])
  }

  // One FETCH with the new flags for each of these indexes that has some, and no other.
  ghost predicate Told(out: seq<Response>, entries: seq<Entry>, nextFlags: map<nat, Flags>, indexes: seq<nat>) {
    forall x :: x in out <==>
        exists i :: i in indexes && i in nextFlags && i < |entries|
            && x == FetchFlags(i + 1, entries[i].uid, nextFlags[i])
  }

  lemma ToldNothing(entries: seq<Entry>, nextFlags: map<nat, Flags>)
    ensures Told([], entries, nextFlags, [])
  {
  }

  lemma ToldNext(out: seq<Response>, entries: seq<Entry>, nextFlags: map<nat, Flags>, indexes: seq<nat>, i: nat)
    requires Told(out, entries, nextFlags, indexes) && i < |entries|
    ensures i !in nextFlags ==> Told(out, entries, nextFlags, indexes + [i])
    ensures i in nextFlags ==>
        Told(out + [FetchFlags(i + 1, entries[i].uid, nextFlags[i])], entries, nextFlags, indexes + [i])
  {
  }

  ghost predicate ToldRight(x: Response, entries: seq<Entry>) {
    && x.FetchFlags? && 1 <= x.position <= |entries|
    && entries[x.position - 1].uid == x.uid && entries[x.position - 1].flags == x.flags
  }

  lemma AnsweredRight(out: seq<Response>, before: seq<Entry>, after: seq<Entry>, s: Store, numbers: NumSet,
      change: Flags -> Flags)
    requires Answered(out, after, s, numbers, change) && FlagsStored(before, after, s, numbers, change)
    ensures forall x :: x in out ==> ToldRight(x, after)
  {
  }

  // One FETCH for each selected message that exists, with its new flags, and no other.
  ghost predicate Answered(out: seq<Response>, entries: seq<Entry>, s: Store, numbers: NumSet,
      change: Flags -> Flags) {
    forall x :: x in out <==>
        exists i :: 0 <= i < |entries| && InSet(entries, numbers, i) && Storable(entries, s, i)
            && x == FetchFlags(i + 1, entries[i].uid, change(s.rows[entries[i].item].flags))
  }

  lemma AnsweredAre(out: seq<Response>, synced: seq<Entry>, s: Store, numbers: NumSet, change: Flags -> Flags,
      chosen: seq<nat>, nextFlags: map<nat, Flags>)
    requires Told(out, synced, nextFlags, chosen)
    requires forall i :: i in chosen <==> 0 <= i < |synced| && InSet(synced, numbers, i)
    requires forall i :: i in nextFlags <==> i in chosen && Storable(synced, s, i)
    requires forall i :: i in nextFlags ==>
        Storable(synced, s, i) && nextFlags[i] == change(s.rows[synced[i].item].flags)
    ensures Answered(out, WithFlags(synced, nextFlags), s, numbers, change)
  {
    var after := WithFlags(synced, nextFlags);
    assert forall i :: 0 <= i < |synced| ==>
        (InSet(synced, numbers, i) <==> InSet(after, numbers, i))
        && (Storable(synced, s, i) <==> Storable(after, s, i))
        && after[i].uid == synced[i].uid && after[i].item == synced[i].item;
    hide InSet, Storable, WithFlags;
    forall x ensures x in out <==>
        exists i :: 0 <= i < |after| && InSet(after, numbers, i) && Storable(after, s, i)
            && x == FetchFlags(i + 1, after[i].uid, change(s.rows[after[i].item].flags))
    {
      if x in out {
        var i :| i in chosen && i in nextFlags && i < |synced| && x == FetchFlags(i + 1, synced[i].uid, nextFlags[i]);
        assert InSet(after, numbers, i);
      }
      if i :|
        && 0 <= i < |after| && InSet(after, numbers, i) && Storable(after, s, i)
        && x == FetchFlags(i + 1, after[i].uid, change(s.rows[after[i].item].flags))
      {
        assert i in nextFlags && x == FetchFlags(i + 1, synced[i].uid, nextFlags[i]);
      }
    }
  }

  ghost function Grouped(order: seq<Flags>, groups: map<Flags, set<string>>): set<string> {
    set k, id | 0 <= k < |order| && order[k] in groups && id in groups[order[k]] :: id
  }

  ghost predicate GroupsBy(s: Store, order: seq<Flags>, groups: map<Flags, set<string>>, change: Flags -> Flags) {
    && (forall f :: f in groups <==> f in order)
    && (forall f, id :: f in groups && id in groups[f] ==> id in s.rows && change(s.rows[id].flags) == f)
  }

  // Same messages at the same positions; the selected ones with their own new flags.
  ghost predicate FlagsStored(before: seq<Entry>, after: seq<Entry>, s: Store, numbers: NumSet,
      change: Flags -> Flags) {
    && |after| == |before|
    && forall i :: 0 <= i < |after| ==>
        && after[i].uid == before[i].uid
        && after[i].flags == if InSet(after, numbers, i) && Storable(after, s, i)
                             then change(s.rows[after[i].item].flags) else before[i].flags
  }

  ghost predicate SameButGone(before: seq<Entry>, after: seq<Entry>) {
    && |before| == |after|
    && forall i :: 0 <= i < |before| ==> after[i].uid == before[i].uid && after[i].flags == before[i].flags
  }

  lemma SameFlagsStored(before: seq<Entry>, synced: seq<Entry>, after: seq<Entry>, s: Store, numbers: NumSet,
      change: Flags -> Flags)
    requires SameButGone(before, synced)
    requires FlagsStored(synced, after, s, numbers, change)
    ensures FlagsStored(before, after, s, numbers, change)
  {
  }

  lemma FlagsShown(synced: seq<Entry>, s: Store, numbers: NumSet, change: Flags -> Flags, chosen: seq<nat>,
      nextFlags: map<nat, Flags>)
    requires forall i :: i in chosen <==> 0 <= i < |synced| && InSet(synced, numbers, i)
    requires forall i :: i in nextFlags <==> i in chosen && Storable(synced, s, i)
    requires forall i :: i in nextFlags ==>
        Storable(synced, s, i) && nextFlags[i] == change(s.rows[synced[i].item].flags)
    ensures FlagsStored(synced, WithFlags(synced, nextFlags), s, numbers, change)
  {
  }

  lemma GroupedAre(entries: seq<Entry>, s: Store, numbers: NumSet, chosen: seq<nat>, nextFlags: map<nat, Flags>,
      ids: set<string>)
    requires forall i :: i in chosen <==> 0 <= i < |entries| && InSet(entries, numbers, i)
    requires forall i :: i in nextFlags <==> i in chosen && Storable(entries, s, i)
    requires forall id :: id in ids <==> exists i :: i in nextFlags && entries[i].item == id
    ensures ids == StoredItems(entries, s, numbers)
    ensures StoredItems(WithFlags(entries, nextFlags), s, numbers) == StoredItems(entries, s, numbers)
  {
    var after := WithFlags(entries, nextFlags);
    assert forall i :: 0 <= i < |entries| ==>
        (InSet(entries, numbers, i) <==> InSet(after, numbers, i))
            && (Storable(entries, s, i) <==> Storable(after, s, i));
    forall id | id in StoredItems(entries, s, numbers) ensures id in StoredItems(after, s, numbers) {
      var i :| 0 <= i < |entries| && InSet(entries, numbers, i) && Storable(entries, s, i) && entries[i].item == id;
      assert after[i].item == id;
    }
  }

  lemma InGrouped(order: seq<Flags>, groups: map<Flags, set<string>>, k: nat, id: string)
    requires k < |order| && order[k] in groups && id in groups[order[k]]
    ensures id in Grouped(order, groups)
  {
  }

  lemma GroupedNext(order: seq<Flags>, groups: map<Flags, set<string>>, k: nat)
    requires k < |order| && order[k] in groups
    ensures Grouped(order[..k + 1], groups) == Grouped(order[..k], groups) + groups[order[k]]
  {
    forall id | id in groups[order[k]] ensures id in Grouped(order[..k + 1], groups) {
      assert order[..k + 1][k] == order[k];
    }
    forall id | id in Grouped(order[..k], groups) ensures id in Grouped(order[..k + 1], groups) {
      var j :| 0 <= j < k && order[..k][j] in groups && id in groups[order[..k][j]];
      assert order[..k + 1][j] == order[..k][j];
    }
  }

  lemma GroupedPlus(order: seq<Flags>, groups: map<Flags, set<string>>, order': seq<Flags>,
      groups': map<Flags, set<string>>, f: Flags, id: string)
    requires forall g :: g in groups <==> g in order
    requires order' == (if f in groups then order else order + [f])
    requires groups' == groups[f := (if f in groups then groups[f] else {}) + {id}]
    ensures Grouped(order', groups') == Grouped(order, groups) + {id}
  {
    var all, all' := Grouped(order, groups), Grouped(order', groups');
    assert f in order';
    var at :| 0 <= at < |order'| && order'[at] == f;
    InGrouped(order', groups', at, id);
    forall x | x in all ensures x in all' {
      var k :| 0 <= k < |order| && order[k] in groups && x in groups[order[k]];
      assert order'[k] == order[k];
      InGrouped(order', groups', k, x);
    }
    forall x | x in all' && x != id ensures x in all {
      var k :| 0 <= k < |order'| && order'[k] in groups' && x in groups'[order'[k]];
      assert order'[k] in groups;
      var j :| 0 <= j < |order| && order[j] == order'[k];
      InGrouped(order, groups, j, x);
    }
  }

  class Session {
    const folder: string
    const folderName: string
    const mailbox: string
    var entries: seq<Entry>
    var lastSync: int
    var changes: nat  // queued notifications
    var pendingGone: bool
    var pendingExists: bool
    var pendingFlags: bool
    var readOnly: bool

    function V(): View
      reads this
    {
      View(entries, pendingGone, pendingExists, pendingFlags, lastSync)
    }

    // The folder the session has selected is still the one it resolved.
    ghost predicate Resolved(s: Store) {
      folder in s.folderIds && (folder in s.folders ==> s.folders[folder].name == folderName)
    }

    constructor Select(store: MailStore, mailbox: string, folder: string, readOnly: bool, now: int)
      requires UidsValid(store.State()) && folder in store.folders
      ensures this.folder == folder && this.mailbox == mailbox && Resolved(store.State())
      ensures IsLoad(store.State(), folder, entries)
      ensures V() == View(entries, false, false, false, now) && changes == 0
    {
      this.folder, this.mailbox, this.folderName := folder, mailbox, store.folders[folder].name;
      entries, lastSync, changes := [], now, 0;
      pendingGone, pendingExists, pendingFlags := false, false, false;
      this.readOnly := readOnly;
      new;
      entries := LoadEntries(store);
    }

    method LoadEntries(store: MailStore) returns (loaded: seq<Entry>)
      requires UidsValid(store.State())
      ensures IsLoad(store.State(), folder, loaded)
    {
      hide UidsValid, PartLoaded, IsLoad;
      var rows := store.rows;
      var todo := set id | id in rows && rows[id].folder == folder && rows[id].Live();
      loaded := [];
      PartLoadedFirst(store.State(), folder, todo);
      while todo != {}
        invariant PartLoaded(store.State(), folder, todo, loaded)
        decreases todo
      {
        PartLoadedRows(store.State(), folder, todo, loaded);
        SmallestUid(rows, todo);
        var id :| id in todo && forall other :: other in todo ==> rows[id].uid <= rows[other].uid;
        PartLoadedNext(store.State(), folder, todo, loaded, id);
        loaded := loaded + [EntryOf(id, rows[id])];
        todo := todo - {id};
      }
      PartLoadedLast(store.State(), folder, loaded);
    }

    // Empties the queue of notifications and says whether there was one.
    method DrainChanges() returns (changed: bool)
      modifies this`changes
      ensures changes == 0 && changed == (old(changes) > 0)
    {
      changed := false;
      while changes > 0
        invariant changed == (changes < old(changes)) && changes <= old(changes)
      {
        changes, changed := changes - 1, true;
      }
    }

    method Resync(store: MailStore, w: Writer, mode: Mode, now: int)
      returns (out: seq<Response>, ghost loaded: seq<Entry>)
      requires UidsValid(store.State())
      modifies this`entries, this`lastSync, this`changes, this`pendingGone, this`pendingExists, this`pendingFlags
      ensures changes == 0
      ensures Skips(old(V()), old(changes) > 0, w, mode, now) ==> V() == old(V()) && out == []
      ensures !Skips(old(V()), old(changes) > 0, w, mode, now) ==>
        && IsLoad(store.State(), folder, loaded)
        && V() == ResyncView(old(V()), loaded, w, mode, now)
        && out == ResyncSaid(old(entries), loaded, w, mode)
    {
      var changed := DrainChanges();
      out, loaded := [], [];
      var flushGone := mode.expunge && pendingGone;
      var flushExists := mode.extend && pendingExists;
      var flushFlags := !w.NoWriter? && pendingFlags;
      if !changed && !mode.force && !flushGone && !flushExists && !flushFlags && now - lastSync < STALE_VIEW_INTERVAL {
        return;
      }
      var found := LoadEntries(store);
      loaded := found;
      out := Rebuild(found, w, mode, now);
    }

    // Resync once the load is there.
    method Rebuild(found: seq<Entry>, w: Writer, mode: Mode, now: int) returns (out: seq<Response>)
      modifies this`entries, this`lastSync, this`pendingGone, this`pendingExists, this`pendingFlags
      ensures V() == ResyncView(old(V()), found, w, mode, now)
      ensures out == ResyncSaid(old(entries), found, w, mode)
    {
      lastSync := now;
      var kept, known;
      kept, out, known, pendingFlags := Reconcile(ByUid(found), w, mode);
      var next, appended;
      next, appended, pendingExists := Append(kept, found, known, w, mode);
      pendingGone := AnyGone(next);
      if appended {
        out := out + Written(w, Exists(|next|));
      }
      entries := next;
    }

    // The first loop of resync: old entries against the load.
    method Reconcile(byUid: map<nat, Entry>, w: Writer, mode: Mode)
      returns (next: seq<Entry>, out: seq<Response>, known: set<nat>, owesFlags: bool)
      ensures next == Kept(JudgeAll(entries, byUid, w, mode)) && out == Said(JudgeAll(entries, byUid, w, mode), w)
      ensures known == Known(entries)
      ensures owesFlags <==> w.NoWriter? && AnyDiffers(entries, byUid)
    {
      ghost var pass := JudgeAll(entries, byUid, w, mode);
      next, out, known, owesFlags := [], [], {}, false;
      NothingPassedBy(pass, w);
      AnyDiffersNone(byUid);
      assert entries[..0] == [];
      hide Kept, Said, Judge, AnyDiffers, Differs;
      for i := 0 to |entries|
        invariant known == Known(entries[..i])
        invariant next == Kept(pass[..i]) && out == Said(pass[..i], w)
        invariant owesFlags <==> w.NoWriter? && AnyDiffers(entries[..i], byUid)
      {
        assert entries[..i + 1] == entries[..i] + [entries[i]];
        PassNext(pass, i, w);
        KnownPlus(entries[..i], entries[i]);
        AnyDiffersPlus(entries[..i], entries[i], byUid);
        known := known + {entries[i].uid};
        var kept, said, owes := Consider(entries[i], next, byUid, w, mode);
        next, out, owesFlags := next + kept, out + said, owesFlags || owes;
      }
      assert entries[..|entries|] == entries && pass[..|pass|] == pass;
    }

    // One turn of that loop: what becomes of an entry, at the position after next.
    method Consider(prior: Entry, next: seq<Entry>, byUid: map<nat, Entry>, w: Writer, mode: Mode)
      returns (kept: seq<Entry>, said: seq<Response>, owes: bool)
      ensures kept == Left(Judge(prior, byUid, w, mode)) && said == Wrote(next, Judge(prior, byUid, w, mode), w)
      ensures owes <==> w.NoWriter? && Differs(prior, byUid)
    {
      kept, said, owes := [], [], false;
      if prior.uid in byUid {
        var current := byUid[prior.uid];
        if prior.flags != current.flags {
          if w.NoWriter? {
            current := current.(flags := prior.flags);
            owes := true;
          } else {
            said := Written(w, FetchFlags(|next| + 1, current.uid, current.flags));
          }
        }
        kept := [current];
      } else if mode.expunge {
        said := Written(w, Expunge(|next| + 1));
      } else {
        kept := [prior.(gone := true)];
      }
    }

    // The last loop of resync: what the load has and the view had not.
    method Append(kept: seq<Entry>, found: seq<Entry>, known: set<nat>, w: Writer, mode: Mode)
      returns (next: seq<Entry>, appended: bool, owed: bool)
      ensures next == kept + if mode.extend && !w.NoWriter? then Unknown(found, known) else []
      ensures appended <==> mode.extend && !w.NoWriter? && Unknown(found, known) != []
      ensures owed <==> !(mode.extend && !w.NoWriter?) && Unknown(found, known) != []
    {
      next, appended, owed := kept, false, false;
      for j := 0 to |found|
        invariant next == kept + if mode.extend && !w.NoWriter? then Unknown(found[..j], known) else []
        invariant appended <==> mode.extend && !w.NoWriter? && Unknown(found[..j], known) != []
        invariant owed <==> !(mode.extend && !w.NoWriter?) && Unknown(found[..j], known) != []
      {
        assert found[..j + 1][..j] == found[..j];
        if found[j].uid in known {
          continue;
        }
        if mode.extend && !w.NoWriter? {
          next, appended := next + [found[j]], true;
          continue;
        }
        owed := true;
      }
      assert found[..|found|] == found;
    }

    /** NOOP and the end of every command, unless the credentials were revoked: the
        real writer, EXISTS always allowed. */
    method Poll(store: MailStore, authorized: bool, allowExpunge: bool, now: int)
      returns (r: CommandResult, out: seq<Response>, ghost loaded: seq<Entry>)
      requires UidsValid(store.State())
      modifies this
      ensures r == if authorized then Done else Revoked
      ensures !authorized ==> V() == old(V()) && changes == old(changes) && out == []
      ensures authorized && Skips(old(V()), old(changes) > 0, FullWriter, Mode(allowExpunge, true, false), now) ==>
        V() == old(V()) && out == []
      ensures authorized && !Skips(old(V()), old(changes) > 0, FullWriter, Mode(allowExpunge, true, false), now) ==>
        && IsLoad(store.State(), folder, loaded)
        && V() == ResyncView(old(V()), loaded, FullWriter, Mode(allowExpunge, true, false), now)
        && out == ResyncSaid(old(entries), loaded, FullWriter, Mode(allowExpunge, true, false))
      ensures !allowExpunge ==> forall r :: r in out ==> !r.Expunge?
    {
      if !authorized {
        return Revoked, [], [];
      }
      r := Done;
      out, loaded := Resync(store, FullWriter, Mode(allowExpunge, true, false), now);
      if !allowExpunge {
        ResyncWithoutExpunge(old(entries), loaded, FullWriter, Mode(allowExpunge, true, false));
      }
    }

    // The indexes a number set selects, ascending, without repetition: a UID selects
    // its entry, sequence number n the n-th, a final '*' the last.
    method Selected(numbers: NumSet) returns (indexes: seq<nat>)
      ensures forall a, b :: 0 <= a < b < |indexes| ==> indexes[a] < indexes[b]
      ensures forall i :: i in indexes <==> 0 <= i < |entries| && InSet(entries, numbers, i)
      ensures forall i :: i in indexes <==>
          && 0 <= i < |entries|
          && ((numbers.byUid && numbers.member(entries[i].uid)) || (!numbers.byUid && numbers.member(i + 1))
              || (numbers.dynamic && i == |entries| - 1))
    {
      indexes := [];
      for i := 0 to |entries|
        invariant forall a, b :: 0 <= a < b < |indexes| ==> indexes[a] < indexes[b]
        invariant forall a :: 0 <= a < |indexes| ==> indexes[a] < i
        invariant forall k :: k in indexes <==>
            0 <= k < i && numbers.member(if numbers.byUid then entries[k].uid else k + 1)
      {
        if numbers.member(if numbers.byUid then entries[i].uid else i + 1) {
          indexes := indexes + [i];
        }
      }
      if numbers.dynamic && |entries| > 0 && |entries| - 1 !in indexes {
        forall a | 0 <= a < |indexes| ensures indexes[a] < |entries| - 1 {
          assert indexes[a] in indexes;
        }
        indexes := indexes + [|entries| - 1];
      }
    }

    // Out of the Trash for good; from anywhere else into the Trash. Others commit
    // before the row is read, before the Trash is looked up, and before the write.
    method ExpungeEntry(store: MailStore, e: Entry, env: nat -> seq<Op>, k: nat, now: int) returns (ok: bool)
      requires UidsValid(store.State()) && Resolved(store.State()) && OnlyAt(store.State(), e.item, folder, e.uid)
      modifies store
      ensures UidsValid(store.State()) && Later(old(store.State()), store.State()) && Resolved(store.State())
      ensures ok ==> Vacant(store.State(), folder, e.uid)
      ensures Quiet(env) ==> SettledMore(old(store.State()), store.State(), folderName)
      ensures Quiet(env) ==> OnlyRow(old(store.State()), store.State(), e.item)
      ensures ok && Quiet(env) ==> Settled(store.State(), e.item, folderName)
    {
      hide UidsValid, Later, OnlyAt, Vacant, Run, MoveOp, SoftDeleteOp, Settled, OnlyRow;
      ghost var begin := store.State();
      RunLater(begin, env(k));
      store.Interfere(env(k));
      ghost var read := store.State();
      QuietRun(env, k, begin);
      StillResolved(begin, read);
      OnlyAtLater(begin, read, e.item, folder, e.uid);
      var item := store.Get(e.item);
      OneRowEach(begin, Item(e.item, "", "", "", 0, false), "", now);
      if item.None? {
        return false;
      }
      RunLater(read, env(k + 1));
      store.Interfere(env(k + 1));
      ghost var s := store.State();
      QuietRun(env, k + 1, read);
      LaterTransitive(begin, read, s);
      StillResolved(read, s);
      if folderName == TRASH {
        var r := store.SoftDelete(item.value, now);
        ok := r.Ok?;
        SoftDeleteLater(s, item.value, now);
        LaterTransitive(begin, s, store.State());
        StillResolved(s, store.State());
        if ok {
          SoftDeleteVacates(read, s, e.item, folder, e.uid, now);
        }
        OneRowEach(s, item.value, "", now);
        if Quiet(env) {
          SoftDeleteSettles(s, e.item, now);
        }
      } else {
        var trash := FindFolder(store, item.value.mailbox, TRASH);
        if trash.None? {
          return false;
        }
        ok := ExpungeMove(store, read, e, item.value, trash.value, env(k + 2));
        LaterTransitive(begin, s, store.State());
        StillResolved(s, store.State());
        QuietRun(env, k + 2, s);
      }
    }

    // The move into the Trash that was just looked up.
    method ExpungeMove(store: MailStore, ghost read: Store, e: Entry, item: Item, trash: string, between: seq<Op>)
      returns (ok: bool)
      requires UidsValid(store.State()) && Resolved(store.State()) && Later(read, store.State())
      requires folderName != TRASH && trash in store.folders && store.folders[trash].name == TRASH
      requires OnlyAt(read, e.item, folder, e.uid) && e.item in read.rows && item == ItemOf(e.item, read.rows[e.item])
      modifies store
      ensures UidsValid(store.State()) && Later(old(store.State()), store.State())
      ensures ok ==> Vacant(store.State(), folder, e.uid)
      ensures between == [] && old(store.State()) == read ==> SettledMore(read, store.State(), folderName)
      ensures between == [] ==> OnlyRow(old(store.State()), store.State(), e.item)
      ensures between == [] && old(store.State()) == read && ok ==> Settled(store.State(), e.item, folderName)
    {
      hide UidsValid, Later, OnlyAt, Vacant, MoveOp, Settled, OnlyRow;
      ghost var found := store.State();
      assert trash != folder;
      RunLater(found, between);
      store.Interfere(between);
      ghost var s := store.State();
      LaterTransitive(read, found, s);
      var r := store.Move(item, trash);
      ok := r.Ok?;
      OneRowEach(s, item, trash, 0);
      MoveLater(s, item, trash);
      LaterTransitive(found, s, store.State());
      if ok {
        MoveVacates(read, s, e.item, folder, e.uid, trash);
      }
      if between == [] && found == read {
        MoveSettles(s, e.item, trash, folderName);
      }
    }

    lemma StillResolved(s: Store, t: Store)
      requires Resolved(s) && Later(s, t)
      ensures Resolved(t)
    {
    }

    /** EXPUNGE and UID EXPUNGE.  When all goes well exactly the entries marked \Deleted,
        and in the UID set if there is one, leave the list, each told at its place, and
        nothing is live at their UIDs any more; when a deletion fails, which only one of
        these can, the view keeps all entries, told or not.  No other row changes. */
    method ExpungeCommand(store: MailStore, uids: Option<set<nat>>, closing: bool, env: Schedule, fault: nat -> bool,
        now: int)
      returns (r: CommandResult, out: seq<Response>, ghost loaded: seq<Entry>, ghost failedAt: nat)
      requires UidsValid(store.State()) && Resolved(store.State())
      modifies this, store
      ensures UidsValid(store.State()) && Later(old(store.State()), store.State())
      ensures readOnly == old(readOnly)
      ensures readOnly ==>
        && r == (if closing then Done else ReadOnly) && out == []
        && V() == old(V()) && store.State() == old(store.State())
      ensures !readOnly ==> r != ReadOnly && IsLoad(old(store.State()), folder, loaded)
      ensures !readOnly && r == Done ==>
        var pass := ExpungePass(Synced(old(entries), loaded), uids);
        entries == Kept(pass) && out == SyncSaid(old(entries), loaded) + Said(pass, FullWriter)
      ensures !readOnly && r == Done ==> forall e :: e in entries <==>
          && e in Synced(old(entries), loaded)
          && (!e.flags.deleted || (uids.Some? && e.uid !in uids.value))
      ensures !readOnly && r == Done ==> forall e ::
          e in Synced(old(entries), loaded) && e.flags.deleted && (uids.Some? ==> e.uid in uids.value) ==>
          Vacant(store.State(), folder, e.uid) && (Quiet(env) ==> Settled(store.State(), e.item, folderName))
      ensures r == StoreError ==>
        var synced := Synced(old(entries), loaded);
        && entries == synced && failedAt < |synced| && synced[failedAt].flags.deleted
        && (uids.Some? ==> synced[failedAt].uid in uids.value)
        && out == SyncSaid(old(entries), loaded) + Said(ExpungePass(synced, uids)[..failedAt], FullWriter)
      ensures Quiet(env) ==> forall id :: id in old(store.rows) ==>
          var row := old(store.rows)[id];
          row.deletedAt.Some? || row.folder != folder || !row.flags.deleted || (uids.Some? && row.uid !in uids.value)
          ==> id in store.rows && store.rows[id] == row
    {
      hide UidsValid, Later, AllOnlyAt, DroppedVacant, AllSettled, IsLoad, ExpungePass, Kept, Said, ResyncEntries,
          ResyncSaid, Doomed, Vacant, Settled, Spared;
      ValidLater(store.State());
      out, loaded, failedAt := [], [], 0;
      if readOnly {
        return if closing then Done else ReadOnly, [], [], 0;
      }
      ghost var begin := store.State();
      out, loaded := Resync(store, ExpungeOnly, COMMAND_MODE, now);
      SyncedOnlyAt(begin, folder, old(entries), loaded);
      ghost var synced, said := entries, out;
      var ok, told, at := ExpungeDoomed(store, uids, env, fault, now);
      out, failedAt := out + told, at;
      r := if ok then Done else StoreError;
      if ok {
        ExpungeLeaves(synced, uids);
        DoomedVacant(store.State(), folder, folderName, synced, uids, Quiet(env));
      } else {
        DoomedMeans(synced[failedAt], uids);
      }
      if Quiet(env) {
        forall id | id in begin.rows &&
            (begin.rows[id].deletedAt.Some? || begin.rows[id].folder != folder || !begin.rows[id].flags.deleted
            || (uids.Some? && begin.rows[id].uid !in uids.value))
          ensures id in store.rows && store.rows[id] == begin.rows[id]
        {
          SparedRows(begin, folder, old(entries), loaded, uids, id);
          assert SameRow(begin, store.State(), id);
        }
      }
    }

    // The loop of EXPUNGE: deletes in the store and tells, entry by entry; the
    // view changes only at the end.
    method ExpungeDoomed(store: MailStore, uids: Option<set<nat>>, env: Schedule, fault: nat -> bool, now: int)
      returns (ok: bool, out: seq<Response>, ghost failedAt: nat)
      requires UidsValid(store.State()) && Resolved(store.State()) && AllOnlyAt(store.State(), folder, entries)
      modifies this`entries, this`changes, store
      ensures UidsValid(store.State()) && Later(old(store.State()), store.State())
      ensures ok ==>
        var pass := ExpungePass(old(entries), uids);
        && entries == Kept(pass) && out == Said(pass, FullWriter)
        && DroppedVacant(store.State(), folder, old(entries), pass, |pass|)
        && (Quiet(env) ==> AllSettled(store.State(), folderName, old(entries), pass, |pass|))
      ensures !ok ==>
        && entries == old(entries) && failedAt < |entries| && Doomed(entries[failedAt], uids)
        && out == Said(ExpungePass(entries, uids)[..failedAt], FullWriter)
      ensures Quiet(env) ==> SparedSame(old(store.State()), store.State(), old(entries), uids)
    {
      hide UidsValid, Later, OnlyAt, AllOnlyAt, Vacant, DroppedVacant, Settled, SettledMore, AllSettled, Expunged,
          Resolved, Kept, Said, Doomed, PassOver, OnlyRow, SparedSame;
      ghost var begin := store.State();
      ghost var pass := ExpungePass(entries, uids);
      var remaining: seq<Entry> := [];
      out := [];
      ExpungedFirst(begin, folder, folderName, entries, pass);
      SparedFirst(begin, entries, uids);
      NothingPassedBy(pass, FullWriter);
      for i := 0 to |entries|
        invariant entries == old(entries)
        invariant remaining == Kept(pass[..i]) && out == Said(pass[..i], FullWriter)
        invariant Resolved(store.State()) && Expunged(begin, store.State(), folder, entries, pass, i)
        invariant Quiet(env) ==> AllSettled(store.State(), folderName, entries, pass, i)
        invariant Quiet(env) ==> SparedSame(begin, store.State(), entries, uids)
      {
        PassNext(pass, i, FullWriter);
        ghost var before := store.State();
        ExpungedHere(begin, before, folder, entries, pass, i);
        if !Doomed(entries[i], uids) {
          ValidLater(before);
          remaining := remaining + [entries[i]];
        } else {
          var deleted := ExpungeEntry(store, entries[i], env, 3 * i, now);
          if Quiet(env) {
            SparedNext(begin, before, store.State(), entries, uids, entries[i]);
          }
          if !deleted || fault(i) {
            LaterTransitive(begin, before, store.State());
            return false, out, i;
          }
          out := out + [Expunge(|remaining| + 1)];
        }
        ExpungedNext(begin, before, store.State(), folder, entries, pass, i);
        if Quiet(env) {
          AllSettledNext(before, store.State(), folderName, entries, pass, i);
        }
      }
      ExpungedHere(begin, store.State(), folder, entries, pass, |entries|);
      assert pass[..|pass|] == pass;
      entries := remaining;
      var _ := DrainChanges();
      ok, failedAt := true, 0;
    }

    // The live rows behind the selected entries.
    method LoadLive(store: MailStore, indexes: seq<nat>) returns (found: map<string, Item>)
      requires forall i :: i in indexes ==> i < |entries|
      ensures forall id :: id in found ==>
          id in store.rows && store.rows[id].Live() && found[id] == ItemOf(id, store.rows[id])
      ensures forall i :: i in indexes && !entries[i].gone && IsLive(store.State(), entries[i].item) ==>
          entries[i].item in found
    {
      found := map[];
      for k := 0 to |indexes|
        invariant forall id :: id in found ==>
            id in store.rows && store.rows[id].Live() && found[id] == ItemOf(id, store.rows[id])
        invariant forall i :: i in indexes[..k] && i < |entries| && !entries[i].gone && IsLive(store.State(),
            entries[i].item) ==> entries[i].item in found
      {
        assert indexes[k] in indexes && indexes[..k + 1] == indexes[..k] + [indexes[k]];
        var e := entries[indexes[k]];
        if !e.gone && e.item in store.rows && store.rows[e.item].Live() {
          found := found[e.item := ItemOf(e.item, store.rows[e.item])];
        }
      }
      assert indexes[..|indexes|] == indexes;
    }

    // Moves the rows one by one; stops at the first failure.
    method MoveRows(store: MailStore, indexes: seq<nat>, target: string, env: Schedule, fault: nat -> bool)
      returns (ok: bool, removed: set<nat>)
      requires UidsValid(store.State()) && AllOnlyAt(store.State(), folder, entries) && target != folder
      requires forall i :: i in indexes ==> i < |entries| && !entries[i].gone
      modifies store
      ensures UidsValid(store.State()) && Later(old(store.State()), store.State())
      ensures forall i :: i in removed ==> i in indexes
      ensures ok ==> AllVacant(store.State(), folder, entries, indexes)
      ensures ok && Quiet(env) ==> AllArrived(store.State(), target, entries, removed)
      ensures ok && Quiet(env) ==>
          forall i :: i in indexes && IsLive(old(store.State()), entries[i].item) ==> i in removed
      ensures Quiet(env) ==> OthersSame(old(store.State()), store.State(), entries, indexes)
    {
      hide UidsValid, Later, OnlyAt, Vacant, Arrived, Undisturbed, OthersSame, OnlyRow;
      removed := {};
      ghost var begin := store.State();
      RunLater(begin, env(0));
      store.Interfere(env(0));
      var found := LoadLive(store, indexes);
      ghost var read := store.State();
      ValidLater(read);
      NoneMovedYet(read, target, entries);
      OthersFirst(begin, entries, indexes);
      AllOnlyAtLater(begin, read, folder, entries);
      for k := 0 to |indexes|
        invariant UidsValid(store.State()) && Later(read, store.State())
        invariant forall i :: i in removed ==> i in indexes
        invariant AllVacant(store.State(), folder, entries, indexes[..k])
        invariant Quiet(env) ==>
            Undisturbed(read, store.State(), target) && AllArrived(store.State(), target, entries, removed)
        invariant forall i :: i in indexes[..k] && IsLive(read, entries[i].item) ==> i in removed
        invariant Quiet(env) ==> OthersSame(begin, store.State(), entries, indexes)
      {
        var i := indexes[k];
        assert i in indexes && indexes[..k + 1] == indexes[..k] + [i];
        ghost var before := store.State();
        if entries[i].item !in found {
          DeadVacates(read, before, entries[i].item, folder, entries[i].uid);
          continue;
        }
        var ok := MoveOne(store, read, found[entries[i].item], entries[i].uid, target, env(k + 1));
        LaterTransitive(read, before, store.State());
        if Quiet(env) {
          OthersNext(begin, before, store.State(), entries, indexes, i);
        }
        if !ok || fault(k) {
          LaterTransitive(begin, read, store.State());
          return false, removed;
        }
        AllVacantLater(before, store.State(), folder, entries, indexes[..k]);
        removed := removed + {i};
      }
      assert indexes[..|indexes|] == indexes;
      LaterTransitive(begin, read, store.State());
      ok := true;
    }

    // One row, on the snapshot read before the loop.
    method MoveOne(store: MailStore, ghost read: Store, item: Item, ghost uid: nat, target: string, between: seq<Op>)
      returns (ok: bool)
      requires UidsValid(store.State()) && Later(read, store.State()) && target != folder
      requires item.id in read.rows && item == ItemOf(item.id, read.rows[item.id]) && OnlyAt(read, item.id, folder, uid)
      modifies store
      ensures UidsValid(store.State()) && Later(old(store.State()), store.State())
      ensures ok ==> Vacant(store.State(), folder, uid)
      ensures between == [] && Undisturbed(read, old(store.State()), target) ==>
          Undisturbed(read, store.State(), target) && ArrivedMore(old(store.State()), store.State(), target)
      ensures between == [] && Undisturbed(read, old(store.State()), target) && ok ==>
          Arrived(store.State(), item.id, target)
      ensures between == [] ==> OnlyRow(old(store.State()), store.State(), item.id)
    {
      hide OnlyRow;
      ghost var before := store.State();
      RunLater(before, between);
      store.Interfere(between);
      ghost var s := store.State();
      LaterTransitive(read, before, s);
      var moved := store.Move(item, target);
      OneRowEach(s, item, target, 0);
      MoveLater(s, item, target);
      LaterTransitive(before, s, store.State());
      if moved.Ok? {
        MoveVacates(read, s, item.id, folder, uid, target);
      }
      if between == [] && Undisturbed(read, s, target) {
        MoveArrives(read, s, item.id, target);
      }
      ok := moved.Ok?;
    }

    /** MOVE into another folder.  All rows are moved before the first EXPUNGE of
        the command is written, so a failure leaves the client in step. */
    method MoveCommand(store: MailStore, numbers: NumSet, target: string, env: Schedule, fault: nat -> bool, now: int)
      returns (r: CommandResult, out: seq<Response>, ghost loaded: seq<Entry>, ghost removed: set<nat>)
      requires UidsValid(store.State())
      modifies this, store
      ensures UidsValid(store.State()) && Later(old(store.State()), store.State())
      ensures readOnly == old(readOnly)
      ensures readOnly ==> r == ReadOnly && out == [] && V() == old(V()) && store.State() == old(store.State())
      ensures !readOnly ==> r != ReadOnly && IsLoad(old(store.State()), folder, loaded)
      ensures r == Done ==> Removed(old(entries), loaded, removed, entries, out)
      ensures r == Done ==> MovedOnly(Synced(old(entries), loaded), removed, SelectedUids(old(entries), numbers))
      ensures r == Done && target != folder ==>
          UidsVacant(store.State(), folder, Synced(old(entries), loaded), SelectedUids(old(entries), numbers))
      ensures r == Done && Quiet(env) ==> AllArrived(store.State(), target, Synced(old(entries), loaded), removed)
      ensures r == Done ==> forall e :: e in entries ==> e in Synced(old(entries), loaded)
      ensures r == Done ==> forall e ::
          e in Synced(old(entries), loaded) && e.uid !in SelectedUids(old(entries), numbers) ==> e in entries
      ensures r == Done && Quiet(env) && target != folder ==>
          forall e :: e in entries ==> e.uid !in SelectedUids(old(entries), numbers)
      ensures Quiet(env) ==> forall id :: id in old(store.rows) ==>
          var row := old(store.rows)[id];
          row.deletedAt.Some? || row.folder != folder || row.uid !in SelectedUids(old(entries), numbers)
          ==> id in store.rows && store.rows[id] == row
      ensures r == StoreError ==> entries == Synced(old(entries), loaded) && out == SyncSaid(old(entries), loaded)
    {
      hide UidsValid, Later, AllOnlyAt, AllArrived, UidsVacant, MovedOnly, IsLoad, NoneGone, Kept, Said, ResyncSaid,
          ResyncEntries, UnchosenSame, IsLive, SelectedUids, RemovePass;
      ValidLater(store.State());
      out, loaded, removed := [], [], {};
      if readOnly {
        return ReadOnly, [], [], {};
      }
      var chosen := Selected(numbers);
      var uids := set i | i in chosen :: entries[i].uid;
      SelectedAre(entries, numbers, chosen);
      ghost var begin := store.State();
      out, loaded := Resync(store, ExpungeOnly, COMMAND_MODE, now);
      ghost var synced, said := entries, out;
      NothingRemoved(synced);
      if target == folder {
        NothingMoved(store.State(), target, synced, uids);
        RemoveLeaves(synced, {}, uids);
        return Done, out, loaded, {};
      }
      SyncedOnlyAt(begin, folder, old(entries), loaded);
      SyncedNoneGone(begin, folder, old(entries), loaded);
      SyncedAllLive(begin, folder, old(entries), loaded);
      var ok, told, gone := MoveChosen(store, uids, target, env, fault);
      if Quiet(env) {
        forall id | id in begin.rows &&
            (begin.rows[id].deletedAt.Some? || begin.rows[id].folder != folder || begin.rows[id].uid !in uids)
          ensures id in store.rows && store.rows[id] == begin.rows[id]
        {
          UnchosenRows(begin, store.State(), folder, old(entries), loaded, uids, id);
        }
      }
      if !ok {
        return StoreError, out, loaded, {};
      }
      RemoveLeaves(synced, gone, uids);
      r, out, removed := Done, out + told, gone;
    }

    // MOVE after its resync: the chosen UIDs, whatever positions they have now.
    method MoveChosen(store: MailStore, uids: set<nat>, target: string, env: Schedule, fault: nat -> bool)
      returns (ok: bool, out: seq<Response>, removed: set<nat>)
      requires UidsValid(store.State()) && AllOnlyAt(store.State(), folder, entries) && NoneGone(entries)
          && target != folder
      modifies this`entries, this`changes, store
      ensures UidsValid(store.State()) && Later(old(store.State()), store.State())
      ensures !ok ==> entries == old(entries)
      ensures ok ==>
        && entries == Kept(RemovePass(old(entries), removed))
        && out == Said(RemovePass(old(entries), removed), FullWriter)
      ensures ok ==> MovedOnly(old(entries), removed, uids) && UidsVacant(store.State(), folder, old(entries), uids)
      ensures ok && Quiet(env) ==> AllArrived(store.State(), target, old(entries), removed)
      ensures ok && Quiet(env) && (forall e :: e in old(entries) ==> IsLive(old(store.State()), e.item)) ==>
          forall i :: 0 <= i < |old(entries)| && old(entries)[i].uid in uids ==> i in removed
      ensures Quiet(env) ==> UnchosenSame(old(store.State()), store.State(), old(entries), uids)
    {
      hide UidsValid, Later, AllOnlyAt, AllArrived, Vacant, OthersSame, IsLive, UnchosenSame, Kept, Said;
      ghost var begin := store.State();
      var indexes := Selected(NumSet(true, uid => uid in uids, false));
      out := [];
      ok, removed := MoveRows(store, indexes, target, env, fault);
      if Quiet(env) {
        UnchosenAre(begin, store.State(), entries, uids, indexes);
      }
      if !ok {
        return;
      }
      forall e | e in entries && e.uid in uids ensures Vacant(store.State(), folder, e.uid) {
        var i :| 0 <= i < |entries| && entries[i] == e;
        assert InSet(entries, NumSet(true, uid => uid in uids, false), i);
        assert i in indexes;
      }
      out := Compact(removed);
    }

    // The removed entries leave the list, each told at its place.
    method Compact(removed: set<nat>) returns (out: seq<Response>)
      modifies this`entries, this`changes
      ensures entries == Kept(RemovePass(old(entries), removed))
          && out == Said(RemovePass(old(entries), removed), FullWriter)
    {
      var remaining: seq<Entry> := [];
      out := [];
      ghost var pass := RemovePass(entries, removed);
      for i := 0 to |entries|
        invariant entries == old(entries)
        invariant remaining == Kept(pass[..i]) && out == Said(pass[..i], FullWriter)
      {
        PassNext(pass, i, FullWriter);
        if i in removed {
          out := out + [Expunge(|remaining| + 1)];
        } else {
          remaining := remaining + [entries[i]];
        }
      }
      assert pass[..|pass|] == pass;
      entries := remaining;
      var _ := DrainChanges();
    }

    // The first loop of STORE: the new flags of each selected message, grouped by value.
    method GroupFlags(store: MailStore, chosen: seq<nat>, change: Flags -> Flags)
      returns (nextFlags: map<nat, Flags>, order: seq<Flags>, groups: map<Flags, set<string>>)
      requires forall i :: i in chosen ==> i < |entries|
      ensures forall i :: i in nextFlags <==> i in chosen && Storable(entries, store.State(), i)
      ensures forall i :: i in nextFlags ==>
          Storable(entries, store.State(), i) && nextFlags[i] == change(store.rows[entries[i].item].flags)
      ensures GroupsBy(store.State(), order, groups, change)
      ensures forall id :: id in Grouped(order, groups) <==> exists i :: i in nextFlags && entries[i].item == id
    {
      nextFlags, order, groups := map[], [], map[];
      for k := 0 to |chosen|
        invariant forall i :: i in nextFlags <==> i in chosen[..k] && Storable(entries, store.State(), i)
        invariant forall i :: i in nextFlags ==>
            Storable(entries, store.State(), i) && nextFlags[i] == change(store.rows[entries[i].item].flags)
        invariant GroupsBy(store.State(), order, groups, change)
        invariant forall id :: id in Grouped(order, groups) <==> exists i :: i in nextFlags && entries[i].item == id
      {
        var i := chosen[k];
        assert chosen[..k + 1] == chosen[..k] + [i] && i in chosen;
        var e := entries[i];
        if e.gone || e.item !in store.rows {
          continue;
        }
        var next := change(store.rows[e.item].flags);
        ghost var order', groups', next' := order, groups, nextFlags;
        nextFlags := nextFlags[i := next];
        if next !in groups {
          groups := groups[next := {}];
          order := order + [next];
        }
        groups := groups[next := groups[next] + {e.item}];
        GroupedPlus(order', groups', order, groups, next, e.item);
        forall id ensures id in Grouped(order, groups) <==> exists j :: j in nextFlags && entries[j].item == id {
          if id in Grouped(order', groups') {
            var j :| j in next' && entries[j].item == id;
            assert j in nextFlags;
          }
        }
      }
      assert chosen[..|chosen|] == chosen;
    }

    /** STORE: whatever the grouping, every selected message that still exists gets
        its own new flags, in the store, in the view and, unless the command is
        silent, in one FETCH; the list keeps its length and its UIDs. */
    method StoreCommand(store: MailStore, numbers: NumSet, change: Flags -> Flags, silent: bool, now: int)
      returns (r: CommandResult, out: seq<Response>)
      requires UidsValid(store.State())
      modifies this, store
      ensures readOnly == old(readOnly)
      ensures readOnly ==> r == ReadOnly && out == [] && V() == old(V()) && store.State() == old(store.State())
      ensures !readOnly ==>
        && r == Done
        && store.State() == ChangeFlags(old(store.State()), StoredItems(entries, old(store.State()), numbers), change)
        && FlagsStored(old(entries), entries, old(store.State()), numbers, change)
      ensures forall x :: x in out ==> ToldRight(x, entries)
      ensures !readOnly ==> if silent then out == [] else Answered(out, entries, old(store.State()), numbers, change)
    {
      out := [];
      if readOnly {
        return ReadOnly, [];
      }
      hide UidsValid, Answered, ToldRight, FlagsStored, StoredItems, ChangeFlags;
      QuietSync(store, now);
      ghost var synced := entries;
      out := StoreSynced(store, numbers, change, silent);
      SameFlagsStored(old(entries), synced, entries, old(store.State()), numbers, change);
      if !silent {
        AnsweredRight(out, synced, entries, old(store.State()), numbers, change);
      }
      r := Done;
    }

    // The resync of FETCH, SEARCH, STORE and COPY.
    method QuietSync(store: MailStore, now: int)
      requires UidsValid(store.State())
      modifies this`entries, this`lastSync, this`changes, this`pendingGone, this`pendingExists, this`pendingFlags
      ensures SameButGone(old(entries), entries)
    {
      var out;
      ghost var loaded;
      out, loaded := Resync(store, NoWriter, Mode(false, false, false), now);
      QuietResync(old(entries), loaded, Mode(false, false, false));
    }

    // STORE after its resync.
    method StoreSynced(store: MailStore, numbers: NumSet, change: Flags -> Flags, silent: bool)
      returns (out: seq<Response>)
      modifies this`entries, this`changes, store
      ensures store.State() ==
        ChangeFlags(old(store.State()), StoredItems(entries, old(store.State()), numbers), change)
      ensures FlagsStored(old(entries), entries, old(store.State()), numbers, change)
      ensures if silent then out == [] else Answered(out, entries, old(store.State()), numbers, change)
    {
      hide Grouped, GroupsBy, Told, Answered, FlagsStored, WithFlags, StoredItems, ChangeFlags, Storable, InSet;
      ghost var begin, synced := store.State(), entries;
      var chosen := Selected(numbers);
      var nextFlags, order, groups := GroupFlags(store, chosen, change);
      WriteGroups(store, order, groups, change);
      out := ShowFlags(chosen, nextFlags, silent);
      GroupedAre(synced, begin, numbers, chosen, nextFlags, Grouped(order, groups));
      FlagsShown(synced, begin, numbers, change, chosen, nextFlags);
      if !silent {
        AnsweredAre(out, synced, begin, numbers, change, chosen, nextFlags);
      }
      var _ := DrainChanges();
    }

    // One update per group.
    method WriteGroups(store: MailStore, order: seq<Flags>, groups: map<Flags, set<string>>,
        ghost change: Flags -> Flags)
      requires GroupsBy(store.State(), order, groups, change)
      modifies store
      ensures store.State() == ChangeFlags(old(store.State()), Grouped(order, groups), change)
    {
      ghost var begin := store.State();
      ghost var done: set<string> := {};
      assert ChangeFlags(begin, {}, change).rows == begin.rows;
      for k := 0 to |order|
        invariant done == Grouped(order[..k], groups)
        invariant store.State() == ChangeFlags(begin, done, change)
      {
        assert order[k] in order && order[..k + 1][..k] == order[..k];
        var ids := groups[order[k]];
        GroupedNext(order, groups, k);
        assert SetFlagsOp(ChangeFlags(begin, done, change), ids, order[k]).rows ==
          ChangeFlags(begin, done + ids, change).rows;
        store.SetFlagsMany(ids, order[k]);
        done := done + ids;
      }
      assert order[..|order|] == order;
    }

    // The last loop of STORE: the view takes the new flags, the client is told.
    method ShowFlags(chosen: seq<nat>, nextFlags: map<nat, Flags>, silent: bool) returns (out: seq<Response>)
      requires forall a, b :: 0 <= a < b < |chosen| ==> chosen[a] < chosen[b]
      requires forall i :: i in chosen ==> i < |entries|
      requires forall i :: i in nextFlags ==> i in chosen
      modifies this`entries
      ensures entries == WithFlags(old(entries), nextFlags)
      ensures if silent then out == [] else Told(out, old(entries), nextFlags, chosen)
    {
      hide Told;
      out := [];
      ghost var final := WithFlags(entries, nextFlags);
      ToldNothing(entries, nextFlags);
      for k := 0 to |chosen|
        invariant |entries| == |final|
        invariant forall i :: 0 <= i < |entries| ==>
            entries[i] == if i in chosen[k..] then old(entries)[i] else final[i]
        invariant if silent then out == [] else Told(out, old(entries), nextFlags, chosen[..k])
      {
        var i := chosen[k];
        assert chosen[k..] == [i] + chosen[k + 1..] && i in chosen && i !in chosen[k + 1..];
        assert chosen[..k + 1] == chosen[..k] + [i];
        if !silent {
          ToldNext(out, old(entries), nextFlags, chosen[..k], i);
        }
        if i !in nextFlags {
          continue;
        }
        entries := entries[i := entries[i].(flags := nextFlags[i])];
        if !silent {
          out := out + [FetchFlags(i + 1, entries[i].uid, nextFlags[i])];
        }
      }
      assert chosen[..|chosen|] == chosen;
      assert entries == final;
    }

    method FindFolder(store: MailStore, mailbox: string, name: string) returns (r: Option<string>)
      ensures r.Some? ==>
        r.value in store.folders && store.folders[r.value].name == name && store.folders[r.value].mailbox == mailbox
      ensures r.None? ==> forall f :: f in store.folders ==>
          store.folders[f].name != name || store.folders[f].mailbox != mailbox
    {
      if f :| f in store.folders && store.folders[f].name == name && store.folders[f].mailbox == mailbox {
        return Some(f);
      }
      return None;
    }
  }
}

/** Batch deletion on values: what a set of rows looks like once marked, and why
    deleting in batches ends where deleting one by one does. */
module BatchDelete {
  import opened Common
  import opened Sums
  import opened MailModel
  import opened ByteCount

  function IdsToDelete(items: seq<Item>): set<string> {
    set item | item in items && !item.deleted :: item.id
  }

  function Elements(ids: seq<string>): set<string> {
    set id | id in ids
  }

  function MarkAll(s: Store, ids: set<string>, now: int): Store {
    s.(rows := map id | id in s.rows ::
         if id in ids && s.rows[id].Live() then s.rows[id].(deletedAt := Some(now)) else s.rows[id])
  }

  // Equal but for the byte counters.
  ghost predicate SameButUsed(s: Store, t: Store) {
    && s.folders == t.folders && s.folderIds == t.folderIds && s.messages == t.messages && s.rows == t.rows
        && s.jobs == t.jobs
    && s.mailboxes.Keys == t.mailboxes.Keys
    && forall m :: m in s.mailboxes ==> s.mailboxes[m].quota == t.mailboxes[m].quota
  }

  lemma MarkNone(s: Store, now: int)
    ensures MarkAll(s, {}, now) == s
  {
    assert MarkAll(s, {}, now).rows == s.rows;
  }

  // Only live rows can be marked.
  lemma MarkLive(s: Store, ids: set<string>, live: set<string>, now: int)
    requires live == set id | id in ids && id in s.rows && s.rows[id].Live()
    ensures MarkAll(s, ids, now) == MarkAll(s, live, now)
  {
    assert MarkAll(s, ids, now).rows == MarkAll(s, live, now).rows;
  }

  lemma MarkTwice(s: Store, a: set<string>, b: set<string>, now: int)
    ensures MarkAll(MarkAll(s, a, now), b, now) == MarkAll(s, a + b, now)
  {
    assert MarkAll(MarkAll(s, a, now), b, now).rows == MarkAll(s, a + b, now).rows;
  }

  lemma DriftReflexive(s: Store)
    ensures DriftKept(s, s)
  {
  }

  lemma DriftTransitive(s: Store, t: Store, u: Store)
    requires DriftKept(s, t) && DriftKept(t, u)
    ensures DriftKept(s, u)
  {
  }

  lemma MarkAgain(s: Store, t: Store, a: set<string>, b: set<string>, now: int)
    requires SameButUsed(t, MarkAll(s, a, now))
    ensures SameButUsed(MarkAll(t, b, now), MarkAll(s, a + b, now))
  {
    MarkTwice(s, a, b, now);
    assert MarkAll(t, b, now).rows == MarkAll(MarkAll(s, a, now), b, now).rows;
  }

  lemma MarkKeeps(s: Store, ids: set<string>, now: int)
    ensures MarkAll(s, ids, now).mailboxes == s.mailboxes && MarkAll(s, ids, now).rows.Keys == s.rows.Keys
    ensures forall id :: id in s.rows ==>
        MarkAll(s, ids, now).rows[id].(deletedAt := None) == s.rows[id].(deletedAt := None)
  {
  }

  lemma MarkOne(s: Store, done: set<string>, id: string, mailbox: string, now: int)
    requires id in s.rows && s.rows[id].Live() && s.rows[id].mailbox == mailbox && id !in done
    ensures LiveBytes(MarkAll(s, done + {id}, now), mailbox)
         == LiveBytes(MarkAll(s, done, now), mailbox) - SizeOf(s, s.rows[id].message)
  {
    OneRow(MarkAll(s, done, now), MarkAll(s, done + {id}, now), mailbox, id);
  }

  // Rows of other mailboxes are out of reach.
  lemma MarkElsewhere(s: Store, ids: set<string>, mailbox: string, now: int)
    requires forall id :: id in ids && id in s.rows ==> s.rows[id].mailbox != mailbox
    ensures LiveBytes(MarkAll(s, ids, now), mailbox) == LiveBytes(s, mailbox)
  {
    SameWeights(s, MarkAll(s, ids, now), mailbox);
  }

  // Taking what the marked rows weighed off the counter keeps every drift.
  lemma BatchDrift(begin: Store, marked: Store, end: Store, ids: set<string>, mailbox: string, freed: int, now: int)
    requires marked == MarkAll(begin, ids, now) && freed == LiveBytes(begin, mailbox) - LiveBytes(marked, mailbox)
    requires forall id :: id in ids && id in begin.rows ==> begin.rows[id].mailbox == mailbox
    requires if freed == 0 then end == marked else mailbox in marked.mailboxes && end == AddUsed(marked, mailbox,
        -freed)
    ensures SameButUsed(end, MarkAll(begin, ids, now)) && DriftKept(begin, end)
  {
    forall m ensures Drift(end, m) == Drift(begin, m) {
      SameWeights(marked, end, m);
      if m != mailbox {
        MarkElsewhere(begin, ids, m, now);
      }
    }
  }

  lemma {:induction false} DeleteEachMarks(s: Store, items: seq<Item>, now: int)
    requires forall item :: item in items ==> item.mailbox in s.mailboxes
    ensures SameButUsed(DeleteEach(s, items, now), MarkAll(s, IdsToDelete(items), now))
    decreases |items|
  {
    if items == [] {
      MarkNone(s, now);
    } else {
      var t := SoftDeleteOp(s, items[0], now).store;
      var one := IdsToDelete([items[0]]);
      assert t.rows == MarkAll(s, one, now).rows;
      DeleteEachMarks(t, items[1..], now);
      assert IdsToDelete(items) == one + IdsToDelete(items[1..]) by {
        assert items == [items[0]] + items[1..];
      }
      MarkTwice(s, one, IdsToDelete(items[1..]), now);
      assert MarkAll(t, IdsToDelete(items[1..]), now).rows
          == MarkAll(MarkAll(s, one, now), IdsToDelete(items[1..]), now).rows;
    }
  }

  // Marked rows and a kept drift leave no freedom in the counters.
  lemma SameDriftSameStore(s: Store, t: Store, u: Store)
    requires SameButUsed(t, u) && DriftKept(s, t) && DriftKept(s, u)
    ensures t == u
  {
    forall m | m in t.mailboxes ensures t.mailboxes[m] == u.mailboxes[m] {
      assert Drift(t, m) == Drift(u, m);
      SameWeights(t, u, m);
    }
    assert t.mailboxes == u.mailboxes;
  }
}

/** The mail store object.  Each public method is one transaction, or, for the
    batch deletion, one transaction per mailbox. */
module MailStorage {
  import opened Common
  import opened Sums
  import opened MailModel
  import opened ByteCount
  import opened BatchDelete

  const BATCH_SIZE := 500

  function PurgeStatement(mailbox: string, k: nat): Op {
    if k == 0 then DoPurgeRows(mailbox) else if k == 1 then DoPurgeFolders(mailbox) else DoDropMailbox(mailbox)
  }

  // The transactions up to the k-th statement of a purge, others' included.
  function PurgeRun(mailbox: string, env: nat -> seq<Op>, k: nat): seq<Op> {
    if k == 0 then [] else PurgeRun(mailbox, env, k - 1) + env(k - 1) + [PurgeStatement(mailbox, k - 1)]
  }

  lemma PurgeNone(s: Store, mailbox: string, env: nat -> seq<Op>)
    ensures Run(s, PurgeRun(mailbox, env, 0)) == s
  {
  }

  lemma PurgeNext(s: Store, mailbox: string, env: nat -> seq<Op>, k: nat)
    ensures Run(s, PurgeRun(mailbox, env, k + 1))
         == Apply(Run(Run(s, PurgeRun(mailbox, env, k)), env(k)), PurgeStatement(mailbox, k))
  {
    var before := PurgeRun(mailbox, env, k);
    RunAppend(s, before + env(k), [PurgeStatement(mailbox, k)]);
    RunAppend(s, before, env(k));
    var t := Run(s, before + env(k));
    assert Run(t, [PurgeStatement(mailbox, k)]) == Run(Apply(t, PurgeStatement(mailbox, k)), []);
  }

  /** Undisturbed, a purge takes the mailbox's rows, then its folders, then itself. */
  lemma PurgeInOrder(s: Store, mailbox: string, env: nat -> seq<Op>)
    requires forall k :: env(k) == []
    ensures
      var first := Run(s, PurgeRun(mailbox, env, 1));
      && first.folders == s.folders && first.mailboxes == s.mailboxes
      && forall r :: r in first.rows <==> r in s.rows && s.rows[r].mailbox != mailbox
    ensures
      var second := Run(s, PurgeRun(mailbox, env, 2));
      && second.mailboxes == s.mailboxes
      && (forall r :: r in second.rows <==> r in s.rows && s.rows[r].mailbox != mailbox)
      && forall f :: f in second.folders <==> f in s.folders && s.folders[f].mailbox != mailbox
    ensures
      var third := Run(s, PurgeRun(mailbox, env, 3));
      && (forall r :: r in third.rows <==> r in s.rows && s.rows[r].mailbox != mailbox)
      && (forall f :: f in third.folders <==> f in s.folders && s.folders[f].mailbox != mailbox)
      && forall m :: m in third.mailboxes <==> m in s.mailboxes && m != mailbox
  {
    hide PurgeRun, Run;
    var first, second := PurgeRowsOp(s, mailbox), PurgeFoldersOp(PurgeRowsOp(s, mailbox), mailbox);
    PurgeNone(s, mailbox, env);
    UndisturbedNext(s, mailbox, env, 0, s);
    UndisturbedNext(s, mailbox, env, 1, first);
    UndisturbedNext(s, mailbox, env, 2, second);
  }

  lemma UndisturbedNext(s: Store, mailbox: string, env: nat -> seq<Op>, k: nat, t: Store)
    requires env(k) == [] && Run(s, PurgeRun(mailbox, env, k)) == t
    ensures Run(s, PurgeRun(mailbox, env, k + 1)) == Apply(t, PurgeStatement(mailbox, k))
  {
    hide PurgeRun, Apply;
    PurgeNext(s, mailbox, env, k);
  }

  class MailStore {
    var folders: map<string, Folder>
    var folderIds: set<string>
    var mailboxes: map<string, Mailbox>
    var messages: map<string, Message>
    var rows: map<string, Row>
    var jobs: map<string, Job>

    constructor (initial: Store)
      ensures State() == initial
    {
      folders, folderIds := initial.folders, initial.folderIds;
      mailboxes, messages := initial.mailboxes, initial.messages;
      rows, jobs := initial.rows, initial.jobs;
    }

    function State(): Store
      reads this
    {
      Store(folders, folderIds, mailboxes, messages, rows, jobs)
    }

    // Rollback: the tables as they were when the transaction began.
    method Restore(saved: Store)
      modifies this
      ensures State() == saved
    {
      folders, folderIds := saved.folders, saved.folderIds;
      mailboxes, messages := saved.mailboxes, saved.messages;
      rows, jobs := saved.rows, saved.jobs;
    }

    method AllocateFolderUid(folder: string) returns (r: Result<nat, Error>)
      modifies this`folders
      ensures folder !in old(folders) ==> r == Err(NotFound) && State() == old(State())
      ensures folder in old(folders) ==>
        r == Ok(old(folders)[folder].uidNext) && State() == AllocateUid(old(State()), folder)
    {
      if folder !in folders {
        return Err(NotFound);
      }
      var updated := folders[folder].(uidNext := folders[folder].uidNext + 1);
      folders := folders[folder := updated];
      return Ok(updated.uidNext - 1);
    }

    method AddUsedBytes(mailbox: string, size: int, enforceQuota: bool) returns (r: Result<(), Error>)
      modifies this`mailboxes
      ensures r.Ok? <==> mailbox in old(mailboxes) && (enforceQuota ==> Fits(old(mailboxes)[mailbox], size))
      ensures r.Ok? ==> State() == AddUsed(old(State()), mailbox, size)
      ensures r.Err? ==> State() == old(State()) && (r.error == OverQuota <==> mailbox in mailboxes)
      ensures r.Err? ==> r.error in {NotFound, OverQuota}
    {
      if mailbox !in mailboxes {
        return Err(NotFound);
      }
      var m := mailboxes[mailbox];
      if enforceQuota && !(m.quota <= 0 || m.used + size <= m.quota) {
        return Err(OverQuota);
      }
      mailboxes := mailboxes[mailbox := m.(used := m.used + size)];
      return Ok(());
    }

    method AttachInTx(p: Attachment) returns (r: Result<nat, Error>)
      modifies this
      ensures r == AttachOp(old(State()), p).result
      ensures r.Ok? ==> State() == AttachOp(old(State()), p).store
    {
      var uid := AllocateFolderUid(p.folder);
      if uid.Err? {
        return uid;
      }
      if p.id in rows {
        return Err(Conflict);
      }
      rows := rows[p.id := Row(p.mailbox, p.message, p.folder, uid.value, p.flags, None)];
      var counted := AddUsedBytes(p.mailbox, p.size, p.enforceQuota);
      if counted.Err? {
        return Err(counted.error);
      }
      return uid;
    }

    // A failed attach leaves no trace; an enforced one never passes a positive quota.
    method Attach(p: Attachment) returns (r: Result<nat, Error>)
      modifies this
      ensures State() == AttachOp(old(State()), p).store && r == AttachOp(old(State()), p).result
      ensures r.Err? ==> State() == old(State())
      ensures r.Ok? && p.enforceQuota && mailboxes[p.mailbox].quota > 0
          ==> mailboxes[p.mailbox].used <= mailboxes[p.mailbox].quota
    {
      var begin := State();
      r := AttachInTx(p);
      if r.Err? {
        Restore(begin);
      }
    }

    method Move(item: Item, folder: string) returns (r: Result<nat, Error>)
      modifies this
      ensures State() == MoveOp(old(State()), item, folder).store && r == MoveOp(old(State()), item, folder).result
    {
      if item.folder == folder && !item.deleted {
        return Ok(item.uid);
      }
      var begin := State();
      var uid := AllocateFolderUid(folder);
      if uid.Err? {
        return uid;
      }
      if item.id !in rows {
        Restore(begin);
        return Err(NotFound);
      }
      var row := rows[item.id];
      rows := rows[item.id := row.(folder := folder, uid := uid.value, flags := row.flags.(deleted := false),
          deletedAt := None)];
      if item.deleted {
        var counted := AddUsedBytes(item.mailbox, SizeOf(State(), item.message), false);
        if counted.Err? {
          Restore(begin);
          return Err(counted.error);
        }
      }
      return uid;
    }

    method SoftDelete(item: Item, now: int) returns (r: Result<nat, Error>)
      modifies this
      ensures State() == SoftDeleteOp(old(State()), item, now).store
          && r == SoftDeleteOp(old(State()), item, now).result
    {
      if item.deleted || item.id !in rows || !rows[item.id].Live() {
        return Ok(0);
      }
      var begin := State();
      rows := rows[item.id := rows[item.id].(deletedAt := Some(now))];
      var counted := AddUsedBytes(item.mailbox, -SizeOf(State(), item.message), false);
      if counted.Err? {
        Restore(begin);
        return Err(counted.error);
      }
      return Ok(0);
    }

    // The sizes of the marked rows, added up in any order.
    method SumSizes(ghost before: Store, live: set<string>, mailbox: string, now: int) returns (freed: int)
      requires State() == MarkAll(before, live, now)
      requires forall id :: id in live ==>
          id in before.rows && before.rows[id].Live() && before.rows[id].mailbox == mailbox
      ensures freed == LiveBytes(before, mailbox) - LiveBytes(State(), mailbox)
    {
      freed := 0;
      var todo := live;
      ghost var done := {};
      MarkNone(before, now);
      while todo != {}
        invariant todo <= live && done == live - todo
        invariant freed == LiveBytes(before, mailbox) - LiveBytes(MarkAll(before, done, now), mailbox)
        decreases todo
      {
        var id :| id in todo;
        MarkOne(before, done, id, mailbox, now);
        freed := freed + SizeOf(State(), rows[id].message);
        todo, done := todo - {id}, done + {id};
      }
      assert done == live;
    }

    // One chunk: find its live rows, mark them, add up what they weighed.
    method MarkChunk(chunk: seq<string>, mailbox: string, now: int) returns (freed: int)
      requires forall id :: id in chunk && id in rows ==> rows[id].mailbox == mailbox
      modifies this`rows
      ensures State() == MarkAll(old(State()), Elements(chunk), now)
      ensures freed == LiveBytes(old(State()), mailbox) - LiveBytes(State(), mailbox)
    {
      ghost var before := State();
      var live := set id | id in chunk && id in rows && rows[id].Live();
      MarkLive(before, Elements(chunk), live, now);
      if live == {} {
        MarkNone(before, now);
        return 0;
      }
      rows := map id | id in rows ::
        if id in live && rows[id].Live() then rows[id].(deletedAt := Some(now)) else rows[id];
      freed := SumSizes(before, live, mailbox, now);
    }

    method SoftDeleteBatchInTx(mailbox: string, ids: seq<string>, now: int) returns (ok: bool)
      requires forall id :: id in ids && id in rows ==> rows[id].mailbox == mailbox
      modifies this`rows, this`mailboxes
      ensures mailbox in old(mailboxes) ==> ok
      ensures ok ==> SameButUsed(State(), MarkAll(old(State()), Elements(ids), now)) && DriftKept(old(State()), State())
    {
      hide MarkAll, LiveBytes, DriftKept, SameButUsed;
      ghost var begin := State();
      var freed := 0;
      var start := 0;
      MarkNone(begin, now);
      assert Elements(ids[..0]) == {};
      while start < |ids|
        invariant 0 <= start
        invariant State() == MarkAll(begin, Elements(ids[..Min(start, |ids|)]), now)
        invariant freed == LiveBytes(begin, mailbox) - LiveBytes(State(), mailbox)
      {
        var end := Min(start + BATCH_SIZE, |ids|);
        MarkKeeps(begin, Elements(ids[..start]), now);
        var size := MarkChunk(ids[start..end], mailbox, now);
        MarkTwice(begin, Elements(ids[..start]), Elements(ids[start..end]), now);
        assert ids[..end] == ids[..start] + ids[start..end];
        assert Elements(ids[..end]) == Elements(ids[..start]) + Elements(ids[start..end]);
        freed := freed + size;
        start := start + BATCH_SIZE;
      }
      assert ids[..Min(start, |ids|)] == ids;
      ghost var marked := State();
      MarkKeeps(begin, Elements(ids), now);
      if freed != 0 {
        if mailbox !in mailboxes {
          return false;
        }
        mailboxes := mailboxes[mailbox := mailboxes[mailbox].(used := mailboxes[mailbox].used - freed)];
        assert State() == AddUsed(marked, mailbox, -freed);
      }
      BatchDrift(begin, marked, State(), Elements(ids), mailbox, freed, now);
      return true;
    }

    method SoftDeleteBatch(mailbox: string, items: seq<Item>, now: int) returns (ok: bool)
      requires forall item :: item in items ==> !item.deleted && item.mailbox == mailbox && SameRow(State(), item)
      modifies this
      ensures mailbox in old(mailboxes) ==> ok
      ensures ok ==> SameButUsed(State(), MarkAll(old(State()), IdsToDelete(items), now)) && DriftKept(old(State()),
          State())
      ensures !ok ==> State() == old(State())
    {
      var ids := [];
      for i := 0 to |items|
        invariant ids == seq(i, k requires 0 <= k < |items| => items[k].id)
      {
        ids := ids + [items[i].id];
      }
      forall id | id in ids && id in rows ensures rows[id].mailbox == mailbox {
        var k :| 0 <= k < |ids| && ids[k] == id;
        assert items[k] in items;
      }
      assert Elements(ids) == IdsToDelete(items) by {
        forall item | item in items ensures item.id in ids {
          var k :| 0 <= k < |items| && items[k] == item;
          assert ids[k] == item.id;
        }
      }
      var begin := State();
      ok := SoftDeleteBatchInTx(mailbox, ids, now);
      if !ok {
        Restore(begin);
      }
    }

    // The items to delete, by mailbox, and the mailboxes in order of first appearance.
    method GroupByMailbox(items: seq<Item>) returns (order: seq<string>, byMailbox: map<string, seq<Item>>)
      ensures forall k :: 0 <= k < |order| ==> order[k] in byMailbox && byMailbox[order[k]] != []
      ensures forall m, item :: m in byMailbox && item in byMailbox[m] ==>
          item in items && !item.deleted && item.mailbox == m
      ensures forall item :: item in items && !item.deleted ==>
          item.mailbox in order && item.mailbox in byMailbox && item in byMailbox[item.mailbox]
    {
      order, byMailbox := [], map[];
      for i := 0 to |items|
        invariant forall k :: 0 <= k < |order| ==> order[k] in byMailbox && byMailbox[order[k]] != []
        invariant forall m :: m in byMailbox ==> m in order
        invariant forall m, item :: m in byMailbox && item in byMailbox[m] ==>
            item in items && !item.deleted && item.mailbox == m
        invariant forall k :: 0 <= k < i && !items[k].deleted ==>
            items[k].mailbox in byMailbox && items[k] in byMailbox[items[k].mailbox]
      {
        var item := items[i];
        if item.deleted {
          continue;
        }
        if item.mailbox !in byMailbox {
          order := order + [item.mailbox];
          byMailbox := byMailbox[item.mailbox := []];
        }
        byMailbox := byMailbox[item.mailbox := byMailbox[item.mailbox] + [item]];
      }
    }

    /** Deleting in batches, by mailbox and by chunk, ends in the very store that
        deleting the items one at a time would, repeated and already deleted items
        included. */
    method SoftDeleteMany(items: seq<Item>, now: int) returns (ok: bool)
      requires forall item :: item in items ==> SameRow(State(), item)
      modifies this
      ensures DriftKept(old(State()), State())
      ensures (forall item :: item in items ==> item.mailbox in old(mailboxes))
          ==> ok && State() == DeleteEach(old(State()), items, now)
    {
      hide MarkAll, DriftKept;
      ghost var begin := State();
      var order, byMailbox := GroupByMailbox(items);
      ghost var marked: set<string> := {};
      MarkNone(begin, now);
      DriftReflexive(begin);
      for j := 0 to |order|
        invariant SameButUsed(State(), MarkAll(begin, marked, now)) && DriftKept(begin, State())
        invariant marked <= IdsToDelete(items)
        invariant forall k :: 0 <= k < j ==> IdsToDelete(byMailbox[order[k]]) <= marked
      {
        var batch := byMailbox[order[j]];
        MarkKeeps(begin, marked, now);
        assert batch[0] in items && batch[0].mailbox == order[j];
        ghost var before := State();
        ok := SoftDeleteBatch(order[j], batch, now);
        if !ok {
          return;
        }
        MarkAgain(begin, before, marked, IdsToDelete(batch), now);
        DriftTransitive(begin, before, State());
        marked := marked + IdsToDelete(batch);
      }
      ok := true;
      forall item | item in items && !item.deleted ensures item.id in marked {
        var k :| 0 <= k < |order| && order[k] == item.mailbox;
        assert item in byMailbox[order[k]];
      }
      assert marked == IdsToDelete(items);
      if forall item :: item in items ==> item.mailbox in begin.mailboxes {
        DeleteEachMarks(begin, items, now);
        DeleteEachDrift(begin, items, now);
        SameDriftSameStore(begin, State(), DeleteEach(begin, items, now));
      }
    }

    method SetFlagsMany(ids: set<string>, flags: Flags)
      modifies this`rows
      ensures State() == SetFlagsOp(old(State()), ids, flags)
      ensures rows.Keys == old(rows).Keys && forall id :: id in rows ==>
        rows[id] == if id in ids then old(rows)[id].(flags := flags) else old(rows)[id]
    {
      rows := map id | id in rows :: if id in ids then rows[id].(flags := flags) else rows[id];
    }

    // The counter set from the rows: the identity on a counter that was right.
    method RecomputeUsedBytes(mailbox: string) returns (r: Result<int, Error>)
      modifies this`mailboxes
      ensures r.Ok? <==> mailbox in old(mailboxes)
      ensures r.Err? ==> State() == old(State())
      ensures r.Ok? ==>
        && mailbox in mailboxes && r.value == LiveBytes(old(State()), mailbox) == mailboxes[mailbox].used
        && mailboxes == old(mailboxes)[mailbox := old(mailboxes)[mailbox].(used := r.value)]
      ensures r.Ok? && Drift(old(State()), mailbox) == 0 ==> State() == old(State())
    {
      var todo := set id | id in rows && rows[id].mailbox == mailbox && rows[id].Live();
      ghost var weight := (id: string) => Weight(old(State()), mailbox, id);
      var total := 0;
      TotalExtend(todo, rows.Keys, weight);
      while todo != {}
        invariant todo <= set id | id in rows && rows[id].mailbox == mailbox && rows[id].Live()
        invariant mailboxes == old(mailboxes)
        invariant total + Total(todo, weight) == LiveBytes(old(State()), mailbox)
        decreases todo
      {
        var id :| id in todo;
        TotalPick(todo, weight, id);
        total := total + SizeOf(State(), rows[id].message);
        todo := todo - {id};
      }
      if mailbox !in mailboxes {
        return Err(NotFound);
      }
      mailboxes := mailboxes[mailbox := mailboxes[mailbox].(used := total)];
      return Ok(total);
    }

    // One statement of a purge, after others' transactions.
    method PurgeStep(mailbox: string, env: nat -> seq<Op>, k: nat)
      modifies this
      ensures State() == Apply(Run(old(State()), env(k)), PurgeStatement(mailbox, k))
    {
      hide Run;
      Interfere(env(k));
      if k == 0 {
        rows := map id | id in rows && rows[id].mailbox != mailbox :: rows[id];
      } else if k == 1 {
        folders := map f | f in folders && folders[f].mailbox != mailbox :: folders[f];
      } else {
        mailboxes := mailboxes - {mailbox};
      }
    }

    /** Purging a mailbox: three statements outside any transaction, stopping at the
        first that fails, with others' transactions between them. */
    method PurgeMailbox(mailbox: string, env: nat -> seq<Op>, fault: nat -> bool) returns (ok: bool, ghost done: nat)
      modifies this
      ensures done <= 3 && (ok <==> done == 3) && (!ok ==> fault(done))
      ensures State() == Run(old(State()), PurgeRun(mailbox, env, done))
      ensures ok ==> mailbox !in mailboxes
    {
      hide Run, PurgeRun;
      PurgeNone(old(State()), mailbox, env);
      for k := 0 to 3
        invariant State() == Run(old(State()), PurgeRun(mailbox, env, k))
        invariant k == 3 ==> mailbox !in mailboxes
      {
        if fault(k) {
          return false, k;
        }
        PurgeNext(old(State()), mailbox, env, k);
        PurgeStep(mailbox, env, k);
      }
      ok, done := true, 3;
    }

    // A read of one row, as the callers of Move and SoftDelete do first.
    method Get(id: string) returns (r: Option<Item>)
      ensures r == if id in rows then Some(ItemOf(id, rows[id])) else None
    {
      return if id in rows then Some(ItemOf(id, rows[id])) else None;
    }

    // Everything that other sessions, deliveries and workers do in the meantime.
    method Interfere(ops: seq<Op>)
      modifies this
      ensures State() == Run(old(State()), ops)
    {
      var rest := ops;
      while rest != []
        invariant Run(State(), rest) == Run(old(State()), ops)
        decreases |rest|
      {
        Restore(Apply(State(), rest[0]));
        rest := rest[1..];
      }
    }
  }
}

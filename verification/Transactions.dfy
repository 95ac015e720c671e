/** Each transaction of the store spelled out, field by field, errors included. */
module Transactions {
  import opened Common
  import opened MailModel

  // Nothing but one row, one folder and one mailbox may differ.
  ghost predicate OthersKept(s: Store, t: Store, id: string, folder: string, mailbox: string) {
    && t.messages == s.messages && t.jobs == s.jobs && t.folderIds == s.folderIds
    && t.folders.Keys == s.folders.Keys && t.mailboxes.Keys == s.mailboxes.Keys
    && (forall f :: f in s.folders && f != folder ==> t.folders[f] == s.folders[f])
    && (forall m :: m in s.mailboxes && m != mailbox ==> t.mailboxes[m] == s.mailboxes[m])
    && (forall r :: r != id ==> (r in t.rows <==> r in s.rows) && (r in s.rows ==> t.rows[r] == s.rows[r]))
  }

  /** An attach fails, and changes nothing, for want of a folder or mailbox, on a row
      id in use, or, when enforced, exactly if a positive quota would be passed. */
  lemma AttachFails(s: Store, p: Attachment)
    ensures AttachOp(s, p).result.Err? ==> AttachOp(s, p).store == s
    ensures AttachOp(s, p).result.Err? <==>
      || p.folder !in s.folders || p.id in s.rows || p.mailbox !in s.mailboxes
      || (p.enforceQuota && s.mailboxes[p.mailbox].quota > 0
          && s.mailboxes[p.mailbox].used + p.size > s.mailboxes[p.mailbox].quota)
  {
  }

  /** Otherwise it adds one live row with the given contents at the folder's next UID,
      and the size to the mailbox's counter. */
  lemma AttachDone(s: Store, p: Attachment)
    requires AttachOp(s, p).result.Ok?
    ensures
      var t, uid := AttachOp(s, p).store, s.folders[p.folder].uidNext;
      && AttachOp(s, p).result.value == uid && OthersKept(s, t, p.id, p.folder, p.mailbox)
      && p.id in t.rows && t.rows[p.id].mailbox == p.mailbox && t.rows[p.id].message == p.message
      && t.rows[p.id].folder == p.folder && t.rows[p.id].uid == uid
      && t.rows[p.id].flags == p.flags && t.rows[p.id].deletedAt == None
      && t.folders[p.folder] == Folder(s.folders[p.folder].mailbox, s.folders[p.folder].name, uid + 1)
      && t.mailboxes[p.mailbox] == Mailbox(s.mailboxes[p.mailbox].quota, s.mailboxes[p.mailbox].used + p.size)
  {
  }

  /** A move of an item that is live where it is to go does nothing; one without a
      target, a row, or, to restore, a mailbox fails and changes nothing. */
  lemma MoveFails(s: Store, item: Item, folder: string)
    ensures item.folder == folder && !item.deleted ==> MoveOp(s, item, folder) == Outcome(s, Ok(item.uid))
    ensures MoveOp(s, item, folder).result.Err? ==> MoveOp(s, item, folder).store == s
    ensures MoveOp(s, item, folder).result.Err? <==>
      && (item.folder != folder || item.deleted)
      && (folder !in s.folders || item.id !in s.rows || (item.deleted && item.mailbox !in s.mailboxes))
  {
  }

  /** Any other move puts the row, live and no longer marked \Deleted, at the target's
      next UID; its message, its mailbox and its other flags stay; and a row the caller
      took for deleted is counted again. */
  lemma MoveDone(s: Store, item: Item, folder: string)
    requires MoveOp(s, item, folder).result.Ok? && (item.folder != folder || item.deleted)
    ensures
      var t, uid := MoveOp(s, item, folder).store, s.folders[folder].uidNext;
      && MoveOp(s, item, folder).result.value == uid && OthersKept(s, t, item.id, folder, item.mailbox)
      && item.id in t.rows
      && var before, after := s.rows[item.id], t.rows[item.id];
      && after.message == before.message && after.mailbox == before.mailbox
      && after.folder == folder && after.uid == uid && after.deletedAt == None
      && !after.flags.deleted && after.flags.seen == before.flags.seen
      && after.flags.answered == before.flags.answered && after.flags.flagged == before.flags.flagged
      && after.flags.draft == before.flags.draft && after.flags.keywords == before.flags.keywords
      && t.folders[folder] == Folder(s.folders[folder].mailbox, s.folders[folder].name, uid + 1)
      && (item.mailbox in s.mailboxes ==>
            t.mailboxes[item.mailbox] == Mailbox(
              s.mailboxes[item.mailbox].quota,
              s.mailboxes[item.mailbox].used
                + if item.deleted && item.message in s.messages then s.messages[item.message].size else 0))
  {
  }

  /** A soft deletion of a live row stamps it and takes its size off the counter; of
      any other it does nothing; without the mailbox it fails and changes nothing. */
  lemma SoftDeleteDone(s: Store, item: Item, now: int)
    ensures
      var live := !item.deleted && item.id in s.rows && s.rows[item.id].deletedAt == None;
      var r := SoftDeleteOp(s, item, now);
      && (!live ==> r == Outcome(s, Ok(0)))
      && (live && item.mailbox !in s.mailboxes ==> r.result.Err? && r.store == s)
      && (live && item.mailbox in s.mailboxes ==>
            && r.result.Ok? && OthersKept(s, r.store, item.id, "", item.mailbox)
            && r.store.folders == s.folders
            && item.id in r.store.rows && r.store.rows[item.id] == s.rows[item.id].(deletedAt := Some(now))
            && r.store.mailboxes[item.mailbox] == Mailbox(
                 s.mailboxes[item.mailbox].quota,
                 s.mailboxes[item.mailbox].used
                   - if item.message in s.messages then s.messages[item.message].size else 0))
  {
  }

  /** The statements of a purge take the mailbox's rows, its folders and itself, and
      leave everything of any other mailbox. */
  lemma PurgeDone(s: Store, mailbox: string)
    ensures
      var t := PurgeRowsOp(s, mailbox);
      && (forall r :: r in t.rows <==> r in s.rows && s.rows[r].mailbox != mailbox)
      && (forall r :: r in t.rows ==> t.rows[r] == s.rows[r]) && t == s.(rows := t.rows)
    ensures
      var t := PurgeFoldersOp(s, mailbox);
      && (forall f :: f in t.folders <==> f in s.folders && s.folders[f].mailbox != mailbox)
      && (forall f :: f in t.folders ==> t.folders[f] == s.folders[f]) && t == s.(folders := t.folders)
    ensures
      var t := DropMailboxOp(s, mailbox);
      && (forall m :: m in t.mailboxes <==> m in s.mailboxes && m != mailbox)
      && (forall m :: m in t.mailboxes ==> t.mailboxes[m] == s.mailboxes[m]) && t == s.(mailboxes := t.mailboxes)
  {
  }

  /** What keeps a message: a live row, a row deleted at or after the retention limit,
      or a job that is queued, waiting for a retry or being processed. */
  lemma UnreferencedMeans(s: Store, m: string, retention: int)
    ensures Unreferenced(s, m, retention) <==>
      && !(exists r :: r in s.rows && s.rows[r].message == m && s.rows[r].deletedAt == None)
      && !(exists r ::
             r in s.rows && s.rows[r].message == m && s.rows[r].deletedAt.Some?
             && s.rows[r].deletedAt.value >= retention)
      && !(exists j :: j in s.jobs && s.jobs[j].message == m && s.jobs[j].status in {Queued, Retry, Processing})
  {
    if Unreferenced(s, m, retention) {
      forall j | j in s.jobs && s.jobs[j].message == m ensures s.jobs[j].status !in {Queued, Retry, Processing} {
      }
    }
  }

  /** Collecting leaves a message so kept, with all its rows; and of one that is not
      it leaves nothing, and of all others everything. */
  lemma CollectDone(s: Store, m: string, retention: int)
    ensures
      && ((exists r :: r in s.rows && s.rows[r].message == m && s.rows[r].deletedAt == None) ==>
            CollectOp(s, m, retention) == s)
      && ((exists r ::
             r in s.rows && s.rows[r].message == m && s.rows[r].deletedAt.Some?
             && s.rows[r].deletedAt.value >= retention) ==>
            CollectOp(s, m, retention) == s)
      && ((exists j :: j in s.jobs && s.jobs[j].message == m && s.jobs[j].status in {Queued, Retry, Processing}) ==>
            CollectOp(s, m, retention) == s)
    ensures
      && (forall r :: r in s.rows && s.rows[r].message == m ==>
            s.rows[r].deletedAt.Some? && s.rows[r].deletedAt.value < retention)
      && (forall j :: j in s.jobs && s.jobs[j].message == m ==> s.jobs[j].status in {Sent, Failed})
      ==>
        var t := CollectOp(s, m, retention);
        m !in t.messages && (m in s.messages ==> forall r :: r in t.rows ==> t.rows[r].message != m)
    ensures
      var t := CollectOp(s, m, retention);
      && (forall x :: x in s.messages && x != m ==> x in t.messages && t.messages[x] == s.messages[x])
      && (forall r :: r in s.rows && s.rows[r].message != m ==> r in t.rows && t.rows[r] == s.rows[r])
      && t.folders == s.folders && t.mailboxes == s.mailboxes && t.jobs == s.jobs
  {
    var dropped := DropExpired(s, m, retention);
    UnreferencedMeans(dropped, m, retention);
    if r :| r in s.rows && s.rows[r].message == m && s.rows[r].deletedAt == None {
      assert r in dropped.rows && dropped.rows[r] == s.rows[r];
    }
    if r :| r in s.rows && s.rows[r].message == m && s.rows[r].deletedAt.Some?
            && s.rows[r].deletedAt.value >= retention {
      assert r in dropped.rows && dropped.rows[r] == s.rows[r];
    }
  }
}

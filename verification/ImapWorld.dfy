/**
 One store, any number of sessions: every interleaving of store transactions
 with the steps of the sessions' views, each client replaying what its own
 session writes.
 */
module ImapWorld {
  import opened Common
  import opened MailModel
  import opened UidOrder
  import opened ImapView
  import opened ImapFolder
  import opened CommandMirror

  // A folder's view, or with no folder a label's. The client is None once a response
  // has contradicted what it holds; `failed` when an EXPUNGE failed after telling.
  datatype SessionState = SessionState(folder: Option<string>, view: View, client: Option<Client>, failed: bool)

  datatype World = World(store: Store, sessions: map<string, SessionState>)

  datatype Step =
    | StoreStep(op: Op)                                            // anyone's transaction
    | SelectStep(sid: string, folder: Option<string>, now: int)
    | SyncStep(sid: string, writer: Writer, mode: Mode, now: int)  // a resync that loads
    | CompactStep(sid: string, pass: seq<Verdict>)                 // the end of EXPUNGE or MOVE
    | FailStep(sid: string, pass: seq<Verdict>, k: nat)            // an EXPUNGE that fails at entry k
    | FlagStep(sid: string, index: nat, flags: Flags)              // STORE on one entry
    | LearnStep(sid: string, index: nat)                           // FETCH tells the client a UID

  function Hear(client: Option<Client>, said: seq<Response>): Option<Client> {
    if client.None? then None else Replay(client.value, said)
  }

  // The load of a folder; about that of a label nothing is claimed.
  ghost predicate Loads(s: Store, folder: Option<string>, loaded: seq<Entry>) {
    folder.Some? ==> IsLoad(s, folder.value, loaded)
  }

  ghost predicate SyncTo(s: Store, before: SessionState, after: SessionState, w: Writer, mode: Mode, now: int) {
    exists loaded :: Loads(s, before.folder, loaded) &&
      after == SessionState(before.folder, ResyncView(before.view, loaded, w, mode, now),
                            Hear(before.client, ResyncSaid(before.view.entries, loaded, w, mode)), before.failed)
  }

  ghost predicate SelectTo(s: Store, after: SessionState, folder: Option<string>, now: int) {
    && (folder.Some? ==> folder.value in s.folders)
    && exists loaded :: Loads(s, folder, loaded) &&
         after == SessionState(folder, View(loaded, false, false, false, now), Some(seq(|loaded|, _ => None)), false)
  }

  ghost predicate CompactTo(s: Store, before: SessionState, after: SessionState, pass: seq<Verdict>) {
    var entries := before.view.entries;
    && PassOver(pass, entries)
    && (before.folder.Some? && before.folder.value in s.folders ==>
        forall i :: 0 <= i < |pass| && pass[i].Drop? ==> !Occupied(s, before.folder.value, entries[i].uid))
    && after == before.(view := before.view.(entries := Kept(pass)),
        client := Hear(before.client, Said(pass, FullWriter)))
  }

  ghost predicate Deletes(pass: seq<Verdict>, entries: seq<Entry>) {
    && |pass| == |entries|
    && forall i :: 0 <= i < |pass| ==> pass[i].Drop? || pass[i] == Keep(entries[i], false)
  }

  ghost predicate DropsBefore(pass: seq<Verdict>, k: nat) {
    exists i :: 0 <= i < k && i < |pass| && pass[i].Drop?
  }

  ghost predicate FailTo(before: SessionState, after: SessionState, pass: seq<Verdict>, k: nat) {
    && Deletes(pass, before.view.entries) && k <= |pass|
    && after == before.(client := Hear(before.client, Said(pass[..k], FullWriter)),
                        failed := before.failed || DropsBefore(pass, k))
  }

  ghost predicate SessionStep(s: Store, before: SessionState, after: SessionState, step: Step) {
    match step
    case SyncStep(_, w, mode, now) => CallerMode(w, mode) && SyncTo(s, before, after, w, mode, now)
    case CompactStep(_, pass) => CompactTo(s, before, after, pass)
    case FailStep(_, pass, k) => FailTo(before, after, pass, k)
    case FlagStep(_, i, flags) =>
      && i < |before.view.entries|
      && var e := before.view.entries[i].(flags := flags);
         after == before.(view := before.view.(entries := before.view.entries[i := e]),
                          client := Hear(before.client, [FetchFlags(i + 1, e.uid, flags)]))
    case LearnStep(_, i) =>
      && i < |before.view.entries|
      && var e := before.view.entries[i];
         after == before.(client := Hear(before.client, [FetchFlags(i + 1, e.uid, e.flags)]))
    case _ => false
  }

  ghost predicate Next(w: World, step: Step, w': World) {
    match step
    case StoreStep(op) => w' == w.(store := Apply(w.store, op))
    case SelectStep(sid, folder, now) =>
      && w'.store == w.store && sid in w'.sessions
      && w'.sessions == w.sessions[sid := w'.sessions[sid]]
      && SelectTo(w.store, w'.sessions[sid], folder, now)
    case _ =>
      && w'.store == w.store && step.sid in w.sessions && step.sid in w'.sessions
      && w'.sessions == w.sessions[step.sid := w'.sessions[step.sid]]
      && SessionStep(w.store, w.sessions[step.sid], w'.sessions[step.sid], step)
  }

  ghost predicate InStep(session: SessionState) {
    session.client.Some? && Mirrors(session.client.value, session.view.entries)
  }

  // A folder's id is not given out again, so its view matters only while it exists.
  ghost predicate FolderFits(s: Store, session: SessionState) {
    session.folder.Some? ==>
      && session.folder.value in s.folderIds
      && (session.folder.value in s.folders ==> ViewFits(session.view.entries, s, session.folder.value))
  }

  ghost predicate SessionOk(s: Store, session: SessionState) {
    (!session.failed ==> InStep(session)) && FolderFits(s, session)
  }

  ghost predicate WorldOk(w: World) {
    && UidsValid(w.store)
    && forall sid :: sid in w.sessions ==> SessionOk(w.store, w.sessions[sid])
  }

  lemma SyncOk(s: Store, before: SessionState, after: SessionState, w: Writer, mode: Mode, now: int)
    requires UidsValid(s) && SessionOk(s, before) && CallerMode(w, mode) && SyncTo(s, before, after, w, mode, now)
    ensures SessionOk(s, after)
  {
    var loaded :| Loads(s, before.folder, loaded) &&
      after == SessionState(before.folder, ResyncView(before.view, loaded, w, mode, now),
                            Hear(before.client, ResyncSaid(before.view.entries, loaded, w, mode)), before.failed);
    if !before.failed {
      ResyncMirrors(before.client.value, before.view.entries, loaded, w, mode);
    }
    if before.folder.Some? && before.folder.value in s.folders {
      ResyncFits(before.view.entries, s, before.folder.value, loaded, w, mode);
    }
  }

  lemma ToldFlags(client: Client, entries: seq<Entry>, i: nat, flags: Flags)
    requires Mirrors(client, entries) && i < |entries|
    ensures ReplayMirrors(client, [FetchFlags(i + 1, entries[i].uid, flags)], entries[i := entries[i].(flags := flags)])
    ensures ReplayMirrors(client, [FetchFlags(i + 1, entries[i].uid, flags)], entries)
  {
    ReplayOne(client, FetchFlags(i + 1, entries[i].uid, flags));
  }

  lemma SameUids(entries: seq<Entry>, i: nat, flags: Flags)
    requires i < |entries|
    ensures Known(entries[i := entries[i].(flags := flags)]) == Known(entries)
  {
    var next := entries[i := entries[i].(flags := flags)];
    forall e | e in next ensures e.uid in Known(entries) {
      var k :| 0 <= k < |next| && next[k] == e;
      assert entries[k] in entries && entries[k].uid == e.uid;
    }
    forall o | o in entries ensures o.uid in Known(next) {
      var k :| 0 <= k < |entries| && entries[k] == o;
      assert next[k] in next && next[k].uid == o.uid;
    }
  }

  lemma FlagFits(entries: seq<Entry>, s: Store, folder: string, i: nat, flags: Flags)
    requires ViewFits(entries, s, folder) && i < |entries|
    ensures ViewFits(entries[i := entries[i].(flags := flags)], s, folder)
  {
    var next := entries[i := entries[i].(flags := flags)];
    SameUids(entries, i, flags);
    forall e | e in next ensures exists o :: o in entries && o.uid == e.uid {
      assert e.uid in Known(next);
    }
    forall id, uid, e | folder in s.folders && LiveAt(s, id, folder, uid) && uid !in Known(next) && e in next
      ensures e.uid < uid
    {
      var o :| o in entries && o.uid == e.uid;
      assert uid !in Known(entries);
    }
  }

  /** A failed EXPUNGE leaves its client in step exactly when nothing was told. */
  lemma FailExactly(before: SessionState, after: SessionState, pass: seq<Verdict>, k: nat)
    requires InStep(before) && !before.failed && FailTo(before, after, pass, k)
    ensures InStep(after) <==> !after.failed
  {
    var client, entries := before.client.value, before.view.entries;
    PassMirrorsUpTo(client, entries, pass, FullWriter, k);
    assert [] + Said(pass[..k], FullWriter) == Said(pass[..k], FullWriter);
    CutShort(client, [], entries, pass, k);
  }

  lemma SessionStepOk(s: Store, before: SessionState, after: SessionState, step: Step)
    requires UidsValid(s) && SessionOk(s, before) && SessionStep(s, before, after, step)
    ensures SessionOk(s, after)
  {
    var entries := before.view.entries;
    match step
    case SyncStep(_, w, mode, now) => SyncOk(s, before, after, w, mode, now);
    case CompactStep(_, pass) =>
      if !before.failed {
        PassMirrors(before.client.value, entries, pass, FullWriter);
      }
      if before.folder.Some? && before.folder.value in s.folders {
        CompactFits(entries, s, before.folder.value, pass);
      }
    case FailStep(_, pass, k) =>
      if !after.failed {
        FailExactly(before, after, pass, k);
      }
    case FlagStep(_, i, flags) =>
      if !before.failed {
        ToldFlags(before.client.value, entries, i, flags);
      }
      if before.folder.Some? && before.folder.value in s.folders {
        FlagFits(entries, s, before.folder.value, i, flags);
      }
    case LearnStep(_, i) =>
      if !before.failed {
        ToldFlags(before.client.value, entries, i, entries[i].flags);
      }
  }

  lemma StepOk(w: World, step: Step, w': World)
    requires WorldOk(w) && Next(w, step, w')
    ensures WorldOk(w') && Later(w.store, w'.store)
  {
    match step
    case StoreStep(op) =>
      ApplyLater(w.store, op);
      forall sid | sid in w'.sessions ensures SessionOk(w'.store, w'.sessions[sid]) {
        var folder := w'.sessions[sid].folder;
        if folder.Some? && folder.value in w'.store.folders {
          FitsLater(w'.sessions[sid].view.entries, w.store, w'.store, folder.value);
        }
      }
    case SelectStep(sid, folder, now) =>
      ValidLater(w.store);
      var loaded :| Loads(w.store, folder, loaded) && w'.sessions[sid] ==
        SessionState(folder, View(loaded, false, false, false, now), Some(seq(|loaded|, _ => None)), false);
      if folder.Some? {
        LoadFits(w.store, folder.value, loaded);
      }
    case _ =>
      ValidLater(w.store);
      SessionStepOk(w.store, w.sessions[step.sid], w'.sessions[step.sid], step);
  }

  ghost predicate Execution(trace: seq<World>, steps: seq<Step>) {
    && |trace| == |steps| + 1
    && forall i :: 0 <= i < |steps| ==> Next(trace[i], steps[i], trace[i + 1])
  }

  /** Through every interleaving, no client ever sees a response it cannot place and
      every client's list has its view's length and UIDs position by position, but
      for sessions in which an EXPUNGE failed after telling; and every folder view
      stays ascending and below what it has not seen. */
  lemma {:induction false} EveryExecution(trace: seq<World>, steps: seq<Step>)
    requires Execution(trace, steps) && WorldOk(trace[0])
    ensures WorldOk(trace[|steps|]) && Later(trace[0].store, trace[|steps|].store)
    decreases |steps|
  {
    if steps == [] {
      ValidLater(trace[0].store);
    } else {
      var n := |steps| - 1;
      EveryExecution(trace[..n + 1], steps[..n]);
      StepOk(trace[n], steps[n], trace[n + 1]);
      LaterTransitive(trace[0].store, trace[n].store, trace[n + 1].store);
    }
  }

  /** At the end of any execution, a resync with the real writer that may expunge
      and extend makes a folder's view the load itself, with nothing pending. */
  lemma ConvergesAfterAnything(trace: seq<World>, steps: seq<Step>, sid: string, folder: string, mode: Mode, now: int,
                               after: SessionState)
    requires Execution(trace, steps) && WorldOk(trace[0])
    requires var w := trace[|steps|];
      sid in w.sessions && w.sessions[sid].folder == Some(folder) && folder in w.store.folders
    requires mode.expunge && mode.extend
    requires SyncTo(trace[|steps|].store, trace[|steps|].sessions[sid], after, FullWriter, mode, now)
    ensures IsLoad(trace[|steps|].store, folder, after.view.entries)
    ensures !after.view.pendingGone && !after.view.pendingExists && !after.view.pendingFlags
    ensures !after.failed ==> InStep(after)
  {
    EveryExecution(trace, steps);
    var w := trace[|steps|];
    var before := w.sessions[sid];
    SyncOk(w.store, before, after, FullWriter, mode, now);
    var loaded :| Loads(w.store, before.folder, loaded) &&
      after == SessionState(before.folder, ResyncView(before.view, loaded, FullWriter, mode, now),
                            Hear(before.client, ResyncSaid(before.view.entries, loaded, FullWriter, mode)),
                                before.failed);
    FullResyncIsLoad(before.view, w.store, folder, loaded, mode, now);
  }
}

/** The debt of an entry whose message is gone, over whole executions. */
module GoneDebts {
  import opened Common
  import opened MailModel
  import opened UidOrder
  import opened ImapView
  import opened ImapFolder
  import opened ImapWorld

  // The session's view still lists a UID of its folder that is vacant for good.
  ghost predicate Owed(w: World, sid: string, folder: string, uid: nat) {
    && sid in w.sessions && w.sessions[sid].folder == Some(folder) && uid in Known(w.sessions[sid].view.entries)
    && folder in w.store.folders && uid < w.store.folders[folder].uidNext && !Occupied(w.store, folder, uid)
  }

  // The steps that may take the entry off the list.
  ghost predicate Pays(step: Step, sid: string, uid: nat) {
    match step
    case SelectStep(who, _, _) => who == sid
    case SyncStep(who, _, mode, _) => who == sid && mode.expunge
    case CompactStep(who, pass) => who == sid && uid !in Known(Kept(pass))
    case _ => false
  }

  lemma SyncKeepsOwed(s: Store, before: SessionState, after: SessionState, w: Writer, mode: Mode, now: int,
                      folder: string, uid: nat)
    requires UidsValid(s) && SyncTo(s, before, after, w, mode, now) && before.folder == Some(folder)
    requires uid in Known(before.view.entries) && !Occupied(s, folder, uid)
    ensures !mode.expunge ==> uid in Known(after.view.entries) && after.view.pendingGone
    ensures mode.expunge ==> uid !in Known(after.view.entries) && !after.view.pendingGone
  {
    var loaded :| Loads(s, before.folder, loaded) &&
      after == SessionState(before.folder, ResyncView(before.view, loaded, w, mode, now),
                            Hear(before.client, ResyncSaid(before.view.entries, loaded, w, mode)), before.failed);
    var entries := before.view.entries;
    forall e: Entry | e in loaded ensures e.uid != uid {
      assert LiveAt(s, e.item, folder, e.uid);
    }
    var o :| o in entries && o.uid == uid;
    assert OwesGone(entries, loaded);
    AscendingDistinct(loaded);
    ResyncDebts(before.view, loaded, w, mode, now);
    if mode.expunge {
      assert !OwesGone(after.view.entries, loaded);
    } else {
      ByUidContents(loaded);
      KeptOf(entries, loaded, w, mode, o);
      assert o.(gone := true) in after.view.entries;
    }
  }

  lemma StepKeepsOwed(w: World, step: Step, w': World, sid: string, folder: string, uid: nat)
    requires WorldOk(w) && Next(w, step, w') && Owed(w, sid, folder, uid) && !Pays(step, sid, uid)
    requires folder in w'.store.folders
    ensures Owed(w', sid, folder, uid)
    ensures w.sessions[sid].view.pendingGone ==> w'.sessions[sid].view.pendingGone
  {
    match step
    case StoreStep(op) => ApplyLater(w.store, op);
    case SyncStep(who, writer, mode, now) =>
      if who == sid {
        SyncKeepsOwed(w.store, w.sessions[sid], w'.sessions[sid], writer, mode, now, folder, uid);
      }
    case FlagStep(who, i, flags) =>
      if who == sid {
        SameUids(w.sessions[sid].view.entries, i, flags);
      }
    case _ =>
  }

  /** Once owed, a gone entry stays on the view's list through everything that any
      session or transaction does, until this session selects anew, is allowed to
      expunge, or expunges it by command; a debt once noted stays noted. */
  lemma {:induction false} StaysOwed(trace: seq<World>, steps: seq<Step>, sid: string, folder: string, uid: nat)
    requires Execution(trace, steps) && WorldOk(trace[0]) && Owed(trace[0], sid, folder, uid)
    requires forall i :: 0 <= i < |steps| ==> !Pays(steps[i], sid, uid)
    requires folder in trace[|steps|].store.folders
    ensures Owed(trace[|steps|], sid, folder, uid)
    ensures trace[0].sessions[sid].view.pendingGone ==> trace[|steps|].sessions[sid].view.pendingGone
    decreases |steps|
  {
    if steps != [] {
      var n := |steps| - 1;
      EveryExecution(trace[..n + 1], steps[..n]);
      StepOk(trace[n], steps[n], trace[n + 1]);
      StaysOwed(trace[..n + 1], steps[..n], sid, folder, uid);
      StepKeepsOwed(trace[n], steps[n], trace[n + 1], sid, folder, uid);
    }
  }

  /** The first resync then allowed to expunge does not return early, if the debt was
      noted, and takes the entry off the list. */
  lemma FirstPayment(trace: seq<World>, steps: seq<Step>, sid: string, folder: string, uid: nat, w: Writer, mode: Mode,
                     now: int, after: SessionState)
    requires Execution(trace, steps) && WorldOk(trace[0]) && Owed(trace[0], sid, folder, uid)
    requires forall i :: 0 <= i < |steps| ==> !Pays(steps[i], sid, uid)
    requires folder in trace[|steps|].store.folders && mode.expunge && sid in trace[|steps|].sessions
    requires SyncTo(trace[|steps|].store, trace[|steps|].sessions[sid], after, w, mode, now)
    ensures trace[0].sessions[sid].view.pendingGone ==>
      forall changed, at :: !Skips(trace[|steps|].sessions[sid].view, changed, w, mode, at)
    ensures uid !in Known(after.view.entries) && !after.view.pendingGone
  {
    EveryExecution(trace, steps);
    StaysOwed(trace, steps, sid, folder, uid);
    var last := trace[|steps|];
    SyncKeepsOwed(last.store, last.sessions[sid], after, w, mode, now, folder, uid);
  }
}

/** The commands of the session object are steps of the world. */
module CommandSteps {
  import opened Common
  import opened MailModel
  import opened UidOrder
  import opened ImapView
  import opened ImapFolder
  import opened Vacating
  import opened ImapSession
  import opened ImapWorld

  // The session after the resync that EXPUNGE and MOVE begin with.
  function AfterSync(before: SessionState, loaded: seq<Entry>, now: int): SessionState {
    before.(view := ResyncView(before.view, loaded, ExpungeOnly, COMMAND_MODE, now),
            client := Hear(before.client, SyncSaid(before.view.entries, loaded)))
  }

  function AfterPass(before: SessionState, pass: seq<Verdict>): SessionState {
    before.(view := before.view.(entries := Kept(pass)), client := Hear(before.client, Said(pass, FullWriter)))
  }

  lemma HearBoth(client: Option<Client>, first: seq<Response>, second: seq<Response>)
    ensures Hear(client, first + second) == Hear(Hear(client, first), second)
  {
    if client.Some? {
      ReplayAppend(client.value, first, second);
    }
  }

  lemma SyncFirst(begin: Store, before: SessionState, folder: string, loaded: seq<Entry>, now: int)
    requires before.folder == Some(folder) && IsLoad(begin, folder, loaded)
    ensures CallerMode(ExpungeOnly, COMMAND_MODE)
    ensures SyncTo(begin, before, AfterSync(before, loaded, now), ExpungeOnly, COMMAND_MODE, now)
    ensures AfterSync(before, loaded, now).view.entries == Synced(before.view.entries, loaded)
    ensures AfterSync(before, loaded, now).client == Hear(before.client, SyncSaid(before.view.entries, loaded))
    ensures AfterSync(before, loaded, now).folder == before.folder
        && AfterSync(before, loaded, now).failed == before.failed
  {
    assert Loads(begin, before.folder, loaded);
  }

  /** A successful EXPUNGE is a resync and a compaction; what it writes is what the
      two of them write. */
  lemma ExpungeSteps(begin: Store, end: Store, before: SessionState, folder: string, loaded: seq<Entry>,
                     uids: Option<set<nat>>, now: int)
    requires before.folder == Some(folder) && IsLoad(begin, folder, loaded)
    requires
      var synced := Synced(before.view.entries, loaded);
      DroppedVacant(end, folder, synced, ExpungePass(synced, uids), |synced|)
    ensures
      var synced := Synced(before.view.entries, loaded);
      var pass, middle := ExpungePass(synced, uids), AfterSync(before, loaded, now);
      && CallerMode(ExpungeOnly, COMMAND_MODE) && SyncTo(begin, before, middle, ExpungeOnly, COMMAND_MODE, now)
      && CompactTo(end, middle, AfterPass(middle, pass), pass)
      && AfterPass(middle, pass).client == Hear(before.client,
          SyncSaid(before.view.entries, loaded) + Said(pass, FullWriter))
  {
    var pass := ExpungePass(Synced(before.view.entries, loaded), uids);
    hide AfterSync, SyncTo, Synced, SyncSaid, Said, Kept, Hear;
    SyncFirst(begin, before, folder, loaded, now);
    HearBoth(before.client, SyncSaid(before.view.entries, loaded), Said(pass, FullWriter));
  }

  /** One that fails at entry k is a resync and a failing step. */
  lemma FailedExpungeSteps(begin: Store, before: SessionState, folder: string, loaded: seq<Entry>,
                           uids: Option<set<nat>>, k: nat, now: int)
    requires before.folder == Some(folder) && IsLoad(begin, folder, loaded) && k < |Synced(before.view.entries, loaded)|
    ensures
      var synced := Synced(before.view.entries, loaded);
      var pass, middle := ExpungePass(synced, uids), AfterSync(before, loaded, now);
      var after := middle.(client := Hear(middle.client, Said(pass[..k], FullWriter)),
                           failed := before.failed || DropsBefore(pass, k));
      && SyncTo(begin, before, middle, ExpungeOnly, COMMAND_MODE, now) && FailTo(middle, after, pass, k)
      && after.client == Hear(before.client, SyncSaid(before.view.entries, loaded) + Said(pass[..k], FullWriter))
  {
    var pass := ExpungePass(Synced(before.view.entries, loaded), uids);
    hide AfterSync, SyncTo, Synced, SyncSaid, Said, Hear;
    SyncFirst(begin, before, folder, loaded, now);
    HearBoth(before.client, SyncSaid(before.view.entries, loaded), Said(pass[..k], FullWriter));
  }

  /** So is a successful MOVE. */
  lemma MoveSteps(begin: Store, end: Store, before: SessionState, folder: string, loaded: seq<Entry>,
                  removed: set<nat>, uids: set<nat>, now: int)
    requires before.folder == Some(folder) && IsLoad(begin, folder, loaded)
    requires
      var synced := Synced(before.view.entries, loaded);
      MovedOnly(synced, removed, uids) && UidsVacant(end, folder, synced, uids)
    ensures
      var synced := Synced(before.view.entries, loaded);
      var pass, middle := RemovePass(synced, removed), AfterSync(before, loaded, now);
      && SyncTo(begin, before, middle, ExpungeOnly, COMMAND_MODE, now)
      && CompactTo(end, middle, AfterPass(middle, pass), pass)
      && AfterPass(middle, pass).client == Hear(before.client,
          SyncSaid(before.view.entries, loaded) + Said(pass, FullWriter))
  {
    var synced := Synced(before.view.entries, loaded);
    var pass := RemovePass(synced, removed);
    hide AfterSync, SyncTo, Synced, SyncSaid, Said, Kept, Hear;
    SyncFirst(begin, before, folder, loaded, now);
    HearBoth(before.client, SyncSaid(before.view.entries, loaded), Said(pass, FullWriter));
    forall i | 0 <= i < |pass| && pass[i].Drop? ensures Vacant(end, folder, synced[i].uid) {
      assert i in removed && synced[i] in synced;
    }
  }
}

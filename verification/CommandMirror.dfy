/** What the client holds after EXPUNGE and MOVE, successful or not. */
module CommandMirror {
  import opened Common
  import opened MailModel
  import opened ImapView
  import opened ImapSession

  lemma SyncMirrors(client: Client, entries: seq<Entry>, loaded: seq<Entry>)
    requires Mirrors(client, entries)
    ensures ReplayMirrors(client, SyncSaid(entries, loaded), Synced(entries, loaded))
  {
    ResyncMirrors(client, entries, loaded, ExpungeOnly, COMMAND_MODE);
  }

  lemma ThenPass(client: Client, entries: seq<Entry>, loaded: seq<Entry>, pass: seq<Verdict>, k: nat)
    requires Mirrors(client, entries) && PassOver(pass, Synced(entries, loaded)) && k <= |pass|
    ensures ReplayMirrors(client, SyncSaid(entries, loaded) + Said(pass[..k], FullWriter),
                          Kept(pass[..k]) + Synced(entries, loaded)[k..])
  {
    SyncMirrors(client, entries, loaded);
    var held := Replay(client, SyncSaid(entries, loaded)).value;
    PassMirrorsUpTo(held, Synced(entries, loaded), pass, FullWriter, k);
    ReplayAppend(client, SyncSaid(entries, loaded), Said(pass[..k], FullWriter));
  }

  /** A successful EXPUNGE or MOVE leaves the client in step. */
  lemma CommandMirrors(client: Client, entries: seq<Entry>, loaded: seq<Entry>, pass: seq<Verdict>)
    requires Mirrors(client, entries) && PassOver(pass, Synced(entries, loaded))
    ensures ReplayMirrors(client, SyncSaid(entries, loaded) + Said(pass, FullWriter), Kept(pass))
  {
    ThenPass(client, entries, loaded, pass, |pass|);
    assert pass[..|pass|] == pass && Kept(pass) + Synced(entries, loaded)[|pass|..] == Kept(pass);
  }

  /** A MOVE that fails has told nothing but its resync. */
  lemma FailedMoveMirrors(client: Client, entries: seq<Entry>, loaded: seq<Entry>)
    requires Mirrors(client, entries)
    ensures ReplayMirrors(client, SyncSaid(entries, loaded), Synced(entries, loaded))
  {
    SyncMirrors(client, entries, loaded);
  }

  /** An EXPUNGE that fails at entry k has told the client of every message
      expunged before it, while the view keeps them all: the two still agree
      exactly when the failing message is the first one to be expunged. */
  lemma FailedExpungeMirrors(client: Client, entries: seq<Entry>, loaded: seq<Entry>, uids: Option<set<nat>>, k: nat)
    requires Mirrors(client, entries) && k < |Synced(entries, loaded)|
    ensures
      var synced := Synced(entries, loaded);
      ReplayMirrors(client, SyncSaid(entries, loaded) + Said(ExpungePass(synced, uids)[..k], FullWriter), synced)
      <==> forall i :: 0 <= i < k ==> !Doomed(synced[i], uids)
  {
    hide *;
    var synced := Synced(entries, loaded);
    var pass := ExpungePass(synced, uids);
    ExpungeVerdicts(synced, uids);
    SyncMirrors(client, entries, loaded);
    ThenPass(client, entries, loaded, pass, k);
    CutShort(client, SyncSaid(entries, loaded), synced, pass, k);
  }

  lemma ExpungeVerdicts(entries: seq<Entry>, uids: Option<set<nat>>)
    ensures
      var pass := ExpungePass(entries, uids);
      |pass| == |entries| && PassOver(pass, entries) &&
      forall i :: 0 <= i < |pass| ==>
        if Doomed(entries[i], uids) then pass[i].Drop? else pass[i] == Keep(entries[i], false)
  {
  }

  lemma CutShort(client: Client, said: seq<Response>, entries: seq<Entry>, pass: seq<Verdict>, k: nat)
    requires |pass| == |entries| && k <= |pass|
    requires forall i :: 0 <= i < |pass| ==> pass[i].Drop? || pass[i] == Keep(entries[i], false)
    requires ReplayMirrors(client, said, entries)
    requires ReplayMirrors(client, said + Said(pass[..k], FullWriter), Kept(pass[..k]) + entries[k..])
    ensures ReplayMirrors(client, said + Said(pass[..k], FullWriter), entries) <==> forall i :: 0 <= i < k ==>
        !pass[i].Drop?
  {
    ToldSoFar(entries, pass, k);
    assert said + [] == said;
  }

  // The first k verdicts are silent, or the list has become shorter.
  lemma ToldSoFar(entries: seq<Entry>, pass: seq<Verdict>, k: nat)
    requires |pass| == |entries| && k <= |pass|
    requires forall i :: 0 <= i < |pass| ==> pass[i].Drop? || pass[i] == Keep(entries[i], false)
    ensures (forall i :: 0 <= i < k ==> !pass[i].Drop?) ==>
        Said(pass[..k], FullWriter) == [] && Kept(pass[..k]) + entries[k..] == entries
    ensures (exists i :: 0 <= i < k && pass[i].Drop?) ==> |Kept(pass[..k]) + entries[k..]| < |entries|
  {
    hide *;
    var front := pass[..k];
    if i :| 0 <= i < k && pass[i].Drop? {
      assert front[i].Drop?;
      DroppedShrinks(front);
    } else {
      assert forall i :: 0 <= i < k ==> front[i] == Keep(entries[i], false);
      NothingSaid(front, FullWriter);
      KeptAll(front);
      assert Kept(front) == entries[..k];
    }
  }

  // Two messages marked \Deleted; the second deletion fails.  The client has one
  // message left where the view has two, and takes UID 2 for message 1.
  lemma FailedExpungeExample()
    ensures
      var flags := Flags(false, false, false, true, false, []);
      var two := [Entry(1, "a", "m1", flags, false), Entry(2, "b", "m2", flags, false)];
      && Synced(two, two) == two && SyncSaid(two, two) == []
      && Replay([Some(1), Some(2)], Said(ExpungePass(two, None)[..1], FullWriter)) == Some([Some(2)])
      && !Mirrors([Some(2)], two)
  {
    var flags := Flags(false, false, false, true, false, []);
    var a, b := Entry(1, "a", "m1", flags, false), Entry(2, "b", "m2", flags, false);
    var two := [a, b];
    assert two[..1] == [a] && [a][..0] == [];
    assert ByUid([a]) == map[1 := a];
    assert ByUid(two) == map[1 := a, 2 := b];
    var resync := ResyncPass(two, two, ExpungeOnly, COMMAND_MODE);
    assert resync == [Keep(a, false), Keep(b, false)];
    KeptAll(resync);
    NothingSaid(resync, ExpungeOnly);
    var pass := ExpungePass(two, None)[..1];
    assert pass == [Drop];
    PassNext(pass, 0, FullWriter);
    assert pass[..1] == pass && pass[..0] == [];
    var client: Client := [Some(1), Some(2)];
    ReplayOne(client, Expunge(1));
    assert client[..0] + client[1..] == [Some(2)];
  }
}

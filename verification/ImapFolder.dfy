/** Folder views: a cache of the live rows of one folder, in ascending UID order. */
module ImapFolder {
  import opened Common
  import opened MailModel
  import opened UidOrder
  import opened ImapView

  ghost predicate Ascending(entries: seq<Entry>) {
    forall i, j :: 0 <= i < j < |entries| ==> entries[i].uid < entries[j].uid
  }

  function EntryOf(id: string, row: Row): Entry {
    Entry(row.uid, id, row.message, row.flags, false)
  }

  // The entries a load of the folder returns: its live rows by UID.
  ghost predicate IsLoad(s: Store, folder: string, entries: seq<Entry>) {
    && Ascending(entries)
    && (forall e :: e in entries ==> LiveAt(s, e.item, folder, e.uid) && e == EntryOf(e.item, s.rows[e.item]))
    && (forall id :: id in s.rows && s.rows[id].Live() && s.rows[id].folder == folder ==>
        EntryOf(id, s.rows[id]) in entries)
  }

  /** A load spelled out: one entry for each live row of the folder, with its UID, its
      message and its flags, by ascending UID, and no other. */
  lemma LoadIs(s: Store, folder: string, entries: seq<Entry>)
    requires IsLoad(s, folder, entries)
    ensures forall e :: e in entries ==>
      && e.item in s.rows && !e.gone
      && var row := s.rows[e.item];
      && row.folder == folder && row.deletedAt == None
      && e.uid == row.uid && e.message == row.message && e.flags == row.flags
    ensures forall id :: id in s.rows && s.rows[id].folder == folder && s.rows[id].deletedAt == None ==>
      exists e :: e in entries && e.item == id
    ensures forall i, j :: 0 <= i < j < |entries| ==> entries[i].uid < entries[j].uid
  {
    forall id | id in s.rows && s.rows[id].folder == folder && s.rows[id].deletedAt == None
      ensures exists e :: e in entries && e.item == id
    {
      assert EntryOf(id, s.rows[id]) in entries;
    }
  }

  /** What a folder view always satisfies: ascending UIDs, all handed out, and
      every message it has not seen has a larger UID than all it has. */
  ghost predicate ViewFits(entries: seq<Entry>, s: Store, folder: string) {
    && Ascending(entries) && folder in s.folderIds
    && (folder in s.folders ==>
        && (forall e :: e in entries ==> e.uid < s.folders[folder].uidNext)
        && (forall id, uid, e :: LiveAt(s, id, folder, uid) && uid !in Known(entries) && e in entries ==> e.uid < uid))
  }

  ghost predicate SameMembers(a: seq<Entry>, b: seq<Entry>) {
    forall e :: e in a <==> e in b
  }

  lemma FirstShared(a: seq<Entry>, b: seq<Entry>)
    requires SameMembers(a, b)
    ensures |b| > 0 ==> b[0] in a
  {
  }

  lemma LastIsLargest(a: seq<Entry>, e: Entry)
    requires Ascending(a) && e in a
    ensures e.uid <= a[|a| - 1].uid && (e.uid == a[|a| - 1].uid ==> e == a[|a| - 1])
  {
    var i :| 0 <= i < |a| && a[i] == e;
  }

  lemma InFront(a: seq<Entry>, e: Entry)
    requires Ascending(a) && a != []
    ensures e in a[..|a| - 1] <==> e in a && e != a[|a| - 1]
  {
    if e in a {
      var i :| 0 <= i < |a| && a[i] == e;
      if i < |a| - 1 {
        assert a[..|a| - 1][i] == e;
      }
    }
  }

  lemma {:induction false} AscendingUnique(a: seq<Entry>, b: seq<Entry>)
    requires Ascending(a) && Ascending(b)
    requires SameMembers(a, b)
    ensures a == b
    decreases |a|
  {
    if a == [] {
      FirstShared(a, b);
    } else {
      LastsAgree(a, b);
      FrontsAgree(a, b);
      FrontAscending(a);
      FrontAscending(b);
      hide Ascending, SameMembers;
      AscendingUnique(a[..|a| - 1], b[..|b| - 1]);
      assert a == a[..|a| - 1] + [a[|a| - 1]] && b == b[..|b| - 1] + [b[|b| - 1]];
    }
  }

  lemma FrontAscending(a: seq<Entry>)
    requires Ascending(a) && a != []
    ensures Ascending(a[..|a| - 1])
  {
  }

  lemma LastsAgree(a: seq<Entry>, b: seq<Entry>)
    requires Ascending(a) && Ascending(b) && SameMembers(a, b) && a != []
    ensures b != [] && a[|a| - 1] == b[|b| - 1]
  {
    assert a[0] in b;
    assert a[|a| - 1] in b && b[|b| - 1] in a;
    LastIsLargest(a, b[|b| - 1]);
    LastIsLargest(b, a[|a| - 1]);
  }

  lemma FrontsAgree(a: seq<Entry>, b: seq<Entry>)
    requires Ascending(a) && Ascending(b) && a != [] && b != [] && a[|a| - 1] == b[|b| - 1]
    requires SameMembers(a, b)
    ensures SameMembers(a[..|a| - 1], b[..|b| - 1])
  {
    var fa, fb := a[..|a| - 1], b[..|b| - 1];
    forall e ensures e in fa <==> e in fb {
      InFront(a, e);
      InFront(b, e);
    }
  }

  lemma AscendingDistinct(entries: seq<Entry>)
    requires Ascending(entries)
    ensures DistinctUids(entries)
  {
  }

  lemma {:induction false} KeptInOrder(pass: seq<Verdict>)
    requires forall i, j :: 0 <= i < j < |pass| && pass[i].Keep? && pass[j].Keep? ==>
        pass[i].entry.uid < pass[j].entry.uid
    ensures Ascending(Kept(pass))
  {
    if pass != [] {
      var before, last := pass[..|pass| - 1], pass[|pass| - 1];
      KeptInOrder(before);
      KeptContents(before);
      if last.Keep? {
        forall i | 0 <= i < |Kept(before)| ensures Kept(before)[i].uid < last.entry.uid {
          var e := Kept(before)[i];
          assert e in Kept(before);
        }
      }
    }
  }

  // A pass over ascending entries keeps some of their UIDs, in order.
  lemma KeptAscending(entries: seq<Entry>, pass: seq<Verdict>)
    requires Ascending(entries) && PassOver(pass, entries)
    ensures Ascending(Kept(pass))
    ensures Known(Kept(pass)) <= Known(entries)
  {
    KeptInOrder(pass);
    KeptContents(pass);
    forall e | e in Kept(pass) ensures e.uid in Known(entries) {
      var i :| 0 <= i < |pass| && pass[i].Keep? && pass[i].entry == e;
      assert entries[i] in entries;
    }
  }

  lemma {:induction false} UnknownAscending(loaded: seq<Entry>, known: set<nat>)
    requires Ascending(loaded)
    ensures Ascending(Unknown(loaded, known))
  {
    if loaded != [] {
      var front := loaded[..|loaded| - 1];
      UnknownAscending(front, known);
      UnknownContents(front, known);
      forall e | e in Unknown(front, known) ensures e.uid < loaded[|loaded| - 1].uid {
        assert e in front;
      }
    }
  }

  lemma ConcatAscending(a: seq<Entry>, b: seq<Entry>)
    requires Ascending(a) && Ascending(b)
    requires forall x, y :: x in a && y in b ==> x.uid < y.uid
    ensures Ascending(a + b)
  {
    forall i, j | 0 <= i < j < |a + b| ensures (a + b)[i].uid < (a + b)[j].uid {
      if i < |a| <= j {
        assert (a + b)[i] in a && (a + b)[j] in b;
      }
    }
  }

  lemma ResyncIsPass(entries: seq<Entry>, loaded: seq<Entry>, w: Writer, mode: Mode)
    ensures PassOver(ResyncPass(entries, loaded, w, mode), entries)
  {
    ByUidContents(loaded);
  }

  /** Selecting a folder gives a view that fits. */
  lemma LoadFits(s: Store, folder: string, loaded: seq<Entry>)
    requires UidsValid(s) && IsLoad(s, folder, loaded) && folder in s.folderIds
    ensures ViewFits(loaded, s, folder)
  {
    forall id, uid | LiveAt(s, id, folder, uid) ensures uid in Known(loaded) {
      assert EntryOf(id, s.rows[id]) in loaded;
    }
  }

  /** Nothing other sessions do to the store can make a view stop fitting. */
  lemma FitsLater(entries: seq<Entry>, s: Store, t: Store, folder: string)
    requires ViewFits(entries, s, folder) && Later(s, t)
    ensures ViewFits(entries, t, folder)
  {
  }

  lemma ResyncAscending(entries: seq<Entry>, s: Store, folder: string, loaded: seq<Entry>, w: Writer, mode: Mode)
    requires UidsValid(s) && ViewFits(entries, s, folder) && IsLoad(s, folder, loaded) && folder in s.folders
    ensures Ascending(ResyncEntries(entries, loaded, w, mode))
  {
    var kept, more := Kept(ResyncPass(entries, loaded, w, mode)), Appended(entries, loaded, w, mode);
    ResyncIsPass(entries, loaded, w, mode);
    KeptAscending(entries, ResyncPass(entries, loaded, w, mode));
    UnknownAscending(loaded, Known(entries));
    UnknownContents(loaded, Known(entries));
    forall x, y | x in kept && y in more ensures x.uid < y.uid {
      assert x.uid in Known(kept);
      var o :| o in entries && o.uid == x.uid;
      assert LiveAt(s, y.item, folder, y.uid);
    }
    ConcatAscending(kept, more);
  }

  // A live message unknown to the next list was unknown before and was not appended.
  lemma StillUnknown(entries: seq<Entry>, s: Store, folder: string, loaded: seq<Entry>, w: Writer, mode: Mode,
      id: string, uid: nat)
    requires IsLoad(s, folder, loaded) && LiveAt(s, id, folder, uid)
    requires uid !in Known(ResyncEntries(entries, loaded, w, mode))
    ensures uid !in Known(entries) && !(mode.extend && !w.NoWriter?)
  {
    var f := EntryOf(id, s.rows[id]);
    assert f in loaded && f.uid == uid;
    ExistsDebt(entries, loaded, w, mode);
    assert OwesExists(ResyncEntries(entries, loaded, w, mode), loaded);
    if uid in Known(entries) {
      var o :| o in entries && o.uid == uid;
      ByUidContents(loaded);
      KeptOf(entries, loaded, w, mode, o);
    }
  }

  lemma NextKnown(entries: seq<Entry>, loaded: seq<Entry>, w: Writer, mode: Mode, e: Entry)
    requires e in ResyncEntries(entries, loaded, w, mode)
    ensures e.uid in Known(entries) || (e in loaded && mode.extend && !w.NoWriter?)
  {
    ByUidContents(loaded);
    NextOrigin(entries, loaded, w, mode, e);
  }

  /** Every resync, whatever its writer and mode, leaves a view that fits. */
  lemma ResyncFits(entries: seq<Entry>, s: Store, folder: string, loaded: seq<Entry>, w: Writer, mode: Mode)
    requires UidsValid(s) && ViewFits(entries, s, folder) && IsLoad(s, folder, loaded) && folder in s.folders
    ensures ViewFits(ResyncEntries(entries, loaded, w, mode), s, folder)
  {
    var next := ResyncEntries(entries, loaded, w, mode);
    ResyncAscending(entries, s, folder, loaded, w, mode);
    forall e | e in next ensures e.uid < s.folders[folder].uidNext {
      NextKnown(entries, loaded, w, mode, e);
      assert e in loaded ==> LiveAt(s, e.item, folder, e.uid);
    }
    forall id, uid, e | LiveAt(s, id, folder, uid) && uid !in Known(next) && e in next ensures e.uid < uid {
      StillUnknown(entries, s, folder, loaded, w, mode, id, uid);
      NextKnown(entries, loaded, w, mode, e);
      var o :| o in entries && o.uid == e.uid;
    }
  }

  /** Compaction, as EXPUNGE and MOVE do it: entries may leave the list once
      nothing is live at their UIDs any more. */
  lemma CompactFits(entries: seq<Entry>, s: Store, folder: string, pass: seq<Verdict>)
    requires ViewFits(entries, s, folder) && PassOver(pass, entries)
    requires folder in s.folders ==>
        forall i :: 0 <= i < |pass| && pass[i].Drop? ==> !Occupied(s, folder, entries[i].uid)
    ensures ViewFits(Kept(pass), s, folder)
  {
    var next := Kept(pass);
    KeptAscending(entries, pass);
    KeptContents(pass);
    forall e | e in next && folder in s.folders ensures e.uid < s.folders[folder].uidNext {
      var o :| o in entries && o.uid == e.uid;
    }
    forall id, uid, e | folder in s.folders && LiveAt(s, id, folder, uid) && uid !in Known(next) && e in next
      ensures e.uid < uid {
      assert Occupied(s, folder, uid);
      forall i | 0 <= i < |entries| ensures entries[i].uid != uid {
        if pass[i].Keep? {
          assert pass[i].entry in next;
        }
      }
      var o :| o in entries && o.uid == e.uid;
    }
  }

  lemma FullResyncMember(entries: seq<Entry>, loaded: seq<Entry>, mode: Mode, e: Entry)
    requires DistinctUids(loaded) && mode.expunge && mode.extend
    ensures e in ResyncEntries(entries, loaded, FullWriter, mode) <==> e in loaded
  {
    ByUidContents(loaded);
    if e in ResyncEntries(entries, loaded, FullWriter, mode) {
      NextOrigin(entries, loaded, FullWriter, mode, e);
    }
    if e in loaded {
      ByUidOf(loaded, e);
      UnknownContents(loaded, Known(entries));
      if e.uid in Known(entries) {
        var o :| o in entries && o.uid == e.uid;
        KeptOf(entries, loaded, FullWriter, mode, o);
      } else {
        assert e in Unknown(loaded, Known(entries));
      }
    }
  }

  /** A resync with the real writer that may expunge and extend leaves exactly
      what a fresh load returns, and owes the client nothing. */
  lemma FullResyncIsLoad(v: View, s: Store, folder: string, loaded: seq<Entry>, mode: Mode, now: int)
    requires UidsValid(s) && ViewFits(v.entries, s, folder) && IsLoad(s, folder, loaded) && folder in s.folders
    requires mode.expunge && mode.extend
    ensures ResyncView(v, loaded, FullWriter, mode, now) == View(loaded, false, false, false, now)
  {
    var next := ResyncEntries(v.entries, loaded, FullWriter, mode);
    AscendingDistinct(loaded);
    ResyncAscending(v.entries, s, folder, loaded, FullWriter, mode);
    forall e ensures e in next <==> e in loaded {
      FullResyncMember(v.entries, loaded, mode, e);
    }
    AscendingUnique(next, loaded);
    assert NoneGone(loaded);
    ResyncDebts(v, loaded, FullWriter, mode, now);
  }
}

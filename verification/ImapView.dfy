/**
 The IMAP session view as a value, the responses the session writes, and the
 client that replays them.

 Every pass that changes the list of entries (resync, EXPUNGE, MOVE) decides
 for each old entry, in order, whether it stays or goes.  A pass is therefore a
 sequence of verdicts; what it leaves is Kept, what it writes is Said.
 */
module ImapView {
  import opened Common
  import opened MailModel

  datatype Entry = Entry(uid: nat, item: string, message: string, flags: Flags, gone: bool)

  datatype Response =
    | Expunge(position: nat)
    | Exists(count: nat)
    | FetchFlags(position: nat, uid: nat, flags: Flags)

  // No writer, the real one, and the one that lets only EXPUNGE through.
  datatype Writer = NoWriter | FullWriter | ExpungeOnly

  datatype Mode = Mode(expunge: bool, extend: bool, force: bool)

  datatype Verdict = Keep(entry: Entry, tell: bool) | Drop

  function Written(w: Writer, r: Response): seq<Response> {
    match w
    case NoWriter => []
    case FullWriter => [r]
    case ExpungeOnly => if r.Expunge? then [r] else []
  }

  function Wrote(kept: seq<Entry>, last: Verdict, w: Writer): seq<Response> {
    if last.Drop? then Written(w, Expunge(|kept| + 1))
    else if last.tell then Written(w, FetchFlags(|kept| + 1, last.entry.uid, last.entry.flags))
    else []
  }

  function Left(last: Verdict): seq<Entry> {
    if last.Keep? then [last.entry] else []
  }

  function Kept(pass: seq<Verdict>): (next: seq<Entry>)
    ensures |next| <= |pass|
  {
    if pass == [] then []
    else Kept(pass[..|pass| - 1]) + Left(pass[|pass| - 1])
  }

  function Said(pass: seq<Verdict>, w: Writer): seq<Response> {
    if pass == [] then []
    else
      var before := pass[..|pass| - 1];
      Said(before, w) + Wrote(Kept(before), pass[|pass| - 1], w)
  }

  lemma PassNext(pass: seq<Verdict>, i: nat, w: Writer)
    requires i < |pass|
    ensures Kept(pass[..i + 1]) == Kept(pass[..i]) + Left(pass[i])
    ensures Said(pass[..i + 1], w) == Said(pass[..i], w) + Wrote(Kept(pass[..i]), pass[i], w)
    ensures pass[i].Drop? && w.FullWriter? ==>
        Said(pass[..i + 1], w) == Said(pass[..i], w) + [Expunge(|Kept(pass[..i])| + 1)]
    ensures pass[i].Keep? && !pass[i].tell ==> Said(pass[..i + 1], w) == Said(pass[..i], w)
  {
    assert pass[..i + 1][..i] == pass[..i];
  }

  /** The client's list: for each position the UID it has learnt, if any. */
  type Client = seq<Option<nat>>

  // A client following RFC 3501, sections 7.3.1, 7.4.1 and 7.4.2; None when a
  // response contradicts what it holds.
  function Receive(client: Client, r: Response): Option<Client> {
    match r
    case Expunge(n) => if 1 <= n <= |client| then Some(client[..n - 1] + client[n..]) else None
    case Exists(n) => if |client| <= n then Some(client + seq(n - |client|, _ => None)) else None
    case FetchFlags(n, uid, _) =>
      if 1 <= n <= |client| && (client[n - 1].None? || client[n - 1] == Some(uid))
      then Some(client[n - 1 := Some(uid)]) else None
  }

  function Replay(client: Client, responses: seq<Response>): Option<Client> {
    if responses == [] then Some(client)
    else
      var before := Replay(client, responses[..|responses| - 1]);
      if before.None? then None else Receive(before.value, responses[|responses| - 1])
  }

  ghost predicate Mirrors(client: Client, entries: seq<Entry>) {
    && |client| == |entries|
    && forall i :: 0 <= i < |client| ==> client[i].None? || client[i] == Some(entries[i].uid)
  }

  ghost predicate ReplayMirrors(client: Client, responses: seq<Response>, entries: seq<Entry>) {
    Replay(client, responses).Some? && Mirrors(Replay(client, responses).value, entries)
  }

  lemma {:induction false} ReplayAppend(client: Client, a: seq<Response>, b: seq<Response>)
    ensures Replay(client, a + b) == if Replay(client, a).None? then None else Replay(Replay(client, a).value, b)
    decreases |b|
  {
    if b == [] {
      assert a + b == a;
    } else {
      var front := b[..|b| - 1];
      assert (a + b)[..|a + b| - 1] == a + front;
      ReplayAppend(client, a, front);
    }
  }

  // A pass over these entries: it may rewrite an entry but not renumber it.
  ghost predicate PassOver(pass: seq<Verdict>, entries: seq<Entry>) {
    && |pass| == |entries|
    && forall i :: 0 <= i < |pass| && pass[i].Keep? ==> pass[i].entry.uid == entries[i].uid
  }

  lemma ReplayOne(client: Client, r: Response)
    ensures Replay(client, [r]) == Receive(client, r)
  {
    assert [r][..0] == [];
  }

  lemma OneVerdict(client: Client, kept: seq<Entry>, o: Entry, rest: seq<Entry>, last: Verdict, w: Writer)
    requires Mirrors(client, kept + [o] + rest)
    requires last.Keep? ==> last.entry.uid == o.uid
    requires w.NoWriter? ==> last.Keep?
    ensures ReplayMirrors(client, Wrote(kept, last, w), kept + Left(last) + rest)
  {
    var n := |kept|;
    assert (kept + [o] + rest)[n] == o;
    if last.Drop? {
      ReplayOne(client, Expunge(n + 1));
      var after := client[..n] + client[n + 1..];
      forall i | 0 <= i < |after| ensures after[i].None? || after[i] == Some((kept + rest)[i].uid) {
        assert after[i] == client[if i < n then i else i + 1];
        assert (kept + rest)[i] == (kept + [o] + rest)[if i < n then i else i + 1];
      }
      assert kept + Left(last) + rest == kept + rest;
    } else {
      var next := kept + [last.entry] + rest;
      assert forall i :: 0 <= i < |next| ==> next[i].uid == (kept + [o] + rest)[i].uid;
      ReplayOne(client, FetchFlags(n + 1, last.entry.uid, last.entry.flags));
    }
  }

  lemma ThenOneVerdict(client: Client, said: seq<Response>, kept: seq<Entry>, o: Entry, rest: seq<Entry>,
      last: Verdict, w: Writer)
    requires ReplayMirrors(client, said, kept + [o] + rest)
    requires last.Keep? ==> last.entry.uid == o.uid
    requires w.NoWriter? ==> last.Keep?
    ensures ReplayMirrors(client, said + Wrote(kept, last, w), kept + Left(last) + rest)
  {
    hide Replay, Mirrors, Wrote, Left;
    OneVerdict(Replay(client, said).value, kept, o, rest, last, w);
    ReplayAppend(client, said, Wrote(kept, last, w));
  }

  lemma VerdictFits(pass: seq<Verdict>, entries: seq<Entry>, k: nat)
    requires PassOver(pass, entries) && k < |pass|
    ensures |pass| == |entries| && (pass[k].Keep? ==> pass[k].entry.uid == entries[k].uid)
  {
  }

  lemma NothingYet(client: Client, entries: seq<Entry>, pass: seq<Verdict>, w: Writer)
    requires Mirrors(client, entries)
    ensures ReplayMirrors(client, Said(pass[..0], w), Kept(pass[..0]) + entries[0..])
  {
    assert Kept(pass[..0]) + entries[0..] == entries;
  }

  // Half way through a pass the client holds the kept part and then the untouched rest.
  lemma {:induction false} PassMirrorsUpTo(client: Client, entries: seq<Entry>, pass: seq<Verdict>, w: Writer, k: nat)
    requires Mirrors(client, entries) && PassOver(pass, entries) && k <= |pass|
    requires w.NoWriter? ==> forall i :: 0 <= i < |pass| ==> pass[i].Keep?
    ensures ReplayMirrors(client, Said(pass[..k], w), Kept(pass[..k]) + entries[k..])
  {
    hide *;
    if k == 0 {
      NothingYet(client, entries, pass, w);
    } else {
      PassMirrorsUpTo(client, entries, pass, w, k - 1);
      VerdictFits(pass, entries, k - 1);
      var kept, said := Kept(pass[..k - 1]), Said(pass[..k - 1], w);
      assert kept + entries[k - 1..] == kept + [entries[k - 1]] + entries[k..];
      PassNext(pass, k - 1, w);
      ThenOneVerdict(client, said, kept, entries[k - 1], entries[k..], pass[k - 1], w);
    }
  }

  /** Any pass, told to a client that mirrors the old entries, leaves it
      mirroring the new ones; without a writer this holds of passes that drop nothing. */
  lemma PassMirrors(client: Client, entries: seq<Entry>, pass: seq<Verdict>, w: Writer)
    requires Mirrors(client, entries) && PassOver(pass, entries)
    requires w.NoWriter? ==> forall i :: 0 <= i < |pass| ==> pass[i].Keep?
    ensures ReplayMirrors(client, Said(pass, w), Kept(pass))
  {
    PassMirrorsUpTo(client, entries, pass, w, |pass|);
    assert pass[..|pass|] == pass && Kept(pass) + entries[|pass|..] == Kept(pass);
  }

  // ----- resync -----

  function ByUid(loaded: seq<Entry>): map<nat, Entry> {
    if loaded == [] then map[]
    else
      var last := loaded[|loaded| - 1];
      ByUid(loaded[..|loaded| - 1])[last.uid := last]
  }

  function Known(entries: seq<Entry>): set<nat> {
    set e | e in entries :: e.uid
  }

  function Judge(e: Entry, loaded: map<nat, Entry>, w: Writer, mode: Mode): Verdict {
    if e.uid in loaded then
      var current := loaded[e.uid];
      if current.flags == e.flags then Keep(current, false)
      else if w.NoWriter? then Keep(current.(flags := e.flags), false)
      else Keep(current, true)
    else if mode.expunge then Drop
    else Keep(e.(gone := true), false)
  }

  function JudgeAll(entries: seq<Entry>, byUid: map<nat, Entry>, w: Writer, mode: Mode): (pass: seq<Verdict>)
    ensures |pass| == |entries|
  {
    seq(|entries|, i requires 0 <= i < |entries| => Judge(entries[i], byUid, w, mode))
  }

  function ResyncPass(entries: seq<Entry>, loaded: seq<Entry>, w: Writer, mode: Mode): (pass: seq<Verdict>)
    ensures |pass| == |entries|
  {
    JudgeAll(entries, ByUid(loaded), w, mode)
  }

  function Unknown(loaded: seq<Entry>, known: set<nat>): seq<Entry> {
    if loaded == [] then []
    else
      var last := loaded[|loaded| - 1];
      Unknown(loaded[..|loaded| - 1], known) + if last.uid in known then [] else [last]
  }

  function Appended(entries: seq<Entry>, loaded: seq<Entry>, w: Writer, mode: Mode): seq<Entry> {
    if mode.extend && !w.NoWriter? then Unknown(loaded, Known(entries)) else []
  }

  datatype View = View(
    entries: seq<Entry>, pendingGone: bool, pendingExists: bool, pendingFlags: bool, lastSync: int)

  const STALE_VIEW_INTERVAL := 30

  function Skips(v: View, changed: bool, w: Writer, mode: Mode, now: int): bool {
    && !changed && !mode.force
    && !(mode.expunge && v.pendingGone)
    && !(mode.extend && v.pendingExists)
    && !(!w.NoWriter? && v.pendingFlags)
    && now - v.lastSync < STALE_VIEW_INTERVAL
  }

  function ResyncEntries(entries: seq<Entry>, loaded: seq<Entry>, w: Writer, mode: Mode): seq<Entry> {
    Kept(ResyncPass(entries, loaded, w, mode)) + Appended(entries, loaded, w, mode)
  }

  function ResyncSaid(entries: seq<Entry>, loaded: seq<Entry>, w: Writer, mode: Mode): seq<Response> {
    Said(ResyncPass(entries, loaded, w, mode), w) +
    if Appended(entries, loaded, w, mode) == [] then []
    else Written(w, Exists(|ResyncEntries(entries, loaded, w, mode)|))
  }

  lemma {:induction false} TellsAt(pass: seq<Verdict>, i: nat)
    requires i < |pass| && pass[i].Keep? && pass[i].tell
    ensures FetchFlags(|Kept(pass[..i])| + 1, pass[i].entry.uid, pass[i].entry.flags) in Said(pass, FullWriter)
    decreases |pass|
  {
    var before := pass[..|pass| - 1];
    if i < |before| {
      TellsAt(before, i);
      assert before[..i] == pass[..i];
    }
  }

  lemma {:induction false} ToldAt(pass: seq<Verdict>, x: Response)
    requires x in Said(pass, FullWriter) && x.FetchFlags?
    ensures 1 <= x.position <= |Kept(pass)|
    ensures Kept(pass)[x.position - 1].uid == x.uid && Kept(pass)[x.position - 1].flags == x.flags
    decreases |pass|
  {
    if x in Said(pass[..|pass| - 1], FullWriter) {
      ToldAt(pass[..|pass| - 1], x);
    }
  }

  /** With the real writer a resync tells the new flags of every message that was
      listed and whose flags differ, and every flag it tells is that of the entry now
      at that position. */
  lemma ResyncTells(entries: seq<Entry>, loaded: seq<Entry>, mode: Mode)
    requires DistinctUids(loaded)
    ensures forall o, f :: o in entries && f in loaded && o.uid == f.uid && o.flags != f.flags ==>
      exists x ::
        x in ResyncSaid(entries, loaded, FullWriter, mode) && x.FetchFlags? && x.uid == f.uid && x.flags == f.flags
    ensures
      var next := ResyncEntries(entries, loaded, FullWriter, mode);
      forall x :: x in ResyncSaid(entries, loaded, FullWriter, mode) && x.FetchFlags? ==>
        1 <= x.position <= |next| && next[x.position - 1].uid == x.uid && next[x.position - 1].flags == x.flags
  {
    hide Kept, Said, ByUid, Appended;
    var pass := ResyncPass(entries, loaded, FullWriter, mode);
    forall o, f | o in entries && f in loaded && o.uid == f.uid && o.flags != f.flags
      ensures exists x ::
        x in ResyncSaid(entries, loaded, FullWriter, mode) && x.FetchFlags? && x.uid == f.uid && x.flags == f.flags
    {
      ByUidOf(loaded, f);
      var i :| 0 <= i < |entries| && entries[i] == o;
      assert pass[i] == Keep(f, true);
      TellsAt(pass, i);
      assert FetchFlags(|Kept(pass[..i])| + 1, f.uid, f.flags) in ResyncSaid(entries, loaded, FullWriter, mode);
    }
    var next := ResyncEntries(entries, loaded, FullWriter, mode);
    forall x | x in ResyncSaid(entries, loaded, FullWriter, mode) && x.FetchFlags?
      ensures 1 <= x.position <= |next| && next[x.position - 1].uid == x.uid && next[x.position - 1].flags == x.flags
    {
      ToldAt(pass, x);
    }
  }

  /** A resync is skipped only if nothing was announced, it is not forced, no debt may
      be paid, and the last one is less than thirty seconds old. */
  lemma SkippedOnlyIf(v: View, changed: bool, w: Writer, mode: Mode, now: int)
    requires Skips(v, changed, w, mode, now)
    ensures !changed && !mode.force && now - v.lastSync < 30
    ensures !(v.pendingGone && mode.expunge) && !(v.pendingExists && mode.extend)
    ensures !(v.pendingFlags && w != NoWriter)
  {
  }

  // What is still owed to the client, measured against a fresh load.
  ghost predicate OwesGone(entries: seq<Entry>, loaded: seq<Entry>) {
    exists e :: e in entries && e.uid !in Known(loaded)
  }

  ghost predicate OwesExists(entries: seq<Entry>, loaded: seq<Entry>) {
    exists e :: e in loaded && e.uid !in Known(entries)
  }

  ghost predicate OwesFlags(entries: seq<Entry>, loaded: seq<Entry>) {
    exists e, f :: e in entries && f in loaded && e.uid == f.uid && e.flags != f.flags
  }

  ghost predicate PendingExact(v: View, loaded: seq<Entry>) {
    && (v.pendingGone <==> OwesGone(v.entries, loaded))
    && (v.pendingExists <==> OwesExists(v.entries, loaded))
    && (v.pendingFlags <==> OwesFlags(v.entries, loaded))
  }

  ghost predicate DistinctUids(entries: seq<Entry>) {
    forall i, j :: 0 <= i < j < |entries| ==> entries[i].uid != entries[j].uid
  }

  ghost predicate NoneGone(entries: seq<Entry>) {
    forall e :: e in entries ==> !e.gone
  }

  lemma {:induction false} ByUidContents(loaded: seq<Entry>)
    ensures ByUid(loaded).Keys == Known(loaded)
    ensures forall uid :: uid in ByUid(loaded) ==> ByUid(loaded)[uid] in loaded && ByUid(loaded)[uid].uid == uid
  {
    if loaded != [] {
      ByUidContents(loaded[..|loaded| - 1]);
      assert loaded == loaded[..|loaded| - 1] + [loaded[|loaded| - 1]];
    }
  }

  lemma ByUidOf(loaded: seq<Entry>, f: Entry)
    requires DistinctUids(loaded) && f in loaded
    ensures f.uid in ByUid(loaded) && ByUid(loaded)[f.uid] == f
  {
    ByUidContents(loaded);
    var i :| 0 <= i < |loaded| && loaded[i] == f;
    var j :| 0 <= j < |loaded| && loaded[j] == ByUid(loaded)[f.uid];
    assert i < j || j < i || i == j;
  }

  lemma {:induction false} UnknownContents(loaded: seq<Entry>, known: set<nat>)
    ensures forall e :: e in Unknown(loaded, known) <==> e in loaded && e.uid !in known
  {
    if loaded != [] {
      UnknownContents(loaded[..|loaded| - 1], known);
      assert loaded == loaded[..|loaded| - 1] + [loaded[|loaded| - 1]];
    }
  }

  lemma {:induction false} KeptContents(pass: seq<Verdict>)
    ensures forall e :: e in Kept(pass) <==> exists i :: 0 <= i < |pass| && pass[i].Keep? && pass[i].entry == e
  {
    if pass != [] {
      var before, last := pass[..|pass| - 1], pass[|pass| - 1];
      KeptContents(before);
      forall e ensures e in Kept(pass) <==> exists i :: 0 <= i < |pass| && pass[i].Keep? && pass[i].entry == e {
        if e in Kept(before) {
          var i :| 0 <= i < |before| && before[i].Keep? && before[i].entry == e;
          assert pass[i] == before[i];
        }
        if last.Keep? && e == last.entry {
          assert pass[|pass| - 1].entry == e;
        }
        if i :| 0 <= i < |pass| && pass[i].Keep? && pass[i].entry == e {
          if i < |before| {
            assert before[i] == pass[i];
          }
        }
      }
    }
  }

  lemma {:induction false} KeptAll(pass: seq<Verdict>)
    requires forall i :: 0 <= i < |pass| ==> pass[i].Keep?
    ensures |Kept(pass)| == |pass| && forall i :: 0 <= i < |pass| ==> Kept(pass)[i] == pass[i].entry
  {
    if pass != [] {
      KeptAll(pass[..|pass| - 1]);
    }
  }

  // What an entry kept by resync looks like.
  lemma JudgedEntry(entries: seq<Entry>, loaded: seq<Entry>, w: Writer, mode: Mode, e: Entry)
    requires e in Kept(ResyncPass(entries, loaded, w, mode))
    ensures exists o ::
      o in entries && Judge(o, ByUid(loaded), w, mode).Keep? && Judge(o, ByUid(loaded), w, mode).entry == e
  {
    var pass := ResyncPass(entries, loaded, w, mode);
    KeptContents(pass);
    var i :| 0 <= i < |pass| && pass[i].Keep? && pass[i].entry == e;
    assert entries[i] in entries;
  }

  lemma KeptOf(entries: seq<Entry>, loaded: seq<Entry>, w: Writer, mode: Mode, o: Entry)
    requires o in entries && Judge(o, ByUid(loaded), w, mode).Keep?
    ensures Judge(o, ByUid(loaded), w, mode).entry in Kept(ResyncPass(entries, loaded, w, mode))
  {
    var pass := ResyncPass(entries, loaded, w, mode);
    KeptContents(pass);
    var i :| 0 <= i < |entries| && entries[i] == o;
    assert pass[i].Keep?;
  }

  lemma AppendedNone(entries: seq<Entry>, loaded: seq<Entry>, w: Writer, mode: Mode)
    ensures Appended(entries, loaded, w, mode) == [] <==>
        !(mode.extend && !w.NoWriter? && OwesExists(entries, loaded))
  {
    UnknownOwed(entries, loaded);
  }

  // Entries dropped without a writer: the client is not told.
  lemma SilentDropDesyncs(client: Client, entries: seq<Entry>, loaded: seq<Entry>, mode: Mode)
    requires Mirrors(client, entries) && mode.expunge && OwesGone(entries, loaded)
    ensures !ReplayMirrors(client, ResyncSaid(entries, loaded, NoWriter, mode),
        ResyncEntries(entries, loaded, NoWriter, mode))
  {
    ByUidContents(loaded);
    var pass := ResyncPass(entries, loaded, NoWriter, mode);
    var o :| o in entries && o.uid !in Known(loaded);
    var i :| 0 <= i < |entries| && entries[i] == o;
    assert pass[i].Drop?;
    SilentPass(pass);
    DroppedShrinks(pass);
  }

  lemma PassPart(client: Client, entries: seq<Entry>, loaded: seq<Entry>, w: Writer, mode: Mode)
    requires Mirrors(client, entries) && !(w.NoWriter? && mode.expunge && OwesGone(entries, loaded))
    ensures ReplayMirrors(client, Said(ResyncPass(entries, loaded, w, mode), w),
        Kept(ResyncPass(entries, loaded, w, mode)))
  {
    ByUidContents(loaded);
    var pass := ResyncPass(entries, loaded, w, mode);
    if w.NoWriter? {
      forall i | 0 <= i < |pass| ensures pass[i].Keep? {
        assert entries[i] in entries;
      }
    }
    PassMirrors(client, entries, pass, w);
  }

  /** Resync keeps the client in step, whatever the load (folder or label, in
      any order), exactly when every dropped entry is written as EXPUNGE and
      every appended one as EXISTS. */
  lemma ResyncMirrors(client: Client, entries: seq<Entry>, loaded: seq<Entry>, w: Writer, mode: Mode)
    requires Mirrors(client, entries)
    ensures ReplayMirrors(client, ResyncSaid(entries, loaded, w, mode), ResyncEntries(entries, loaded, w, mode))
       <==> && !(w.NoWriter? && mode.expunge && OwesGone(entries, loaded))
            && !(w.ExpungeOnly? && mode.extend && OwesExists(entries, loaded))
  {
    var kept, said := Kept(ResyncPass(entries, loaded, w, mode)), Said(ResyncPass(entries, loaded, w, mode), w);
    var more := Appended(entries, loaded, w, mode);
    AppendedNone(entries, loaded, w, mode);
    if w.NoWriter? && mode.expunge && OwesGone(entries, loaded) {
      SilentDropDesyncs(client, entries, loaded, mode);
    } else {
      PassPart(client, entries, loaded, w, mode);
      var held := Replay(client, said).value;
      if more == [] {
        assert kept + more == kept && said + [] == said;
      } else if w.ExpungeOnly? {
        assert said + [] == said;
      } else {
        ReplayOne(held, Exists(|kept + more|));
        ReplayAppend(client, said, [Exists(|kept + more|)]);
      }
    }
  }

  lemma {:induction false} SilentPass(pass: seq<Verdict>)
    ensures Said(pass, NoWriter) == []
  {
    if pass != [] {
      SilentPass(pass[..|pass| - 1]);
    }
  }

  lemma {:induction false} DroppedShrinks(pass: seq<Verdict>)
    ensures (exists i :: 0 <= i < |pass| && pass[i].Drop?) ==> |Kept(pass)| < |pass|
  {
    if pass != [] {
      var before := pass[..|pass| - 1];
      DroppedShrinks(before);
      if i :| 0 <= i < |pass| && pass[i].Drop? {
        assert i < |before| ==> before[i].Drop?;
      }
    }
  }

  // The callers' combinations: FETCH, SEARCH, STORE and COPY; NOOP and IDLE; EXPUNGE and MOVE.
  predicate CallerMode(w: Writer, mode: Mode) {
    match w
    case NoWriter => !mode.expunge && !mode.extend
    case FullWriter => mode.extend
    case ExpungeOnly => mode.expunge && !mode.extend && mode.force
  }

  /** With no writer and no permissions a resync renumbers nothing, changes no
      stored flag and says nothing. */
  lemma QuietResync(entries: seq<Entry>, loaded: seq<Entry>, mode: Mode)
    requires !mode.expunge && !mode.extend
    ensures
      var next := ResyncEntries(entries, loaded, NoWriter, mode);
      && |next| == |entries| && ResyncSaid(entries, loaded, NoWriter, mode) == []
      && forall i :: 0 <= i < |next| ==> next[i].uid == entries[i].uid && next[i].flags == entries[i].flags
  {
    var pass := ResyncPass(entries, loaded, NoWriter, mode);
    ByUidContents(loaded);
    KeptAll(pass);
    SilentPass(pass);
  }

  // RFC 3501, section 7.4.1: no EXPUNGE where the mode does not allow one.
  lemma {:induction false} NoExpungeSaid(pass: seq<Verdict>, w: Writer)
    requires forall i :: 0 <= i < |pass| ==> pass[i].Keep?
    ensures forall r :: r in Said(pass, w) ==> r.FetchFlags?
  {
    if pass != [] {
      NoExpungeSaid(pass[..|pass| - 1], w);
    }
  }

  lemma ResyncWithoutExpunge(entries: seq<Entry>, loaded: seq<Entry>, w: Writer, mode: Mode)
    requires !mode.expunge
    ensures forall r :: r in ResyncSaid(entries, loaded, w, mode) ==> !r.Expunge?
  {
    NoExpungeSaid(ResyncPass(entries, loaded, w, mode), w);
  }

  predicate AnyGone(entries: seq<Entry>) {
    exists e :: e in entries && e.gone
  }

  predicate Differs(e: Entry, byUid: map<nat, Entry>) {
    e.uid in byUid && byUid[e.uid].flags != e.flags
  }

  predicate AnyDiffers(entries: seq<Entry>, byUid: map<nat, Entry>) {
    exists e :: e in entries && Differs(e, byUid)
  }

  // The view after a resync that did not return early, bit by bit as computed.
  function ResyncView(v: View, loaded: seq<Entry>, w: Writer, mode: Mode, now: int): View {
    var next := ResyncEntries(v.entries, loaded, w, mode);
    View(next,
         AnyGone(next),
         !(mode.extend && !w.NoWriter?) && Unknown(loaded, Known(v.entries)) != [],
         w.NoWriter? && AnyDiffers(v.entries, ByUid(loaded)),
         now)
  }

  // Where an entry of the next list came from.
  lemma NextOrigin(entries: seq<Entry>, loaded: seq<Entry>, w: Writer, mode: Mode, e: Entry)
    requires e in ResyncEntries(entries, loaded, w, mode)
    ensures
      || (exists o ::
            o in entries && Judge(o, ByUid(loaded), w, mode).Keep? && Judge(o, ByUid(loaded), w, mode).entry == e)
      || (e in loaded && e.uid !in Known(entries) && mode.extend && !w.NoWriter?)
  {
    UnknownContents(loaded, Known(entries));
    if e in Kept(ResyncPass(entries, loaded, w, mode)) {
      JudgedEntry(entries, loaded, w, mode, e);
    }
  }

  lemma GoneDebt(entries: seq<Entry>, loaded: seq<Entry>, w: Writer, mode: Mode)
    requires NoneGone(loaded)
    ensures
      var next := ResyncEntries(entries, loaded, w, mode);
      && (OwesGone(next, loaded) <==> OwesGone(entries, loaded) && !mode.expunge)
      && (AnyGone(next) <==> OwesGone(next, loaded))
  {
    ByUidContents(loaded);
    var next := ResyncEntries(entries, loaded, w, mode);
    forall e | e in next ensures e.gone <==> e.uid !in Known(loaded)
      ensures e.gone ==> OwesGone(entries, loaded) && !mode.expunge
    {
      NextOrigin(entries, loaded, w, mode, e);
    }
    if OwesGone(entries, loaded) && !mode.expunge {
      var o :| o in entries && o.uid !in Known(loaded);
      KeptOf(entries, loaded, w, mode, o);
      assert o.(gone := true) in next;
    }
  }

  lemma ExistsDebtOne(entries: seq<Entry>, loaded: seq<Entry>, w: Writer, mode: Mode, e: Entry)
    requires e in loaded
    ensures e.uid !in Known(ResyncEntries(entries, loaded, w, mode)) <==>
        e.uid !in Known(entries) && !(mode.extend && !w.NoWriter?)
  {
    ByUidContents(loaded);
    UnknownContents(loaded, Known(entries));
    var next := ResyncEntries(entries, loaded, w, mode);
    if e.uid in Known(entries) {
      var o :| o in entries && o.uid == e.uid;
      KeptOf(entries, loaded, w, mode, o);
      assert Judge(o, ByUid(loaded), w, mode).entry in next;
    } else if mode.extend && !w.NoWriter? {
      assert e in next;
    } else if e.uid in Known(next) {
      var n :| n in next && n.uid == e.uid;
      NextOrigin(entries, loaded, w, mode, n);
    }
  }

  lemma UnknownOwed(entries: seq<Entry>, loaded: seq<Entry>)
    ensures Unknown(loaded, Known(entries)) != [] <==> OwesExists(entries, loaded)
  {
    var unknown := Unknown(loaded, Known(entries));
    UnknownContents(loaded, Known(entries));
    if unknown != [] {
      assert unknown[0] in unknown;
    }
  }

  lemma ExistsDebt(entries: seq<Entry>, loaded: seq<Entry>, w: Writer, mode: Mode)
    ensures OwesExists(ResyncEntries(entries, loaded, w, mode), loaded) <==>
        OwesExists(entries, loaded) && !(mode.extend && !w.NoWriter?)
  {
    forall e | e in loaded
      ensures e.uid !in Known(ResyncEntries(entries, loaded, w, mode)) <==>
          e.uid !in Known(entries) && !(mode.extend && !w.NoWriter?)
    {
      ExistsDebtOne(entries, loaded, w, mode, e);
    }
  }

  // Flags differ from the load exactly when they differ from its map by UID.
  lemma FlagsByUid(entries: seq<Entry>, loaded: seq<Entry>)
    requires DistinctUids(loaded)
    ensures OwesFlags(entries, loaded) <==> AnyDiffers(entries, ByUid(loaded))
  {
    ByUidContents(loaded);
    if OwesFlags(entries, loaded) {
      var o, f :| o in entries && f in loaded && o.uid == f.uid && o.flags != f.flags;
      ByUidOf(loaded, f);
      assert Differs(o, ByUid(loaded));
    }
  }

  lemma FlagsPaid(entries: seq<Entry>, loaded: seq<Entry>, w: Writer, mode: Mode, e: Entry)
    requires DistinctUids(loaded)
    requires e in ResyncEntries(entries, loaded, w, mode) && Differs(e, ByUid(loaded))
    ensures w.NoWriter? && OwesFlags(entries, loaded)
  {
    ByUidContents(loaded);
    NextOrigin(entries, loaded, w, mode, e);
    if e in loaded && e.uid !in Known(entries) {
      ByUidOf(loaded, e);
    } else {
      var o :| o in entries && Judge(o, ByUid(loaded), w, mode).Keep? && Judge(o, ByUid(loaded), w, mode).entry == e;
      assert Differs(o, ByUid(loaded));
      FlagsByUid(entries, loaded);
    }
  }

  lemma FlagsDebt(entries: seq<Entry>, loaded: seq<Entry>, w: Writer, mode: Mode)
    requires DistinctUids(loaded)
    ensures OwesFlags(ResyncEntries(entries, loaded, w, mode), loaded) <==> OwesFlags(entries, loaded) && w.NoWriter?
  {
    var next := ResyncEntries(entries, loaded, w, mode);
    FlagsByUid(entries, loaded);
    FlagsByUid(next, loaded);
    if OwesFlags(next, loaded) {
      var e :| e in next && Differs(e, ByUid(loaded));
      FlagsPaid(entries, loaded, w, mode, e);
    }
    if OwesFlags(entries, loaded) && w.NoWriter? {
      var o :| o in entries && Differs(o, ByUid(loaded));
      ByUidContents(loaded);
      KeptOf(entries, loaded, w, mode, o);
      assert Judge(o, ByUid(loaded), w, mode).entry in next
          && Differs(Judge(o, ByUid(loaded), w, mode).entry, ByUid(loaded));
    }
  }

  /** After every resync that does not return early the pending bits say exactly
      what is still owed against the load, and each debt survives exactly those
      resyncs whose writer and mode may not pay it. */
  lemma ResyncDebts(v: View, loaded: seq<Entry>, w: Writer, mode: Mode, now: int)
    requires DistinctUids(loaded) && NoneGone(loaded)
    ensures
      var next := ResyncView(v, loaded, w, mode, now);
      && PendingExact(next, loaded)
      && (next.pendingGone <==> OwesGone(v.entries, loaded) && !mode.expunge)
      && (next.pendingExists <==> OwesExists(v.entries, loaded) && !(mode.extend && !w.NoWriter?))
      && (next.pendingFlags <==> OwesFlags(v.entries, loaded) && w.NoWriter?)
  {
    GoneDebt(v.entries, loaded, w, mode);
    ExistsDebt(v.entries, loaded, w, mode);
    UnknownOwed(v.entries, loaded);
    FlagsDebt(v.entries, loaded, w, mode);
    FlagsByUid(v.entries, loaded);
  }

  /** The first resync that may pay a debt cannot return early. */
  lemma DebtForcesResync(v: View, changed: bool, w: Writer, mode: Mode, now: int)
    requires (v.pendingGone && mode.expunge) || (v.pendingExists && mode.extend) || (v.pendingFlags && !w.NoWriter?)
          || now - v.lastSync >= STALE_VIEW_INTERVAL
    ensures !Skips(v, changed, w, mode, now)
  {
  }
}

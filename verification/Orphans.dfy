/** What collecting an unreferenced message removes, and what it never does. */
module OrphanRules {
  import opened Common
  import opened MailModel

  // Transactions that others commit before each of the worker's own.
  type Schedule = nat -> seq<Op>

  predicate Old(s: Store, m: string, cutoff: int) {
    m in s.messages && s.messages[m].createdAt < cutoff
  }

  predicate Orphan(s: Store, m: string, cutoff: int, retention: int) {
    Old(s, m, cutoff) && Unreferenced(s, m, retention)
  }

  ghost function Orphans(s: Store, cutoff: int, retention: int): set<string> {
    set m | m in s.messages && Orphan(s, m, cutoff, retention)
  }

  // The store without some messages and without every row that placed them.
  ghost function Swept(s: Store, victims: set<string>): Store {
    s.(messages := s.messages - victims, rows := map id | id in s.rows && s.rows[id].message !in victims :: s.rows[id])
  }

  /** Collecting removes nothing unless no live row, no row deleted within the
      retention and no open job refers to the message; then it removes the message
      and its rows, and nothing else. */
  lemma CollectExactly(s: Store, m: string, retention: int)
    ensures CollectOp(s, m, retention) ==
      if m in s.messages && Unreferenced(s, m, retention) then Swept(s, {m}) else s
  {
    var dropped := DropExpired(s, m, retention);
    if Unreferenced(dropped, m, retention) {
      forall id | id in s.rows && s.rows[id].message == m ensures Expired(s.rows[id], m, retention) {
        assert !Expired(s.rows[id], m, retention) ==> id in dropped.rows;
      }
      assert dropped.rows == Swept(s, {m}).rows;
    }
  }

  // Collecting another message leaves an orphan an orphan.
  lemma CollectKeeps(s: Store, x: string, m: string, kept: int, retention: int)
    requires Unreferenced(s, m, retention)
    ensures Unreferenced(CollectOp(s, x, kept), m, retention)
  {
    CollectExactly(s, x, kept);
  }

  lemma SweptUnreferenced(s: Store, victims: set<string>, m: string, retention: int)
    requires m !in victims
    ensures Unreferenced(Swept(s, victims), m, retention) <==> Unreferenced(s, m, retention)
  {
    var t := Swept(s, victims);
    assert forall id :: id in s.rows && s.rows[id].message == m ==> id in t.rows && t.rows[id] == s.rows[id];
    assert forall id :: id in t.rows ==> id in s.rows && t.rows[id] == s.rows[id];
  }

  lemma SweptMore(s: Store, victims: set<string>, m: string)
    ensures Swept(Swept(s, victims), {m}) == Swept(s, victims + {m})
  {
    assert s.messages - victims - {m} == s.messages - (victims + {m});
  }

  // A message that others create during the pass is newer than the cutoff.
  predicate Recent(op: Op, cutoff: int) {
    op.DoNewMessage? ==> op.message.createdAt >= cutoff
  }

  lemma {:induction false} RunOld(s: Store, ops: seq<Op>, m: string, cutoff: int)
    requires forall op :: op in ops ==> Recent(op, cutoff)
    ensures Old(Run(s, ops), m, cutoff) ==> Old(s, m, cutoff)
    decreases |ops|
  {
    if ops != [] {
      assert Recent(ops[0], cutoff);
      ApplyOld(s, ops[0], m, cutoff);
      RunOld(Apply(s, ops[0]), ops[1..], m, cutoff);
    }
  }

  lemma ApplyOld(s: Store, op: Op, m: string, cutoff: int)
    requires Recent(op, cutoff)
    ensures Old(Apply(s, op), m, cutoff) ==> Old(s, m, cutoff)
  {
    if op.DoSoftDeleteMany? {
      DeleteEachMessages(s, op.items, op.now);
    }
  }

  lemma {:induction false} DeleteEachMessages(s: Store, items: seq<Item>, now: int)
    ensures DeleteEach(s, items, now).messages == s.messages
    decreases |items|
  {
    if items != [] {
      DeleteEachMessages(SoftDeleteOp(s, items[0], now).store, items[1..], now);
    }
  }

  // The message is unreferenced in every store the run reaches.
  ghost predicate Stays(s: Store, ops: seq<Op>, m: string, retention: int)
    decreases |ops|
  {
    Unreferenced(s, m, retention) && (ops != [] ==> Stays(Apply(s, ops[0]), ops[1..], m, retention))
  }

  // A transaction that places the message, moves a row that does, or queues it.
  predicate TakesUp(s: Store, op: Op, m: string) {
    match op
    case DoAttach(p) => p.message == m
    case DoMove(item, _) => item.id in s.rows && s.rows[item.id].message == m
    case DoSetJob(_, job) => job.message == m && !job.status.Sent? && !job.status.Failed?
    case _ => false
  }

  // Nobody takes the message up again anywhere in the run.
  ghost predicate LeftAlone(s: Store, ops: seq<Op>, m: string)
    decreases |ops|
  {
    ops != [] ==> !TakesUp(s, ops[0], m) && LeftAlone(Apply(s, ops[0]), ops[1..], m)
  }

  lemma {:induction false} DeleteEachUnreferenced(s: Store, items: seq<Item>, now: int, m: string, retention: int)
    requires Unreferenced(s, m, retention)
    ensures Unreferenced(DeleteEach(s, items, now), m, retention)
    decreases |items|
  {
    if items != [] {
      DeleteEachUnreferenced(SoftDeleteOp(s, items[0], now).store, items[1..], now, m, retention);
    }
  }

  /** Every other transaction leaves an unreferenced message unreferenced. */
  lemma NotTakenUp(s: Store, op: Op, m: string, retention: int)
    requires Unreferenced(s, m, retention) && !TakesUp(s, op, m)
    ensures Unreferenced(Apply(s, op), m, retention)
  {
    match op
    case DoSoftDeleteMany(items, now) => DeleteEachUnreferenced(s, items, now, m, retention);
    case DoCollect(x, kept) => CollectKeeps(s, x, m, kept, retention);
    case _ =>
  }

  /** A message that nobody takes up again stays unreferenced through the run. */
  lemma {:induction false} LeftAloneStays(s: Store, ops: seq<Op>, m: string, retention: int)
    requires Unreferenced(s, m, retention) && LeftAlone(s, ops, m)
    ensures Stays(s, ops, m, retention)
    decreases |ops|
  {
    if ops != [] {
      NotTakenUp(s, ops[0], m, retention);
      LeftAloneStays(Apply(s, ops[0]), ops[1..], m, retention);
    }
  }

  lemma {:induction false} StaysAppend(s: Store, first: seq<Op>, second: seq<Op>, m: string, retention: int)
    requires Stays(s, first + second, m, retention)
    ensures Stays(s, first, m, retention) && Stays(Run(s, first), second, m, retention)
    decreases |first|
  {
    if first == [] {
      assert first + second == second;
    } else {
      assert (first + second)[1..] == first[1..] + second;
      StaysAppend(Apply(s, first[0]), first[1..], second, m, retention);
    }
  }

  lemma {:induction false} StaysEnd(s: Store, ops: seq<Op>, m: string, retention: int)
    requires Stays(s, ops, m, retention)
    ensures Unreferenced(Run(s, ops), m, retention)
    decreases |ops|
  {
    if ops != [] {
      StaysEnd(Apply(s, ops[0]), ops[1..], m, retention);
    }
  }

  ghost predicate Silent(env: Schedule) {
    forall k :: env(k) == []
  }
}

/** The cleanup worker's pass over orphaned messages, page by page in order of id,
    while other transactions go on between its own. */
module OrphanCleanup {
  import opened Common
  import opened MailModel
  import opened MailStorage
  import opened OrphanRules
  import opened Transactions

  const PAGE := 200

  // The database's order of ids; any strict total order of them has such a rank.
  ghost predicate Injective(rank: string -> real) {
    forall x, y :: rank(x) == rank(y) ==> x == y
  }

  predicate Beyond(m: string, last: Option<string>, rank: string -> real) {
    last.Some? ==> rank(last.value) < rank(m)
  }

  predicate Candidate(s: Store, m: string, last: Option<string>, cutoff: int, retention: int, rank: string -> real) {
    Orphan(s, m, cutoff, retention) && Beyond(m, last, rank)
  }

  // The first PAGE candidates, in order.
  ghost predicate IsPage(s: Store, page: seq<string>, last: Option<string>, cutoff: int, retention: int,
      rank: string -> real) {
    && |page| <= PAGE
    && (forall m :: m in page ==> Candidate(s, m, last, cutoff, retention, rank))
    && (forall i, j :: 0 <= i < j < |page| ==> rank(page[i]) < rank(page[j]))
    && (forall m :: Candidate(s, m, last, cutoff, retention, rank) && m !in page ==>
        |page| == PAGE && rank(page[PAGE - 1]) < rank(m))
  }

  method Smallest(todo: set<string>, rank: string -> real) returns (m: string)
    requires todo != {}
    ensures m in todo && forall x :: x in todo ==> rank(m) <= rank(x)
  {
    m :| m in todo;
    var rest := todo - {m};
    while rest != {}
      invariant m in todo && rest <= todo
      invariant forall x :: x in todo - rest ==> rank(m) <= rank(x)
      decreases rest
    {
      var x :| x in rest;
      if rank(x) < rank(m) {
        m := x;
      }
      rest := rest - {x};
    }
  }

  // A page part way: the first candidates are in, in order, and todo is left.
  ghost predicate PartPage(s: Store, page: seq<string>, todo: set<string>, last: Option<string>, cutoff: int,
                           retention: int, rank: string -> real) {
    && |page| <= PAGE
    && (forall m :: m in todo || m in page <==> Candidate(s, m, last, cutoff, retention, rank))
    && (forall i, j :: 0 <= i < j < |page| ==> rank(page[i]) < rank(page[j]))
    && (forall x, m :: x in page && m in todo ==> rank(x) < rank(m))
  }

  lemma PartPageNext(s: Store, page: seq<string>, todo: set<string>, m: string, last: Option<string>, cutoff: int,
                     retention: int, rank: string -> real)
    requires PartPage(s, page, todo, last, cutoff, retention, rank) && |page| < PAGE && Injective(rank)
    requires m in todo && forall x :: x in todo ==> rank(m) <= rank(x)
    ensures PartPage(s, page + [m], todo - {m}, last, cutoff, retention, rank)
  {
    hide Candidate;
    assert forall i :: 0 <= i < |page| ==> page[i] in page;
    assert forall x :: x in page + [m] <==> x in page || x == m;
  }

  lemma PartPageEnd(s: Store, page: seq<string>, todo: set<string>, last: Option<string>, cutoff: int,
                    retention: int, rank: string -> real)
    requires PartPage(s, page, todo, last, cutoff, retention, rank) && (todo == {} || |page| == PAGE)
    ensures IsPage(s, page, last, cutoff, retention, rank)
  {
    hide Candidate;
    assert |page| == PAGE ==> page[PAGE - 1] in page;
  }

  method ReadPage(mail: MailStore, last: Option<string>, cutoff: int, retention: int, rank: string -> real)
    returns (page: seq<string>)
    requires Injective(rank)
    ensures IsPage(mail.State(), page, last, cutoff, retention, rank)
  {
    hide Unreferenced;
    var s := mail.State();
    var todo := set m | m in s.messages && Candidate(s, m, last, cutoff, retention, rank);
    page := [];
    assert PartPage(s, page, todo, last, cutoff, retention, rank);
    hide PartPage, IsPage, Candidate;
    while todo != {} && |page| < PAGE
      invariant |page| <= PAGE && PartPage(s, page, todo, last, cutoff, retention, rank)
      decreases todo
    {
      var m := Smallest(todo, rank);
      PartPageNext(s, page, todo, m, last, cutoff, retention, rank);
      page := page + [m];
      todo := todo - {m};
    }
    PartPageEnd(s, page, todo, last, cutoff, retention, rank);
  }

  // One transaction: rolled back unless the message itself went.
  method DeleteMessageRows(mail: MailStore, message: string, retention: int) returns (deleted: bool)
    modifies mail
    ensures mail.State() == CollectOp(old(mail.State()), message, retention)
    ensures deleted <==> message in old(mail.messages) && Unreferenced(old(mail.State()), message, retention)
    ensures (exists r ::
        r in old(mail.rows) && old(mail.rows)[r].message == message && old(mail.rows)[r].deletedAt == None) ==>
      !deleted && mail.State() == old(mail.State())
    ensures (exists r ::
        r in old(mail.rows) && old(mail.rows)[r].message == message && old(mail.rows)[r].deletedAt.Some?
        && old(mail.rows)[r].deletedAt.value >= retention) ==>
      !deleted && mail.State() == old(mail.State())
    ensures (exists j ::
        j in mail.jobs && mail.jobs[j].message == message && mail.jobs[j].status in {Queued, Retry, Processing}) ==>
      !deleted && mail.State() == old(mail.State())
  {
    var begin := mail.State();
    CollectExactly(begin, message, retention);
    UnreferencedMeans(begin, message, retention);
    CollectDone(begin, message, retention);
    mail.rows := map id | id in mail.rows && !Expired(mail.rows[id], message, retention) :: mail.rows[id];
    assert mail.State() == DropExpired(begin, message, retention);
    deleted := message in mail.messages && Unreferenced(mail.State(), message, retention);
    if !deleted {
      mail.Restore(begin);
      return;
    }
    mail.messages := mail.messages - {message};
  }

  // Old messages the pass has not come to yet.
  ghost function Remaining(s: Store, last: Option<string>, cutoff: int, rank: string -> real): set<string> {
    set m | m in s.messages && Old(s, m, cutoff) && Beyond(m, last, rank)
  }

  // Every orphan that stayed unreferenced so far is gone, or still to come.
  ghost predicate OnTheWay(begin: Store, history: seq<Op>, cutoff: int, retention: int, ahead: string -> bool) {
    forall m :: Orphan(begin, m, cutoff, retention) && Stays(begin, history, m, retention) ==>
      !Old(Run(begin, history), m, cutoff) || ahead(m)
  }

  ghost predicate OnlyOrphansGone(begin: Store, s: Store, gone: set<string>, cutoff: int, retention: int) {
    gone <= Orphans(begin, cutoff, retention) && s == Swept(begin, gone)
  }

  lemma InterfereOnTheWay(begin: Store, history: seq<Op>, ops: seq<Op>, cutoff: int, retention: int,
                          ahead: string -> bool)
    requires OnTheWay(begin, history, cutoff, retention, ahead)
    requires forall op :: op in ops ==> Recent(op, cutoff)
    ensures OnTheWay(begin, history + ops, cutoff, retention, ahead)
    ensures Run(begin, history + ops) == Run(Run(begin, history), ops)
    ensures forall m :: Old(Run(begin, history + ops), m, cutoff) ==> Old(Run(begin, history), m, cutoff)
  {
    hide Unreferenced, Old, Run, Stays;
    RunAppend(begin, history, ops);
    forall m | Old(Run(begin, history + ops), m, cutoff) ensures Old(Run(begin, history), m, cutoff) {
      RunOld(Run(begin, history), ops, m, cutoff);
    }
    forall m | Stays(begin, history + ops, m, retention) ensures Stays(begin, history, m, retention) {
      StaysAppend(begin, history, ops, m, retention);
    }
  }

  lemma CollectOnTheWay(begin: Store, history: seq<Op>, x: string, cutoff: int, retention: int,
                        ahead: string -> bool, after: string -> bool)
    requires OnTheWay(begin, history, cutoff, retention, ahead)
    requires forall m :: ahead(m) && m != x ==> after(m)
    ensures
      var now := history + [DoCollect(x, retention)];
      && Run(begin, now) == CollectOp(Run(begin, history), x, retention)
      && OnTheWay(begin, now, cutoff, retention, after)
      && forall m :: Old(Run(begin, now), m, cutoff) ==> Old(Run(begin, history), m, cutoff)
  {
    var s, now := Run(begin, history), history + [DoCollect(x, retention)];
    RunCollect(begin, history, x, retention);
    CollectExactly(s, x, retention);
    hide Unreferenced, Run, Stays, CollectOp;
    forall m | Orphan(begin, m, cutoff, retention) && Stays(begin, now, m, retention)
      ensures !Old(Run(begin, now), m, cutoff) || after(m)
    {
      StaysAppend(begin, history, [DoCollect(x, retention)], m, retention);
      StaysEnd(begin, history, m, retention);
    }
  }

  lemma CollectOnlyOrphans(begin: Store, s: Store, gone: set<string>, x: string, cutoff: int, retention: int)
    requires OnlyOrphansGone(begin, s, gone, cutoff, retention) && Old(begin, x, cutoff)
    ensures OnlyOrphansGone(begin, CollectOp(s, x, retention),
                            if CollectOp(s, x, retention) == s then gone else gone + {x}, cutoff, retention)
  {
    CollectExactly(s, x, retention);
    SweptMore(begin, gone, x);
    if x !in gone {
      SweptUnreferenced(begin, gone, x, retention);
    }
  }

  // Where the orphans still to come are: between pages, and within one.
  ghost function Still(more: bool, last: Option<string>, rank: string -> real): string -> bool {
    m => more && Beyond(m, last, rank)
  }

  ghost function Ahead(page: seq<string>, i: nat, rank: string -> real): string -> bool
    requires i <= |page|
  {
    m => m in page[i..] || (|page| == PAGE && rank(page[PAGE - 1]) < rank(m))
  }

  lemma AheadNext(page: seq<string>, i: nat, rank: string -> real)
    requires i < |page|
    ensures forall m :: Ahead(page, i, rank)(m) && m != page[i] ==> Ahead(page, i + 1, rank)(m)
  {
    assert page[i..] == [page[i]] + page[i + 1..];
  }

  // Every transaction is a collection, by this pass, of a message that was old when
  // it began, or somebody else's.
  ghost predicate Allowed(begin: Store, history: seq<Op>, env: Schedule, cutoff: int, retention: int) {
    forall op :: op in history ==>
      (op.DoCollect? && op.retention == retention && Old(begin, op.id, cutoff)) || exists k :: op in env(k)
  }

  lemma RunCollect(begin: Store, history: seq<Op>, m: string, retention: int)
    ensures Run(begin, history + [DoCollect(m, retention)]) == CollectOp(Run(begin, history), m, retention)
  {
    var t := Run(begin, history);
    RunAppend(begin, history, [DoCollect(m, retention)]);
    assert Run(t, [DoCollect(m, retention)]) == Run(Apply(t, DoCollect(m, retention)), []);
  }

  lemma PassBegins(begin: Store, cutoff: int, retention: int, rank: string -> real)
    ensures Run(begin, []) == begin
    ensures OnTheWay(begin, [], cutoff, retention, Still(true, None, rank))
    ensures OnlyOrphansGone(begin, begin, {}, cutoff, retention)
  {
    hide Unreferenced;
    assert begin.rows == Swept(begin, {}).rows;
  }

  lemma PageBegins(begin: Store, history: seq<Op>, page: seq<string>, last: Option<string>, cutoff: int, retention: int,
                   rank: string -> real)
    requires IsPage(Run(begin, history), page, last, cutoff, retention, rank)
    requires OnTheWay(begin, history, cutoff, retention, Still(true, last, rank))
    ensures OnTheWay(begin, history, cutoff, retention, Ahead(page, 0, rank))
    ensures |page| <= PAGE && forall m :: m in page ==> Old(Run(begin, history), m, cutoff) && Beyond(m, last, rank)
  {
    hide Unreferenced, Old, Run, Stays;
    var s := Run(begin, history);
    assert page[0..] == page;
    forall m | Candidate(s, m, last, cutoff, retention, rank) ensures Ahead(page, 0, rank)(m) {
    }
    forall m | Orphan(begin, m, cutoff, retention) && Stays(begin, history, m, retention) && Old(s, m, cutoff)
      ensures Ahead(page, 0, rank)(m)
    {
      StaysEnd(begin, history, m, retention);
      assert Candidate(s, m, last, cutoff, retention, rank);
    }
  }

  lemma PageEnds(begin: Store, history: seq<Op>, page: seq<string>, from: Option<string>, cutoff: int, retention: int,
                 rank: string -> real)
    requires |page| <= PAGE && OnTheWay(begin, history, cutoff, retention, Ahead(page, |page|, rank))
    ensures OnTheWay(begin, history, cutoff, retention,
                     Still(|page| == PAGE, if page == [] then from else Some(page[|page| - 1]), rank))
  {
    hide Unreferenced, Old, Run, Stays;
  }

  lemma {:induction false} CollectionsStay(begin: Store, history: seq<Op>, m: string, retention: int)
    requires Unreferenced(begin, m, retention) && forall op :: op in history ==> op.DoCollect?
    ensures Stays(begin, history, m, retention)
    decreases |history|
  {
    if history != [] {
      assert history[0] in history;
      NotTakenUp(begin, history[0], m, retention);
      CollectionsStay(Apply(begin, history[0]), history[1..], m, retention);
    }
  }

  lemma PassEnds(begin: Store, history: seq<Op>, last: Option<string>, gone: set<string>, cutoff: int, retention: int,
                 rank: string -> real, env: Schedule)
    requires OnTheWay(begin, history, cutoff, retention, Still(false, last, rank))
    requires Allowed(begin, history, env, cutoff, retention)
    requires Silent(env) ==> OnlyOrphansGone(begin, Run(begin, history), gone, cutoff, retention)
    ensures forall m :: Orphan(begin, m, cutoff, retention) && Stays(begin, history, m, retention) ==>
      !Old(Run(begin, history), m, cutoff)
    ensures Silent(env) ==> Run(begin, history) == Swept(begin, Orphans(begin, cutoff, retention))
  {
    hide Unreferenced;
    if Silent(env) {
      forall m | Orphan(begin, m, cutoff, retention) ensures m in gone {
        CollectionsStay(begin, history, m, retention);
      }
      assert gone == Orphans(begin, cutoff, retention);
    }
  }

  lemma SilentRun(env: Schedule, k: nat, s: Store)
    ensures Silent(env) ==> Run(s, env(k)) == s
  {
  }

  // The loop over one page, from the pass's n-th transaction on.
  method DeletePage(mail: MailStore, page: seq<string>, from: Option<string>, n: nat,
                    cutoff: int, retention: int, rank: string -> real, env: Schedule,
                    ghost begin: Store, ghost past: seq<Op>, ghost gone: set<string>)
    returns (last: Option<string>, next: nat, ghost history: seq<Op>, ghost now: set<string>)
    requires forall k, op :: op in env(k) ==> Recent(op, cutoff)
    requires forall m :: m in page ==> Old(begin, m, cutoff)
    requires mail.State() == Run(begin, past) && Allowed(begin, past, env, cutoff, retention)
    requires OnTheWay(begin, past, cutoff, retention, Ahead(page, 0, rank))
    requires Silent(env) ==> OnlyOrphansGone(begin, mail.State(), gone, cutoff, retention)
    modifies mail
    ensures mail.State() == Run(begin, history) && Allowed(begin, history, env, cutoff, retention)
    ensures forall m :: Old(mail.State(), m, cutoff) ==> Old(old(mail.State()), m, cutoff)
    ensures OnTheWay(begin, history, cutoff, retention, Ahead(page, |page|, rank))
    ensures Silent(env) ==> OnlyOrphansGone(begin, mail.State(), now, cutoff, retention)
    ensures last == if page == [] then from else Some(page[|page| - 1])
  {
    hide Unreferenced, Run, CollectOp, Swept, Orphan, Old, Stays, Silent, OnTheWay, OnlyOrphansGone, Ahead;
    last, next, history, now := from, n, past, gone;
    for i := 0 to |page|
      invariant mail.State() == Run(begin, history) && Allowed(begin, history, env, cutoff, retention)
      invariant forall m :: Old(mail.State(), m, cutoff) ==> Old(old(mail.State()), m, cutoff)
      invariant OnTheWay(begin, history, cutoff, retention, Ahead(page, i, rank))
      invariant Silent(env) ==> OnlyOrphansGone(begin, mail.State(), now, cutoff, retention)
      invariant last == if i == 0 then from else Some(page[i - 1])
    {
      last := Some(page[i]);
      SilentRun(env, next, mail.State());
      InterfereOnTheWay(begin, history, env(next), cutoff, retention, Ahead(page, i, rank));
      mail.Interfere(env(next));
      history := history + env(next);
      next := next + 1;
      ghost var s := mail.State();
      AheadNext(page, i, rank);
      CollectOnTheWay(begin, history, page[i], cutoff, retention, Ahead(page, i, rank), Ahead(page, i + 1, rank));
      var deleted := DeleteMessageRows(mail, page[i], retention);
      history := history + [DoCollect(page[i], retention)];
      if Silent(env) {
        CollectOnlyOrphans(begin, s, now, page[i], cutoff, retention);
        now := if mail.State() == s then now else now + {page[i]};
      }
    }
  }

  /** One pass ends, whatever goes on meanwhile. Its own transactions are collections,
      with this retention, of messages that were old when it began. Every old orphan
      that stays unreferenced in the stores actually reached is gone afterwards, and
      with nothing else going on exactly the old orphans and their rows are gone. */
  method CleanupOrphanedMessages(mail: MailStore, cutoff: int, retention: int, rank: string -> real, env: Schedule)
    returns (ghost history: seq<Op>)
    requires Injective(rank)
    requires forall k, op :: op in env(k) ==> Recent(op, cutoff)
    modifies mail
    ensures mail.State() == Run(old(mail.State()), history)
    ensures Allowed(old(mail.State()), history, env, cutoff, retention)
    ensures forall m ::
      Orphan(old(mail.State()), m, cutoff, retention) && Stays(old(mail.State()), history, m, retention) ==>
        !Old(mail.State(), m, cutoff)
    ensures Silent(env) ==> mail.State() == Swept(old(mail.State()), Orphans(old(mail.State()), cutoff, retention))
    ensures Silent(env) ==> forall m ::
      && m in old(mail.messages)
      && (|| old(mail.messages)[m].createdAt >= cutoff
          || (exists r :: r in old(mail.rows) && old(mail.rows)[r].message == m && old(mail.rows)[r].deletedAt == None)
          || (exists r ::
                r in old(mail.rows) && old(mail.rows)[r].message == m && old(mail.rows)[r].deletedAt.Some?
                && old(mail.rows)[r].deletedAt.value >= retention)
          || (exists j ::
                j in old(mail.jobs) && old(mail.jobs)[j].message == m
                && old(mail.jobs)[j].status in {Queued, Retry, Processing})) ==>
      && m in mail.messages && mail.messages[m] == old(mail.messages)[m]
      && forall r :: r in old(mail.rows) && old(mail.rows)[r].message == m ==>
           r in mail.rows && mail.rows[r] == old(mail.rows)[r]
    ensures Silent(env) ==> forall m ::
      && m in old(mail.messages) && old(mail.messages)[m].createdAt < cutoff
      && (forall r :: r in old(mail.rows) && old(mail.rows)[r].message == m ==>
            old(mail.rows)[r].deletedAt.Some? && old(mail.rows)[r].deletedAt.value < retention)
      && (forall j :: j in old(mail.jobs) && old(mail.jobs)[j].message == m ==>
            old(mail.jobs)[j].status in {Sent, Failed}) ==>
      m !in mail.messages
  {
    hide Unreferenced, Run, CollectOp, Swept, Orphan, Stays, Silent, IsPage, OnTheWay, OnlyOrphansGone, Ahead, Still;
    ghost var begin := mail.State();
    ghost var gone: set<string> := {};
    var last: Option<string> := None;
    var n: nat := 0;
    var more := true;
    history := [];
    PassBegins(begin, cutoff, retention, rank);
    while more
      invariant mail.State() == Run(begin, history) && Allowed(begin, history, env, cutoff, retention)
      invariant forall m :: Old(mail.State(), m, cutoff) ==> Old(begin, m, cutoff)
      invariant OnTheWay(begin, history, cutoff, retention, Still(more, last, rank))
      invariant Silent(env) ==> OnlyOrphansGone(begin, mail.State(), gone, cutoff, retention)
      decreases more, Remaining(mail.State(), last, cutoff, rank)
    {
      ghost var top := mail.State();
      SilentRun(env, n, top);
      InterfereOnTheWay(begin, history, env(n), cutoff, retention, Still(true, last, rank));
      mail.Interfere(env(n));
      history := history + env(n);
      n := n + 1;
      var page := ReadPage(mail, last, cutoff, retention, rank);
      PageBegins(begin, history, page, last, cutoff, retention, rank);
      ghost var from := last;
      last, n, history, gone := DeletePage(mail, page, last, n, cutoff, retention, rank, env, begin, history, gone);
      PageEnds(begin, history, page, from, cutoff, retention, rank);
      if |page| < PAGE {
        more := false;
      } else {
        assert page[PAGE - 1] in page;
        assert page[PAGE - 1] in Remaining(top, from, cutoff, rank);
      }
    }
    PassEnds(begin, history, last, gone, cutoff, retention, rank, env);
    SweptMeans(begin, cutoff, retention);
  }

  // What sweeping the old orphans keeps and takes, in terms of rows and jobs.
  lemma SweptMeans(s: Store, cutoff: int, retention: int)
    ensures
      var t := Swept(s, Orphans(s, cutoff, retention));
      forall m ::
        && m in s.messages
        && (|| s.messages[m].createdAt >= cutoff
            || (exists r :: r in s.rows && s.rows[r].message == m && s.rows[r].deletedAt == None)
            || (exists r ::
                  r in s.rows && s.rows[r].message == m && s.rows[r].deletedAt.Some?
                  && s.rows[r].deletedAt.value >= retention)
            || (exists j ::
                  j in s.jobs && s.jobs[j].message == m && s.jobs[j].status in {Queued, Retry, Processing})) ==>
        && m in t.messages && t.messages[m] == s.messages[m]
        && forall r :: r in s.rows && s.rows[r].message == m ==> r in t.rows && t.rows[r] == s.rows[r]
    ensures
      var t := Swept(s, Orphans(s, cutoff, retention));
      forall m ::
        && m in s.messages && s.messages[m].createdAt < cutoff
        && (forall r :: r in s.rows && s.rows[r].message == m ==>
              s.rows[r].deletedAt.Some? && s.rows[r].deletedAt.value < retention)
        && (forall j :: j in s.jobs && s.jobs[j].message == m ==> s.jobs[j].status in {Sent, Failed}) ==>
        m !in t.messages
  {
    forall m ensures Unreferenced(s, m, retention) <==>
      && !(exists r :: r in s.rows && s.rows[r].message == m && s.rows[r].deletedAt == None)
      && !(exists r ::
             r in s.rows && s.rows[r].message == m && s.rows[r].deletedAt.Some?
             && s.rows[r].deletedAt.value >= retention)
      && !(exists j :: j in s.jobs && s.jobs[j].message == m && s.jobs[j].status in {Queued, Retry, Processing})
    {
      UnreferencedMeans(s, m, retention);
    }
    hide Unreferenced;
  }

  /** So an old orphan that nobody takes up during the pass is gone after it. */
  lemma LeftAloneGone(begin: Store, end: Store, history: seq<Op>, m: string, cutoff: int, retention: int)
    requires Orphan(begin, m, cutoff, retention) && LeftAlone(begin, history, m)
    requires forall x :: Orphan(begin, x, cutoff, retention) && Stays(begin, history, x, retention) ==>
        !Old(end, x, cutoff)
    ensures !Old(end, m, cutoff)
  {
    LeftAloneStays(begin, history, m, retention);
  }
}

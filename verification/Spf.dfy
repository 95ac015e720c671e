/** SPF evaluation as a function of the DNS answers. */
module SpfRules {
  import opened Common

  const MAX_DEPTH: nat := 10
  const MAX_LOOKUPS: nat := 10
  const MAX_MX_HOSTS: nat := 10
  const MAX_ADDRESSES: nat := 10

  datatype Verdict = Pass | Fail | SoftFail | Neutral | NoRecord | TempError | PermError

  datatype Term = Mechanism(qualifier: char, name: string, arg: string, cidr: string) | Redirect(domain: string)

  datatype Txt = Spf(terms: seq<Term>) | OtherText

  datatype TxtAnswer = Records(records: seq<Txt>) | Missing | Broken(reason: string)

  // The resolver's answers, whether an address is the client's, and after which
  // number of resolver calls the evaluation's time is up.
  datatype Dns = Dns(
    txt: string -> TxtAnswer, host: string -> Option<seq<string>>, mx: string -> Option<seq<string>>,
    matches: (string, string) -> bool, expired: nat -> bool)

  // A verdict, and the counters once it is reached.
  datatype Outcome = Outcome(verdict: Verdict, reason: string, used: nat, calls: nat)

  const TOO_MANY_LOOKUPS := "too many DNS lookups"

  function QualifierResult(qualifier: char): Verdict {
    if qualifier == '-' then Fail else if qualifier == '~' then SoftFail else if qualifier == '?' then Neutral else Pass
  }

  function MechanismDomain(arg: string, current: string): string {
    if arg == "" then current else arg
  }

  function TrimDot(host: string): string {
    if host != "" && host[|host| - 1] == '.' then host[..|host| - 1] else host
  }

  function AtMost(n: nat, s: seq<string>): seq<string> {
    if |s| > n then s[..n] else s
  }

  predicate HostMatch(dns: Dns, domain: string, cidr: string) {
    var answer := dns.host(domain);
    answer.Some? && exists address :: address in AtMost(MAX_ADDRESSES, answer.value) && dns.matches(address, cidr)
  }

  // The hosts asked for, up to the first that matches.
  function HostsTried(dns: Dns, hosts: seq<string>, cidr: string): (n: nat)
    ensures n <= |hosts|
    ensures (exists h :: h in hosts && HostMatch(dns, TrimDot(h), cidr)) ==>
      0 < n && HostMatch(dns, TrimDot(hosts[n - 1]), cidr)
  {
    if hosts == [] then 0
    else if HostMatch(dns, TrimDot(hosts[0]), cidr) then 1
    else 1 + HostsTried(dns, hosts[1..], cidr)
  }

  predicate MxMatch(dns: Dns, domain: string, cidr: string) {
    var answer := dns.mx(domain);
    answer.Some? && exists h :: h in AtMost(MAX_MX_HOSTS, answer.value) && HostMatch(dns, TrimDot(h), cidr)
  }

  function MxCalls(dns: Dns, domain: string, cidr: string): (n: nat)
    ensures 1 <= n <= 1 + MAX_MX_HOSTS
  {
    var answer := dns.mx(domain);
    1 + if answer.None? then 0 else HostsTried(dns, AtMost(MAX_MX_HOSTS, answer.value), cidr)
  }

  // The mechanisms with one query, or for mx a query and its hosts.
  predicate QueryMatch(dns: Dns, name: string, domain: string, cidr: string) {
    (name == "a" && HostMatch(dns, domain, cidr)) || (name == "mx" && MxMatch(dns, domain, cidr))
  }

  function QueryCalls(dns: Dns, name: string, domain: string, cidr: string): (n: nat)
    ensures n <= 1 + MAX_MX_HOSTS
  {
    if name == "a" then 1 else if name == "mx" then MxCalls(dns, domain, cidr) else 0
  }

  function SpfRecords(records: seq<Txt>): seq<Txt> {
    if records == [] then []
    else
      var n := |records| - 1;
      SpfRecords(records[..n]) + if records[n].Spf? then [records[n]] else []
  }

  // The one SPF record of a domain, or the verdict without it.
  datatype Policy = Policy(terms: seq<Term>) | Verdict(verdict: Verdict, reason: string)

  function LookupSpf(dns: Dns, domain: string): (r: Policy)
    ensures r.Verdict? && r.verdict.PermError? ==> r.reason == "multiple SPF records"
  {
    match dns.txt(domain)
    case Missing => Verdict(NoRecord, "no SPF record")
    case Broken(reason) => Verdict(TempError, reason)
    case Records(records) =>
      var spf := SpfRecords(records);
      if spf == [] then Verdict(NoRecord, "no SPF record")
      else if |spf| > 1 then Verdict(PermError, "multiple SPF records")
      else if spf[0].Spf? then Policy(spf[0].terms)
      else Verdict(NoRecord, "no SPF record")
  }

  /** Whatever the DNS answers, cyclic or not, evaluation ends; it never uses more
      than MAX_LOOKUPS lookups, makes at most one resolver call besides eleven for
      each lookup, and blames the budget only when it is used up. */
  function Eval(dns: Dns, maxDepth: nat, domain: string, depth: nat, used: nat, calls: nat): (r: Outcome)
    requires used <= MAX_LOOKUPS
    ensures used <= r.used <= MAX_LOOKUPS && calls <= r.calls <= calls + 1 + 11 * (r.used - used)
    ensures r.verdict.PermError? && r.reason == TOO_MANY_LOOKUPS ==> r.used == MAX_LOOKUPS
    decreases MAX_LOOKUPS - used, 1, 0
  {
    if depth > maxDepth then Outcome(PermError, "too many SPF includes or redirects", used, calls)
    else if dns.expired(calls) then Outcome(TempError, "context deadline exceeded", used, calls)
    else
      match LookupSpf(dns, domain)
      case Verdict(verdict, reason) => Outcome(verdict, reason, used, calls + 1)
      case Policy(terms) => EvalTerms(dns, maxDepth, domain, depth, terms, "", used, calls + 1)
  }

  // Whether a mechanism ends the evaluation, and with what; if not, only the
  // counters of the outcome matter.
  datatype Step = Step(done: bool, outcome: Outcome)

  function EvalMechanism(dns: Dns, maxDepth: nat, domain: string, depth: nat, t: Term, used: nat, calls: nat): (r: Step)
    requires used <= MAX_LOOKUPS && t.Mechanism?
    ensures used <= r.outcome.used <= MAX_LOOKUPS && calls <= r.outcome.calls <= calls + 11 * (r.outcome.used - used)
    ensures r.done && r.outcome.verdict.PermError? && r.outcome.reason == TOO_MANY_LOOKUPS ==>
        r.outcome.used == MAX_LOOKUPS
    decreases MAX_LOOKUPS - used, 0, 0
  {
    var found := QualifierResult(t.qualifier);
    if t.name == "all" then Step(true, Outcome(found, "all", used, calls))
    else if t.name == "ip4" || t.name == "ip6" then
      Step(dns.matches(t.arg, t.cidr), Outcome(found, t.name + ":" + t.arg, used, calls))
    else if t.name != "include" && t.name != "a" && t.name != "mx" && t.name != "exists" && t.name != "ptr" then
      Step(false, Outcome(Neutral, "", used, calls))
    else if used >= MAX_LOOKUPS then Step(true, Outcome(PermError, TOO_MANY_LOOKUPS, used, calls))
    else if t.name == "include" then
      var included := Eval(dns, maxDepth, t.arg, depth + 1, used + 1, calls);
      if included.verdict.Pass? then Step(true, included.(verdict := found, reason := "include:" + t.arg))
      else Step(included.verdict.TempError? || included.verdict.PermError?, included)
    else
      Step(QueryMatch(dns, t.name, MechanismDomain(t.arg, domain), t.cidr),
           Outcome(found, t.name, used + 1, calls + QueryCalls(dns, t.name, MechanismDomain(t.arg, domain), t.cidr)))
  }

  function EvalTerms(dns: Dns, maxDepth: nat, domain: string, depth: nat, terms: seq<Term>, redirect: string, used: nat,
      calls: nat):
      (r: Outcome)
    requires used <= MAX_LOOKUPS
    ensures used <= r.used <= MAX_LOOKUPS && calls <= r.calls <= calls + 11 * (r.used - used)
    ensures r.verdict.PermError? && r.reason == TOO_MANY_LOOKUPS ==> r.used == MAX_LOOKUPS
    decreases MAX_LOOKUPS - used, 0, 1 + |terms|
  {
    if terms == [] then
      if redirect == "" then Outcome(Neutral, "no SPF mechanism matched", used, calls)
      else if used >= MAX_LOOKUPS then Outcome(PermError, TOO_MANY_LOOKUPS, used, calls)
      else Eval(dns, maxDepth, redirect, depth + 1, used + 1, calls)
    else if terms[0].Redirect? then EvalTerms(dns, maxDepth, domain, depth, terms[1..], terms[0].domain, used, calls)
    else
      var step := EvalMechanism(dns, maxDepth, domain, depth, terms[0], used, calls);
      if step.done then step.outcome
      else EvalTerms(dns, maxDepth, domain, depth, terms[1..], redirect, step.outcome.used, step.outcome.calls)
  }

  /** While depth is at most the lookups used, as it is from the start on, any two
      depth limits of at least MAX_LOOKUPS give the same outcome: the limit is never
      what decides. */
  lemma {:induction false} DepthNeverDecides(dns: Dns, first: nat, second: nat, domain: string, depth: nat, used: nat,
      calls: nat)
    requires depth <= used <= MAX_LOOKUPS <= first && MAX_LOOKUPS <= second
    ensures Eval(dns, first, domain, depth, used, calls) == Eval(dns, second, domain, depth, used, calls)
    decreases MAX_LOOKUPS - used, 1, 0
  {
    if !dns.expired(calls) && LookupSpf(dns, domain).Policy? {
      TermsNeverDecide(dns, first, second, domain, depth, LookupSpf(dns, domain).terms, "", used, calls + 1);
    }
  }

  lemma {:induction false} TermsNeverDecide(dns: Dns, first: nat, second: nat, domain: string, depth: nat,
      terms: seq<Term>,
                                           redirect: string, used: nat, calls: nat)
    requires depth <= used <= MAX_LOOKUPS <= first && MAX_LOOKUPS <= second
    ensures EvalTerms(dns, first, domain, depth, terms, redirect, used, calls)
         == EvalTerms(dns, second, domain, depth, terms, redirect, used, calls)
    decreases MAX_LOOKUPS - used, 0, |terms|
  {
    hide EvalMechanism;
    if terms == [] {
      if redirect != "" && used < MAX_LOOKUPS {
        DepthNeverDecides(dns, first, second, redirect, depth + 1, used + 1, calls);
      }
    } else if terms[0].Redirect? {
      TermsNeverDecide(dns, first, second, domain, depth, terms[1..], terms[0].domain, used, calls);
    } else {
      MechanismNeverDecides(dns, first, second, domain, depth, terms[0], used, calls, |terms| - 1);
      var step := EvalMechanism(dns, first, domain, depth, terms[0], used, calls);
      TermsNeverDecide(dns, first, second, domain, depth, terms[1..], redirect, step.outcome.used, step.outcome.calls);
    }
  }

  lemma {:induction false} MechanismNeverDecides(dns: Dns, first: nat, second: nat, domain: string, depth: nat, t: Term,
                                                used: nat, calls: nat, left: nat)
    requires depth <= used <= MAX_LOOKUPS <= first && MAX_LOOKUPS <= second && t.Mechanism?
    ensures EvalMechanism(dns, first, domain, depth, t, used, calls) == EvalMechanism(dns, second, domain, depth, t,
        used, calls)
    decreases MAX_LOOKUPS - used, 0, left
  {
    hide QueryMatch, QueryCalls, Eval;
    if used < MAX_LOOKUPS {
      DepthNeverDecides(dns, first, second, t.arg, depth + 1, used + 1, calls);
    }
  }

  /** A domain whose record begins by including itself ends in a permanent error,
      with the budget used up, after one TXT query for each lookup and the first. */
  lemma {:induction false} SelfInclude(dns: Dns, domain: string, depth: nat, used: nat, calls: nat)
    requires depth <= used <= MAX_LOOKUPS && forall n :: !dns.expired(n)
    requires LookupSpf(dns, domain).Policy? && LookupSpf(dns, domain).terms != []
    requires
      var first := LookupSpf(dns, domain).terms[0];
      first.Mechanism? && first.name == "include" && first.arg == domain
    ensures Eval(dns, MAX_DEPTH, domain, depth, used, calls)
         == Outcome(PermError, TOO_MANY_LOOKUPS, MAX_LOOKUPS, calls + 1 + MAX_LOOKUPS - used)
    decreases MAX_LOOKUPS - used
  {
    if used < MAX_LOOKUPS {
      SelfInclude(dns, domain, depth + 1, used + 1, calls + 1);
      var terms := LookupSpf(dns, domain).terms;
      var inner := Eval(dns, MAX_DEPTH, domain, depth + 1, used + 1, calls + 1);
      assert EvalMechanism(dns, MAX_DEPTH, domain, depth, terms[0], used, calls + 1) == Step(true, inner);
      assert EvalTerms(dns, MAX_DEPTH, domain, depth, terms, "", used, calls + 1) == inner;
    }
  }
}

/** What verdicts mean, in terms of the record's characters and the DNS answers. */
module SpfMeaning {
  import opened Common
  import opened SpfRules

  // Whether a mechanism other than include matches the client: `all` always, an
  // address if it is the client's, `a` if one of the first ten addresses of its
  // domain is, `mx` if one of the first ten addresses of one of its first ten hosts is.
  ghost predicate Matches(dns: Dns, domain: string, t: Term)
    requires t.Mechanism?
  {
    var target := if t.arg == "" then domain else t.arg;
    || t.name == "all"
    || ((t.name == "ip4" || t.name == "ip6") && dns.matches(t.arg, t.cidr))
    || (t.name == "a" && AddressMatches(dns, target, t.cidr))
    || (t.name == "mx" && dns.mx(target).Some? && exists i ::
          0 <= i < |dns.mx(target).value| && i < 10 && AddressMatches(dns, Undotted(dns.mx(target).value[i]), t.cidr))
  }

  ghost predicate AddressMatches(dns: Dns, host: string, cidr: string) {
    dns.host(host).Some? && exists i ::
      0 <= i < |dns.host(host).value| && i < 10 && dns.matches(dns.host(host).value[i], cidr)
  }

  ghost function Undotted(host: string): string {
    if host == "" then host else if host[|host| - 1] == '.' then host[..|host| - 1] else host
  }

  lemma HostMatchMeans(dns: Dns, host: string, cidr: string)
    ensures HostMatch(dns, host, cidr) <==> AddressMatches(dns, host, cidr)
  {
    if dns.host(host).Some? {
      var all, some := dns.host(host).value, AtMost(10, dns.host(host).value);
      forall i | 0 <= i < |all| && i < 10 ensures all[i] in some {
        assert some[i] == all[i];
      }
      forall a | a in some ensures exists i :: 0 <= i < |all| && i < 10 && all[i] == a {
        var i :| 0 <= i < |some| && some[i] == a;
        assert all[i] == a;
      }
    }
  }

  lemma MxMatchMeans(dns: Dns, target: string, cidr: string)
    ensures MxMatch(dns, target, cidr) <==>
      dns.mx(target).Some? && exists i ::
        0 <= i < |dns.mx(target).value| && i < 10 && AddressMatches(dns, Undotted(dns.mx(target).value[i]), cidr)
  {
    if dns.mx(target).Some? {
      var all, some := dns.mx(target).value, AtMost(10, dns.mx(target).value);
      forall h ensures HostMatch(dns, TrimDot(h), cidr) <==> AddressMatches(dns, Undotted(h), cidr) {
        HostMatchMeans(dns, TrimDot(h), cidr);
      }
      forall i | 0 <= i < |all| && i < 10 ensures all[i] in some {
        assert some[i] == all[i];
      }
      forall h | h in some ensures exists i :: 0 <= i < |all| && i < 10 && all[i] == h {
        var i :| 0 <= i < |some| && some[i] == h;
        assert all[i] == h;
      }
    }
  }

  /** The verdict that a qualifier gives to a match. */
  lemma QualifierMeans(qualifier: char)
    ensures QualifierResult(qualifier) == Fail <==> qualifier == '-'
    ensures QualifierResult(qualifier) == SoftFail <==> qualifier == '~'
    ensures QualifierResult(qualifier) == Neutral <==> qualifier == '?'
    ensures QualifierResult(qualifier) == Pass <==> qualifier != '-' && qualifier != '~' && qualifier != '?'
  {
  }

  /** Which record a domain has: its one SPF record, and otherwise a verdict. */
  lemma LookupMeans(dns: Dns, domain: string)
    ensures dns.txt(domain).Missing? ==> LookupSpf(dns, domain) == Verdict(NoRecord, "no SPF record")
    ensures dns.txt(domain).Broken? ==> LookupSpf(dns, domain) == Verdict(TempError, dns.txt(domain).reason)
    ensures dns.txt(domain).Records? ==>
      var records := dns.txt(domain).records;
      && ((forall i :: 0 <= i < |records| ==> records[i] == OtherText) ==>
            LookupSpf(dns, domain) == Verdict(NoRecord, "no SPF record"))
      && (forall i ::
            && 0 <= i < |records| && records[i].Spf?
            && (forall j :: 0 <= j < |records| && j != i ==> records[j] == OtherText) ==>
            LookupSpf(dns, domain) == Policy(records[i].terms))
      && (forall i, j :: 0 <= i < j < |records| && records[i].Spf? && records[j].Spf? ==>
            LookupSpf(dns, domain) == Verdict(PermError, "multiple SPF records"))
  {
    if dns.txt(domain).Records? {
      var records := dns.txt(domain).records;
      SpfRecordsAre(records);
    }
  }

  lemma {:induction false} SpfRecordsAre(records: seq<Txt>)
    ensures forall r :: r in SpfRecords(records) ==> r.Spf?
    ensures (forall i :: 0 <= i < |records| ==> records[i] == OtherText) ==> SpfRecords(records) == []
    ensures forall i ::
      && 0 <= i < |records| && records[i].Spf?
      && (forall j :: 0 <= j < |records| && j != i ==> records[j] == OtherText) ==>
      SpfRecords(records) == [records[i]]
    ensures forall i, j :: 0 <= i < j < |records| && records[i].Spf? && records[j].Spf? ==> |SpfRecords(records)| > 1
    ensures (exists i :: 0 <= i < |records| && records[i].Spf?) ==> SpfRecords(records) != []
  {
    if records != [] {
      var n := |records| - 1;
      var before := records[..n];
      SpfRecordsAre(before);
      forall i | 0 <= i < |records| && records[i].Spf? && i < n ensures SpfRecords(before) != [] {
        assert before[i].Spf?;
      }
      forall i | 0 <= i < |records| && records[i].Spf?
          && (forall j :: 0 <= j < |records| && j != i ==> records[j] == OtherText)
        ensures SpfRecords(records) == [records[i]]
      {
        if i < n {
          assert before[i] == records[i] && forall j :: 0 <= j < n && j != i ==> before[j] == OtherText;
        } else {
          assert forall j :: 0 <= j < n ==> before[j] == OtherText;
        }
      }
      forall i, j | 0 <= i < j < |records| && records[i].Spf? && records[j].Spf? ensures |SpfRecords(records)| > 1 {
        assert before[i].Spf?;
        assert j < n ==> before[j].Spf?;
      }
      if forall i :: 0 <= i < |records| ==> records[i] == OtherText {
        assert forall i :: 0 <= i < n ==> before[i] == OtherText;
      }
    }
  }

  // Mechanisms that ask nobody else: no include, no redirect.
  ghost predicate Plain(terms: seq<Term>) {
    forall t :: t in terms ==> t.Mechanism? && t.name != "include"
  }

  // The lookups that looking at all of them takes.
  ghost function Queries(terms: seq<Term>): nat
    requires Plain(terms)
  {
    if terms == [] then 0
    else
      assert terms[0] in terms;
      (if terms[0].name in {"a", "mx", "exists", "ptr"} then 1 else 0) + Queries(Rest(terms))
  }

  ghost function Rest(terms: seq<Term>): (r: seq<Term>)
    requires terms != [] && Plain(terms)
    ensures r == terms[1..] && Plain(r)
  {
    assert forall t :: t in terms[1..] ==> t in terms;
    terms[1..]
  }

  // A plain mechanism decides exactly if it matches.
  lemma PlainStep(dns: Dns, maxDepth: nat, domain: string, depth: nat, t: Term, used: nat, calls: nat)
    requires used <= MAX_LOOKUPS && t.Mechanism? && t.name != "include"
    requires t.name in {"a", "mx", "exists", "ptr"} ==> used < MAX_LOOKUPS
    ensures
      var step := EvalMechanism(dns, maxDepth, domain, depth, t, used, calls);
      && (step.done <==> Matches(dns, domain, t))
      && (step.done ==> step.outcome.verdict == QualifierResult(t.qualifier))
      && step.outcome.used == used + if t.name in {"a", "mx", "exists", "ptr"} then 1 else 0
  {
    var target := if t.arg == "" then domain else t.arg;
    HostMatchMeans(dns, target, t.cidr);
    MxMatchMeans(dns, target, t.cidr);
    assert MechanismDomain(t.arg, domain) == target;
    assert QueryMatch(dns, t.name, target, t.cidr) ==> Matches(dns, domain, t);
    assert t.name in {"a", "mx"} && Matches(dns, domain, t) ==> QueryMatch(dns, t.name, target, t.cidr);
    assert t.name in {"exists", "ptr"} ==> !QueryMatch(dns, t.name, target, t.cidr) && !Matches(dns, domain, t);
  }

  /** In a plain record, within the budget, the first term that matches the client
      decides by its qualifier; if none does, the redirect, or else the verdict is
      Neutral. */
  lemma {:induction false} FirstMatchDecides(dns: Dns, maxDepth: nat, domain: string, depth: nat, terms: seq<Term>,
                                            redirect: string, used: nat, calls: nat, k: nat)
    requires Plain(terms) && used + Queries(terms) <= MAX_LOOKUPS && k < |terms|
    requires Matches(dns, domain, terms[k]) && forall j :: 0 <= j < k ==> !Matches(dns, domain, terms[j])
    ensures
      var verdict := EvalTerms(dns, maxDepth, domain, depth, terms, redirect, used, calls).verdict;
      var q := terms[k].qualifier;
      && (verdict == Fail <==> q == '-') && (verdict == SoftFail <==> q == '~') && (verdict == Neutral <==> q == '?')
      && (verdict == Pass <==> q != '-' && q != '~' && q != '?')
    decreases k
  {
    hide Matches, EvalMechanism;
    assert terms[0] in terms;
    PlainStep(dns, maxDepth, domain, depth, terms[0], used, calls);
    QualifierMeans(terms[k].qualifier);
    var step := EvalMechanism(dns, maxDepth, domain, depth, terms[0], used, calls);
    if k > 0 {
      var rest := Rest(terms);
      assert rest[k - 1] == terms[k] && forall j :: 0 <= j < k - 1 ==> rest[j] == terms[j + 1];
      FirstMatchDecides(dns, maxDepth, domain, depth, rest, redirect, step.outcome.used, step.outcome.calls, k - 1);
    }
  }

  lemma {:induction false} NoMatchRedirects(dns: Dns, maxDepth: nat, domain: string, depth: nat, terms: seq<Term>,
                                           redirect: string, used: nat, calls: nat)
    returns (asked: nat)
    requires Plain(terms) && used + Queries(terms) <= MAX_LOOKUPS
    requires forall j :: 0 <= j < |terms| ==> !Matches(dns, domain, terms[j])
    ensures
      var r := EvalTerms(dns, maxDepth, domain, depth, terms, redirect, used, calls);
      && (redirect == "" ==> r.verdict == Neutral)
      && (redirect != "" && used + Queries(terms) == MAX_LOOKUPS ==> r.verdict == PermError)
      && (redirect != "" && used + Queries(terms) < MAX_LOOKUPS ==>
            r == Eval(dns, maxDepth, redirect, depth + 1, used + Queries(terms) + 1, asked))
    decreases |terms|
  {
    hide Matches, EvalMechanism, Eval;
    asked := calls;
    if terms != [] {
      assert terms[0] in terms;
      PlainStep(dns, maxDepth, domain, depth, terms[0], used, calls);
      var step := EvalMechanism(dns, maxDepth, domain, depth, terms[0], used, calls);
      var rest := Rest(terms);
      assert forall j :: 0 <= j < |rest| ==> rest[j] == terms[j + 1];
      asked := NoMatchRedirects(dns, maxDepth, domain, depth, rest, redirect, step.outcome.used, step.outcome.calls);
    }
  }

  /** An include matches exactly when the included domain's own check, on what is left
      of the budget, passes; an error there is the verdict, and anything else moves on
      to the next term. */
  lemma IncludeDecides(dns: Dns, maxDepth: nat, domain: string, depth: nat, terms: seq<Term>, redirect: string,
                       used: nat, calls: nat)
    requires used < MAX_LOOKUPS && terms != [] && terms[0].Mechanism? && terms[0].name == "include"
    ensures
      var inner := Eval(dns, maxDepth, terms[0].arg, depth + 1, used + 1, calls);
      var r, q := EvalTerms(dns, maxDepth, domain, depth, terms, redirect, used, calls), terms[0].qualifier;
      && (inner.verdict == Pass ==>
            r.verdict == if q == '-' then Fail else if q == '~' then SoftFail else if q == '?' then Neutral else Pass)
      && (inner.verdict in {TempError, PermError} ==> r == inner)
      && (inner.verdict in {Fail, SoftFail, Neutral, NoRecord} ==>
            r == EvalTerms(dns, maxDepth, domain, depth, terms[1..], redirect, inner.used, inner.calls))
  {
    hide Eval;
  }

  // The record of a domain can send an evaluation on, n redirects far.
  ghost predicate Redirects(dns: Dns, domain: string, to: string, n: nat)
    decreases n
  {
    if n == 0 then to == domain
    else
      && LookupSpf(dns, domain).Policy?
      && exists next :: Redirect(next) in LookupSpf(dns, domain).terms && Redirects(dns, next, to, n - 1)
  }

  // A term that may have decided: it matches, or it includes a domain that passes.
  ghost predicate Decides(dns: Dns, maxDepth: nat, domain: string, t: Term)
    requires t.Mechanism?
  {
    || Matches(dns, domain, t)
    || (t.name == "include" && exists depth: nat, used: nat, calls: nat ::
          used <= MAX_LOOKUPS && Eval(dns, maxDepth, t.arg, depth, used, calls).verdict == Pass)
  }

  /** The verdict is Fail only if a matching term carries '-', and SoftFail only if one
      carries '~', in the record of the domain or of one it redirects to. */
  lemma {:induction false} FailNeedsMinus(dns: Dns, maxDepth: nat, domain: string, depth: nat, used: nat, calls: nat)
    returns (at: string, n: nat, t: Term)
    requires used <= MAX_LOOKUPS && Eval(dns, maxDepth, domain, depth, used, calls).verdict in {Fail, SoftFail}
    requires NoVerdictFails(dns)
    ensures Redirects(dns, domain, at, n) && LookupSpf(dns, at).Policy? && t in LookupSpf(dns, at).terms
    ensures t.Mechanism? && Decides(dns, maxDepth, at, t)
    ensures t.qualifier == if Eval(dns, maxDepth, domain, depth, used, calls).verdict == Fail then '-' else '~'
    decreases MAX_LOOKUPS - used, 1, 0
  {
    var terms := LookupSpf(dns, domain).terms;
    at, n, t := TermsNeedMinus(dns, maxDepth, domain, depth, terms, "", used, calls + 1);
  }

  // Looking a record up never gives one of the verdicts of a match.
  ghost predicate NoVerdictFails(dns: Dns) {
    forall domain :: LookupSpf(dns, domain).Verdict? ==>
      LookupSpf(dns, domain).verdict in {NoRecord, TempError, PermError}
  }

  lemma LookupNeverFails(dns: Dns)
    ensures NoVerdictFails(dns)
  {
  }

  lemma {:induction false} TermsNeedMinus(dns: Dns, maxDepth: nat, domain: string, depth: nat, terms: seq<Term>,
                                         redirect: string, used: nat, calls: nat)
    returns (at: string, n: nat, t: Term)
    requires used <= MAX_LOOKUPS && NoVerdictFails(dns) && LookupSpf(dns, domain).Policy?
    requires forall x :: x in terms ==> x in LookupSpf(dns, domain).terms
    requires redirect != "" ==> Redirect(redirect) in LookupSpf(dns, domain).terms
    requires EvalTerms(dns, maxDepth, domain, depth, terms, redirect, used, calls).verdict in {Fail, SoftFail}
    ensures Redirects(dns, domain, at, n) && LookupSpf(dns, at).Policy? && t in LookupSpf(dns, at).terms
    ensures t.Mechanism? && Decides(dns, maxDepth, at, t)
    ensures t.qualifier ==
      if EvalTerms(dns, maxDepth, domain, depth, terms, redirect, used, calls).verdict == Fail then '-' else '~'
    decreases MAX_LOOKUPS - used, 0, |terms|
  {
    hide NoVerdictFails, Matches, EvalMechanism, LookupSpf;
    if terms == [] {
      at, n, t := FailNeedsMinus(dns, maxDepth, redirect, depth + 1, used + 1, calls);
      n := n + 1;
    } else {
      assert terms[0] in terms && forall x :: x in terms[1..] ==> x in terms;
      if terms[0].Redirect? {
        at, n, t := TermsNeedMinus(dns, maxDepth, domain, depth, terms[1..], terms[0].domain, used, calls);
      } else {
        var step := EvalMechanism(dns, maxDepth, domain, depth, terms[0], used, calls);
        if step.done {
          at, n, t := domain, 0, terms[0];
          StepNeedsMinus(dns, maxDepth, domain, depth, t, used, calls);
        } else {
          at, n, t := TermsNeedMinus(
            dns, maxDepth, domain, depth, terms[1..], redirect, step.outcome.used, step.outcome.calls);
        }
      }
    }
  }

  lemma StepNeedsMinus(dns: Dns, maxDepth: nat, domain: string, depth: nat, t: Term, used: nat, calls: nat)
    requires used <= MAX_LOOKUPS && t.Mechanism?
    requires EvalMechanism(dns, maxDepth, domain, depth, t, used, calls).done
    requires EvalMechanism(dns, maxDepth, domain, depth, t, used, calls).outcome.verdict in {Fail, SoftFail}
    ensures Decides(dns, maxDepth, domain, t)
    ensures t.qualifier ==
      if EvalMechanism(dns, maxDepth, domain, depth, t, used, calls).outcome.verdict == Fail then '-' else '~'
  {
    if t.name != "include" && (t.name in {"a", "mx", "exists", "ptr"} ==> used < MAX_LOOKUPS) {
      PlainStep(dns, maxDepth, domain, depth, t, used, calls);
    }
    hide Matches, Eval;
  }
}

/** The evaluator: one shared lookup budget, changed in place through the recursion. */
module SpfChecker {
  import opened Common
  import opened SpfRules
  import opened SpfMeaning

  class SpfLookups {
    var used: nat

    constructor ()
      ensures used == 0
    {
      used := 0;
    }

    method Take() returns (ok: bool)
      modifies this
      ensures ok == (old(used) < MAX_LOOKUPS)
      ensures used == if ok then old(used) + 1 else old(used)
    {
      if used >= MAX_LOOKUPS {
        return false;
      }
      used := used + 1;
      return true;
    }
  }

  // The resolver, and how often it was asked.
  class Resolver {
    const dns: Dns
    var calls: nat

    constructor (dns: Dns)
      ensures this.dns == dns && calls == 0
    {
      this.dns, calls := dns, 0;
    }

    method LookupTxt(domain: string) returns (r: TxtAnswer)
      modifies this
      ensures r == dns.txt(domain) && calls == old(calls) + 1
    {
      calls := calls + 1;
      r := dns.txt(domain);
    }

    method LookupHost(domain: string) returns (r: Option<seq<string>>)
      modifies this
      ensures r == dns.host(domain) && calls == old(calls) + 1
    {
      calls := calls + 1;
      r := dns.host(domain);
    }

    method LookupMx(domain: string) returns (r: Option<seq<string>>)
      modifies this
      ensures r == dns.mx(domain) && calls == old(calls) + 1
    {
      calls := calls + 1;
      r := dns.mx(domain);
    }

    method LookupSpf(domain: string) returns (r: Policy)
      modifies this
      ensures r == SpfRules.LookupSpf(dns, domain) && calls == old(calls) + 1
    {
      var answer := LookupTxt(domain);
      match answer
      case Missing => return Verdict(NoRecord, "no SPF record");
      case Broken(reason) => return Verdict(TempError, reason);
      case Records(records) =>
        var spf: seq<Txt> := [];
        for i := 0 to |records|
          invariant spf == SpfRecords(records[..i])
        {
          assert records[..i + 1][..i] == records[..i];
          if records[i].Spf? {
            spf := spf + [records[i]];
          }
        }
        assert records[..|records|] == records;
        if |spf| == 0 {
          return Verdict(NoRecord, "no SPF record");
        }
        if |spf| > 1 {
          return Verdict(PermError, "multiple SPF records");
        }
        SpfOnly(records);
        return Policy(spf[0].terms);
    }

    method HostMatches(domain: string, cidr: string) returns (r: bool)
      modifies this
      ensures r == HostMatch(dns, domain, cidr) && calls == old(calls) + 1
      ensures r <==> dns.host(domain).Some? && exists i ::
        0 <= i < |dns.host(domain).value| && i < 10 && dns.matches(dns.host(domain).value[i], cidr)
    {
      HostMatchMeans(dns, domain, cidr);
      var answer := LookupHost(domain);
      if answer.None? {
        return false;
      }
      var addresses := AtMost(MAX_ADDRESSES, answer.value);
      for i := 0 to |addresses|
        invariant forall j :: 0 <= j < i ==> !dns.matches(addresses[j], cidr)
      {
        if dns.matches(addresses[i], cidr) {
          return true;
        }
      }
      return false;
    }

    method MxMatches(domain: string, cidr: string) returns (r: bool)
      modifies this
      ensures r == MxMatch(dns, domain, cidr) && calls == old(calls) + MxCalls(dns, domain, cidr)
    {
      hide HostMatch;
      var answer := LookupMx(domain);
      if answer.None? {
        return false;
      }
      var hosts := AtMost(MAX_MX_HOSTS, answer.value);
      for i := 0 to |hosts|
        invariant forall j :: 0 <= j < i ==> !HostMatch(dns, TrimDot(hosts[j]), cidr)
        invariant calls == old(calls) + 1 + i && HostsTried(dns, hosts, cidr) == i + HostsTried(dns, hosts[i..], cidr)
      {
        var hit := HostMatches(TrimDot(hosts[i]), cidr);
        assert hosts[i..][1..] == hosts[i + 1..];
        if hit {
          return true;
        }
      }
      return false;
    }
  }

  lemma {:induction false} SpfOnly(records: seq<Txt>)
    ensures forall r :: r in SpfRecords(records) ==> r.Spf?
  {
    if records != [] {
      SpfOnly(records[..|records| - 1]);
    }
  }

  // One mechanism: a verdict, or none when the next term is to be looked at.
  method EvalTerm(resolver: Resolver, domain: string, depth: nat, t: Term, lookups: SpfLookups)
    returns (done: bool, verdict: Verdict, reason: string)
    requires lookups.used <= MAX_LOOKUPS && t.Mechanism?
    modifies resolver, lookups
    ensures
      var step := EvalMechanism(resolver.dns, MAX_DEPTH, domain, depth, t, old(lookups.used), old(resolver.calls));
      && done == step.done && lookups.used == step.outcome.used && resolver.calls == step.outcome.calls
      && (done ==> verdict == step.outcome.verdict && reason == step.outcome.reason)
    decreases MAX_LOOKUPS - lookups.used, 0
  {
    hide HostMatch, MxMatch, MxCalls, Eval;
    if t.name == "all" {
      return true, QualifierResult(t.qualifier), "all";
    } else if t.name == "include" {
      var ok := lookups.Take();
      if !ok {
        return true, PermError, TOO_MANY_LOOKUPS;
      }
      var included, why := EvalSpf(resolver, t.arg, depth + 1, lookups);
      if included.Pass? {
        return true, QualifierResult(t.qualifier), "include:" + t.arg;
      }
      if included.TempError? || included.PermError? {
        return true, included, why;
      }
    } else if t.name == "ip4" || t.name == "ip6" {
      if resolver.dns.matches(t.arg, t.cidr) {
        return true, QualifierResult(t.qualifier), t.name + ":" + t.arg;
      }
    } else if t.name == "a" {
      var ok := lookups.Take();
      if !ok {
        return true, PermError, TOO_MANY_LOOKUPS;
      }
      var hit := resolver.HostMatches(MechanismDomain(t.arg, domain), t.cidr);
      if hit {
        return true, QualifierResult(t.qualifier), "a";
      }
    } else if t.name == "mx" {
      var ok := lookups.Take();
      if !ok {
        return true, PermError, TOO_MANY_LOOKUPS;
      }
      var hit := resolver.MxMatches(MechanismDomain(t.arg, domain), t.cidr);
      if hit {
        return true, QualifierResult(t.qualifier), "mx";
      }
    } else if t.name == "exists" || t.name == "ptr" {
      var ok := lookups.Take();
      if !ok {
        return true, PermError, TOO_MANY_LOOKUPS;
      }
    }
    return false, Neutral, "";
  }

  method EvalSpf(resolver: Resolver, domain: string, depth: nat, lookups: SpfLookups)
    returns (verdict: Verdict, reason: string)
    requires lookups.used <= MAX_LOOKUPS
    modifies resolver, lookups
    ensures Outcome(verdict, reason, lookups.used, resolver.calls)
      == Eval(resolver.dns, MAX_DEPTH, domain, depth, old(lookups.used), old(resolver.calls))
    decreases MAX_LOOKUPS - lookups.used, 1
  {
    hide EvalMechanism, SpfRules.LookupSpf;
    if depth > MAX_DEPTH {
      return PermError, "too many SPF includes or redirects";
    }
    if resolver.dns.expired(resolver.calls) {
      return TempError, "context deadline exceeded";
    }
    ghost var whole := Eval(resolver.dns, MAX_DEPTH, domain, depth, lookups.used, resolver.calls);
    var policy := resolver.LookupSpf(domain);
    if policy.Verdict? {
      return policy.verdict, policy.reason;
    }
    hide Eval;
    var redirect := "";
    var terms := policy.terms;
    for i := 0 to |terms|
      invariant old(lookups.used) <= lookups.used <= MAX_LOOKUPS
      invariant whole == EvalTerms(resolver.dns, MAX_DEPTH, domain, depth, terms[i..], redirect, lookups.used,
          resolver.calls)
    {
      assert terms[i..][1..] == terms[i + 1..];
      if terms[i].Redirect? {
        redirect := terms[i].domain;
        continue;
      }
      var done, found, why := EvalTerm(resolver, domain, depth, terms[i], lookups);
      if done {
        return found, why;
      }
    }
    if redirect != "" {
      var ok := lookups.Take();
      if !ok {
        return PermError, TOO_MANY_LOOKUPS;
      }
      verdict, reason := EvalSpf(resolver, redirect, depth + 1, lookups);
      return;
    }
    return Neutral, "no SPF mechanism matched";
  }

  // The whole check of a domain with a plain record, by its first match.
  lemma PlainVerdict(dns: Dns, domain: string)
    ensures !dns.expired(0) && LookupSpf(dns, domain).Policy? ==>
      var terms := LookupSpf(dns, domain).terms;
      var verdict := Eval(dns, MAX_DEPTH, domain, 0, 0, 0).verdict;
      Plain(terms) && Queries(terms) <= 10 ==>
        && (forall k ::
              && 0 <= k < |terms| && Matches(dns, domain, terms[k])
              && (forall j :: 0 <= j < k ==> !Matches(dns, domain, terms[j])) ==>
              var q := terms[k].qualifier;
              verdict == if q == '-' then Fail else if q == '~' then SoftFail else if q == '?' then Neutral else Pass)
        && ((forall j :: 0 <= j < |terms| ==> !Matches(dns, domain, terms[j])) ==> verdict == Neutral)
  {
    hide Matches, Queries, EvalTerms, SpfRules.LookupSpf;
    if !dns.expired(0) && SpfRules.LookupSpf(dns, domain).Policy? {
      var terms := SpfRules.LookupSpf(dns, domain).terms;
      if Plain(terms) && Queries(terms) <= 10 {
        forall k | 0 <= k < |terms| && Matches(dns, domain, terms[k])
            && (forall j :: 0 <= j < k ==> !Matches(dns, domain, terms[j]))
          ensures
            var verdict, q := Eval(dns, MAX_DEPTH, domain, 0, 0, 0).verdict, terms[k].qualifier;
            verdict == if q == '-' then Fail else if q == '~' then SoftFail else if q == '?' then Neutral else Pass
        {
          FirstMatchDecides(dns, MAX_DEPTH, domain, 0, terms, "", 0, 1, k);
        }
        if forall j :: 0 <= j < |terms| ==> !Matches(dns, domain, terms[j]) {
          var asked := NoMatchRedirects(dns, MAX_DEPTH, domain, 0, terms, "", 0, 1);
        }
      }
    }
  }

  /** A whole check, of the sender's domain or else the greeting's: at most 10 lookups
      and 111 resolver calls, none without a domain or a client address, and the
      outcome is the same under every depth limit of at least 10. */
  method CheckSpf(dns: Dns, senderDomain: string, greeting: string, knownAddress: bool)
    returns (verdict: Verdict, domain: string, reason: string, used: nat, calls: nat)
    ensures domain == if senderDomain != "" then senderDomain else greeting
    ensures used <= 10 && calls <= 111
    ensures domain == "" || !knownAddress ==> verdict == NoRecord && reason == "" && used == 0 && calls == 0
    ensures domain != "" && knownAddress ==> forall limit: nat :: MAX_LOOKUPS <= limit ==>
      Outcome(verdict, reason, used, calls) == Eval(dns, limit, domain, 0, 0, 0)
    ensures domain != "" && knownAddress && !dns.expired(0) && LookupSpf(dns, domain).Policy? ==>
      var terms := LookupSpf(dns, domain).terms;
      Plain(terms) && Queries(terms) <= 10 ==>
        && (forall k ::
              && 0 <= k < |terms| && Matches(dns, domain, terms[k])
              && (forall j :: 0 <= j < k ==> !Matches(dns, domain, terms[j])) ==>
              var q := terms[k].qualifier;
              verdict == if q == '-' then Fail else if q == '~' then SoftFail else if q == '?' then Neutral else Pass)
        && ((forall j :: 0 <= j < |terms| ==> !Matches(dns, domain, terms[j])) ==> verdict == Neutral)
    ensures verdict == Fail || verdict == SoftFail ==>
      exists at, n, t :: Redirects(dns, domain, at, n) && LookupSpf(dns, at).Policy?
        && t in LookupSpf(dns, at).terms && t.Mechanism? && Decides(dns, MAX_DEPTH, at, t)
        && t.qualifier == if verdict == Fail then '-' else '~'
  {
    domain := senderDomain;
    if domain == "" {
      domain := greeting;
    }
    if domain == "" || !knownAddress {
      return NoRecord, domain, "", 0, 0;
    }
    var resolver := new Resolver(dns);
    var lookups := new SpfLookups();
    verdict, reason := EvalSpf(resolver, domain, 0, lookups);
    used, calls := lookups.used, resolver.calls;
    PlainVerdict(dns, domain);
    if verdict == Fail || verdict == SoftFail {
      LookupNeverFails(dns);
      var at, n, t := FailNeedsMinus(dns, MAX_DEPTH, domain, 0, 0, 0);
    }
    hide Plain, Queries, Matches, Redirects, Decides, LookupSpf;
    forall limit: nat | MAX_LOOKUPS <= limit
      ensures Eval(dns, MAX_DEPTH, domain, 0, 0, 0) == Eval(dns, limit, domain, 0, 0, 0)
    {
      DepthNeverDecides(dns, MAX_DEPTH, limit, domain, 0, 0, 0);
    }
  }
}

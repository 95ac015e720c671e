/** Spam placement of one message in each recipient's mailbox, as a value. */
module SpamRules {
  import opened Common

  // A floating-point number as far as the policy looks at it.
  datatype Number = Finite(value: real) | NotFinite

  datatype Mailbox = Mailbox(id: string, thresholds: map<string, Number>)

  datatype Settings = Settings(junkThreshold: real, mode: string, spamThreshold: real, phishingThreshold: real)

  // What the earlier checks found out about the message.
  datatype Message = Message(score: real, reasons: seq<string>, forcedJunk: bool, junk: bool, reject: bool)

  datatype Evaluation = Evaluation(status: string, spam: Option<Number>, phishing: Option<Number>)

  // What extraction and the evaluator would answer about this message.
  datatype Oracle = Oracle(available: bool, extraction: string, evaluation: Evaluation)

  datatype TypeSafeResult = TypeSafeResult(
    status: string, spam: Option<real>, phishing: Option<real>,
    spamThreshold: real, phishingThreshold: real, wouldJunk: bool, appliedJunk: bool)

  datatype MailboxAssessment = MailboxAssessment(
    junk: bool, junkThreshold: real, reasons: seq<string>, typesafe: Option<TypeSafeResult>)

  function JunkThreshold(settings: Settings): real {
    if settings.junkThreshold == 0.0 then 5.0 else settings.junkThreshold
  }

  predicate ValidJunk(v: Number) {
    v.Finite? && v.value >= 0.0
  }

  predicate ValidProbability(v: Number) {
    v.Finite? && 0.0 < v.value <= 1.0
  }

  function Override(box: Mailbox, key: string, valid: Number -> bool, default: real): real
    requires forall v :: valid(v) ==> v.Finite?
  {
    if key in box.thresholds && valid(box.thresholds[key]) then box.thresholds[key].value else default
  }

  function EffectiveJunk(settings: Settings, box: Mailbox): real {
    Override(box, "junk_threshold", ValidJunk, JunkThreshold(settings))
  }

  function LocalSettings(settings: Settings, box: Mailbox): Settings {
    settings.(spamThreshold := Override(box, "spam_threshold", ValidProbability, settings.spamThreshold),
              phishingThreshold := Override(box, "phishing_threshold", ValidProbability, settings.phishingThreshold))
  }

  predicate Enabled(settings: Settings) {
    settings.mode == "shadow" || settings.mode == "junk"
  }

  predicate Asks(o: Oracle, settings: Settings, junk: bool, reject: bool) {
    Enabled(settings) && !reject && !junk && o.available && (o.extraction == "ok" || o.extraction == "partial")
  }

  predicate Usable(v: Option<Number>) {
    v.Some? && v.value.Finite? && 0.0 <= v.value.value <= 1.0
  }

  // A result that says "ok" carries both probabilities.
  predicate Measured(r: TypeSafeResult) {
    r.status == "ok" ==> r.spam.Some? && r.phishing.Some?
  }

  predicate Exceeds(r: TypeSafeResult)
    requires r.spam.Some? && r.phishing.Some?
  {
    r.spam.value >= r.spamThreshold || r.phishing.value >= r.phishingThreshold
  }

  function Decided(r: TypeSafeResult, mode: string): TypeSafeResult
    requires Measured(r)
  {
    var would := r.status == "ok" && Exceeds(r);
    r.(wouldJunk := would, appliedJunk := mode == "junk" && would)
  }

  function Skipped(status: string, settings: Settings): TypeSafeResult {
    TypeSafeResult(status, None, None, settings.spamThreshold, settings.phishingThreshold, false, false)
  }

  // One evaluation for an assessment that is already junk or rejected, or neither.
  function Evaluated(o: Oracle, settings: Settings, junk: bool, reject: bool): (r: TypeSafeResult)
    ensures Measured(r) && (r.appliedJunk ==> r.spam.Some? && r.phishing.Some?)
  {
    if reject then Skipped("skipped_existing_reject", settings)
    else if junk then Skipped("skipped_existing_junk", settings)
    else if !o.available then Skipped("skipped_unavailable", settings)
    else if o.extraction != "ok" && o.extraction != "partial" then Skipped(o.extraction, settings)
    else if o.evaluation.status != "ok" then Skipped(o.evaluation.status, settings)
    else if !Usable(o.evaluation.spam) || !Usable(o.evaluation.phishing) then
      Skipped("error_invalid_response", settings)
    else
      Decided(Skipped("ok", settings).(spam := Some(o.evaluation.spam.value.value),
                                       phishing := Some(o.evaluation.phishing.value.value)), settings.mode)
  }

  // The shared evaluation read under one recipient's settings.
  function ForRecipient(shared: TypeSafeResult, settings: Settings, junk: bool, reject: bool): (r: TypeSafeResult)
    requires Measured(shared)
    ensures Measured(r) && (r.appliedJunk ==> r.spam.Some? && r.phishing.Some?)
  {
    var result := shared.(spamThreshold := settings.spamThreshold, phishingThreshold := settings.phishingThreshold,
                          wouldJunk := false, appliedJunk := false);
    if reject then result.(status := "skipped_existing_reject")
    else if junk then result.(status := "skipped_existing_junk")
    else if result.status == "ok" then Decided(result, settings.mode)
    else result
  }

  function Blamed(r: TypeSafeResult): seq<string>
    requires r.spam.Some? && r.phishing.Some?
  {
    (if r.spam.value >= r.spamThreshold then ["typesafe_spam"] else [])
    + (if r.phishing.value >= r.phishingThreshold then ["typesafe_phishing"] else [])
  }

  function Opening(m: Message, settings: Settings, box: Mailbox): MailboxAssessment {
    var threshold := EffectiveJunk(settings, box);
    MailboxAssessment(m.forcedJunk || m.score >= threshold, threshold, m.reasons, None)
  }

  function Settled(local: MailboxAssessment, r: TypeSafeResult): MailboxAssessment
    requires r.appliedJunk ==> r.spam.Some? && r.phishing.Some?
  {
    local.(typesafe := Some(r), junk := local.junk || r.appliedJunk,
           reasons := if r.appliedJunk then local.reasons + Blamed(r) else local.reasons)
  }

  // The first mailbox with each id.
  function Firsts(boxes: seq<Mailbox>): (f: map<string, Mailbox>)
    ensures forall id :: id in f ==> f[id] in boxes && f[id].id == id
    ensures forall box :: box in boxes ==> box.id in f
  {
    if boxes == [] then map[]
    else
      var f := Firsts(boxes[..|boxes| - 1]);
      var last := boxes[|boxes| - 1];
      assert boxes == boxes[..|boxes| - 1] + [last];
      if last.id in f then f else f[last.id := last]
  }

  lemma FirstsNext(boxes: seq<Mailbox>, box: Mailbox)
    ensures Firsts(boxes + [box]) == if box.id in Firsts(boxes) then Firsts(boxes) else Firsts(boxes)[box.id := box]
  {
    assert (boxes + [box])[..|boxes|] == boxes;
  }

  // Of mailboxes with one id the first is taken, whatever comes later.
  lemma {:induction false} FirstsAre(before: seq<Mailbox>, box: Mailbox, later: seq<Mailbox>)
    requires forall other :: other in before ==> other.id != box.id
    ensures var f := Firsts(before + [box] + later);
      box.id in f && f[box.id] == box
    decreases |later|
  {
    hide Firsts;
    if later == [] {
      FirstsNext(before, box);
      assert before + [box] + later == before + [box];
    } else {
      var front, last := later[..|later| - 1], later[|later| - 1];
      FirstsAre(before, box, front);
      FirstsNext(before + [box] + front, last);
      assert before + [box] + later == before + [box] + front + [last];
    }
  }

  predicate AllJunk(m: Message, settings: Settings, f: map<string, Mailbox>) {
    forall id :: id in f ==> Opening(m, settings, f[id]).junk
  }

  // What every mailbox gets when the message goes to all of these.
  function Policy(m: Message, settings: Settings, o: Oracle, boxes: seq<Mailbox>): (p: map<string, MailboxAssessment>)
    ensures p.Keys == Firsts(boxes).Keys
  {
    var f := Firsts(boxes);
    var shared := Evaluated(o, settings, AllJunk(m, settings, f), m.reject);
    map id | id in f ::
      var local := Opening(m, settings, f[id]);
      if Enabled(settings) then Settled(local,
          ForRecipient(shared, LocalSettings(settings, f[id]), local.junk, m.reject))
      else local
  }

  // What one mailbox gets as the only recipient.
  function Alone(m: Message, settings: Settings, o: Oracle, box: Mailbox): MailboxAssessment {
    Policy(m, settings, o, [box])[box.id]
  }

  lemma FirstsOfOne(box: Mailbox)
    ensures Firsts([box]) == map[box.id := box]
  {
    assert [box][..0] == [];
  }

  /** Sharing one evaluation gives every mailbox the placement, the reasons and the
      decision it would have got alone; only the probabilities in its record may be
      there because of the others. */
  lemma SameAsAlone(m: Message, settings: Settings, o: Oracle, boxes: seq<Mailbox>, id: string)
    requires id in Firsts(boxes)
    ensures
      var shared, alone := Policy(m, settings, o, boxes)[id], Alone(m, settings, o, Firsts(boxes)[id]);
      && shared.junk == alone.junk && shared.reasons == alone.reasons && shared.junkThreshold == alone.junkThreshold
      && (shared.typesafe.None? <==> alone.typesafe.None?)
      && (shared.typesafe.Some? ==>
            shared.typesafe.value.(spam := None, phishing := None) == alone.typesafe.value.(spam := None,
                phishing := None))
  {
    FirstsOfOne(Firsts(boxes)[id]);
  }

  // Boxes that carry one id are one mailbox.
  predicate OnePerId(boxes: seq<Mailbox>) {
    forall x, y :: x in boxes && y in boxes && x.id == y.id ==> x == y
  }

  /** Order and repetition of the recipients make no difference at all. */
  lemma OrderFree(m: Message, settings: Settings, o: Oracle, first: seq<Mailbox>, second: seq<Mailbox>)
    requires OnePerId(first) && forall box :: box in first <==> box in second
    ensures Policy(m, settings, o, first) == Policy(m, settings, o, second)
  {
    var f, g := Firsts(first), Firsts(second);
    forall id ensures id in f <==> id in g {
      assert id in f ==> f[id] in second;
      assert id in g ==> g[id] in first;
    }
    assert f == g;
  }

  // Effective thresholds at most as high.
  predicate Stricter(settings: Settings, box: Mailbox, strict: Mailbox) {
    && EffectiveJunk(settings, strict) <= EffectiveJunk(settings, box)
    && LocalSettings(settings, strict).spamThreshold <= LocalSettings(settings, box).spamThreshold
    && LocalSettings(settings, strict).phishingThreshold <= LocalSettings(settings, box).phishingThreshold
  }

  // The evaluator answered, and its answer is over a threshold of this mailbox.
  predicate Caught(settings: Settings, o: Oracle, box: Mailbox) {
    var local := LocalSettings(settings, box);
    && o.available && (o.extraction == "ok" || o.extraction == "partial")
    && o.evaluation.status == "ok" && Usable(o.evaluation.spam) && Usable(o.evaluation.phishing)
    && (o.evaluation.spam.value.value >= local.spamThreshold
        || o.evaluation.phishing.value.value >= local.phishingThreshold)
  }

  /** A sole recipient's mailbox takes the message for Junk exactly when an earlier
      check forced it, its score reaches the mailbox's threshold, or, in junk mode
      and unless rejected, the evaluator catches it. */
  lemma AloneVerdict(m: Message, settings: Settings, o: Oracle, box: Mailbox)
    ensures Alone(m, settings, o, box).junk <==>
      || m.forcedJunk || m.score >= EffectiveJunk(settings, box)
      || (settings.mode == "junk" && !m.reject && Caught(settings, o, box))
  {
    FirstsOfOne(box);
  }

  /** The thresholds in force: the mailbox's own where the policy accepts them, the
      configured ones otherwise, and 5 where no junk threshold is configured. */
  lemma InForce(settings: Settings, box: Mailbox)
    ensures
      var own := box.thresholds;
      && EffectiveJunk(settings, box) == (
           if "junk_threshold" in own && own["junk_threshold"].Finite? && own["junk_threshold"].value >= 0.0
           then own["junk_threshold"].value
           else if settings.junkThreshold == 0.0 then 5.0 else settings.junkThreshold)
      && LocalSettings(settings, box).spamThreshold == (
           if "spam_threshold" in own && own["spam_threshold"].Finite? && 0.0 < own["spam_threshold"].value <= 1.0
           then own["spam_threshold"].value else settings.spamThreshold)
      && LocalSettings(settings, box).phishingThreshold == (
           if "phishing_threshold" in own && own["phishing_threshold"].Finite?
               && 0.0 < own["phishing_threshold"].value <= 1.0
           then own["phishing_threshold"].value else settings.phishingThreshold)
  {
  }

  // The evaluator's two numbers are probabilities, and here is one of them.
  ghost predicate Gives(o: Oracle, spam: real, phishing: real) {
    && o.available && o.extraction in {"ok", "partial"} && o.evaluation.status == "ok"
    && o.evaluation.spam == Some(Finite(spam)) && 0.0 <= spam <= 1.0
    && o.evaluation.phishing == Some(Finite(phishing)) && 0.0 <= phishing <= 1.0
  }

  /** What the evaluator's two probabilities do to a message that no earlier check put
      in Junk or rejected: either one that reaches its threshold is recorded as such;
      in junk mode alone it puts the message in Junk and is named as a reason. */
  lemma AloneReasons(m: Message, settings: Settings, o: Oracle, box: Mailbox, spam: real, phishing: real)
    requires Gives(o, spam, phishing) && settings.mode in {"shadow", "junk"} && !m.reject
    requires !m.forcedJunk && m.score < EffectiveJunk(settings, box)
    ensures
      var local, alone := LocalSettings(settings, box), Alone(m, settings, o, box);
      var spammy, phishy := spam >= local.spamThreshold, phishing >= local.phishingThreshold;
      && alone.junk == (settings.mode == "junk" && (spammy || phishy))
      && alone.reasons == m.reasons + (if settings.mode == "junk" && spammy then ["typesafe_spam"] else [])
           + (if settings.mode == "junk" && phishy then ["typesafe_phishing"] else [])
      && alone.typesafe == Some(TypeSafeResult("ok", Some(spam), Some(phishing), local.spamThreshold,
           local.phishingThreshold, spammy || phishy, settings.mode == "junk" && (spammy || phishy)))
  {
    FirstsOfOne(box);
  }

  /** Whatever else happens the evaluator decides nothing and adds no reason, and the
      record says why. */
  lemma AloneUndecided(m: Message, settings: Settings, o: Oracle, box: Mailbox)
    requires settings.mode !in {"shadow", "junk"} || m.reject || m.forcedJunk
      || m.score >= EffectiveJunk(settings, box) || !exists spam, phishing :: Gives(o, spam, phishing)
    ensures
      var alone := Alone(m, settings, o, box);
      && alone.junk == (m.forcedJunk || m.score >= EffectiveJunk(settings, box)) && alone.reasons == m.reasons
      && alone.junkThreshold == EffectiveJunk(settings, box)
      && (settings.mode !in {"shadow", "junk"} <==> alone.typesafe == None)
      && (alone.typesafe.Some? ==>
            && !alone.typesafe.value.wouldJunk && !alone.typesafe.value.appliedJunk
            && (m.reject ==> alone.typesafe.value.status == "skipped_existing_reject")
            && (!m.reject && alone.junk ==> alone.typesafe.value.status == "skipped_existing_junk")
            && (!m.reject && !alone.junk ==>
                  alone.typesafe.value.status ==
                    if !o.available then "skipped_unavailable"
                    else if o.extraction !in {"ok", "partial"} then o.extraction
                    else if o.evaluation.status != "ok" then o.evaluation.status
                    else "error_invalid_response"))
  {
    FirstsOfOne(box);
    if o.available && o.extraction in {"ok", "partial"} && o.evaluation.status == "ok"
        && Usable(o.evaluation.spam) && Usable(o.evaluation.phishing) {
      assert Gives(o, o.evaluation.spam.value.value, o.evaluation.phishing.value.value);
    }
  }

  /** Lower effective thresholds never take a message out of Junk. */
  lemma StricterKeepsJunk(m: Message, settings: Settings, o: Oracle, box: Mailbox, strict: Mailbox)
    requires Stricter(settings, box, strict) && Alone(m, settings, o, box).junk
    ensures Alone(m, settings, o, strict).junk
  {
    hide Alone;
    AloneVerdict(m, settings, o, box);
    AloneVerdict(m, settings, o, strict);
  }

  // The placement of every message, whatever the evaluator says.
  ghost predicate KeepsJunk(settings: Settings, box: Mailbox, other: Mailbox) {
    forall m, o :: Alone(m, settings, o, box).junk ==> Alone(m, settings, o, other).junk
  }

  function With(box: Mailbox, key: string, v: Number): Mailbox {
    box.(thresholds := box.thresholds[key := v])
  }

  lemma Witness(settings: Settings, box: Mailbox, other: Mailbox, m: Message, o: Oracle)
    requires KeepsJunk(settings, box, other) && Alone(m, settings, o, box).junk
    ensures Alone(m, settings, o, other).junk
  {
  }

  // The three keys, and the numbers the policy accepts under each.
  predicate IsThreshold(key: string) {
    key in {"junk_threshold", "spam_threshold", "phishing_threshold"}
  }

  predicate ValidFor(key: string, v: Number) {
    if key == "junk_threshold" then ValidJunk(v) else ValidProbability(v)
  }

  // What the API lets be stored.
  predicate Accepted(thresholds: map<string, Number>) {
    forall key :: key in thresholds ==> IsThreshold(key) && ValidFor(key, thresholds[key])
  }

  function Effective(settings: Settings, box: Mailbox, key: string): real {
    if key == "junk_threshold" then EffectiveJunk(settings, box)
    else if key == "spam_threshold" then LocalSettings(settings, box).spamThreshold
    else LocalSettings(settings, box).phishingThreshold
  }

  // What is in force for a key without an override.
  function Inherited(settings: Settings, key: string): real {
    if key == "junk_threshold" then JunkThreshold(settings)
    else if key == "spam_threshold" then settings.spamThreshold
    else settings.phishingThreshold
  }

  lemma EffectiveAfter(settings: Settings, box: Mailbox, key: string, v: real)
    requires IsThreshold(key)
    ensures Effective(settings, With(box, key, Finite(v)), key) == if ValidFor(key,
        Finite(v)) then v else Inherited(settings, key)
    ensures forall other :: IsThreshold(other) && other != key ==>
      Effective(settings, With(box, key, Finite(v)), other) == Effective(settings, box, other)
  {
  }

  /** Lowering any threshold of a mailbox, with or without a number stored before,
      never takes a message out of Junk, for every number that can be stored. */
  lemma LoweringKeepsJunk(settings: Settings, box: Mailbox, key: string, v: real)
    requires IsThreshold(key) && Accepted(With(box, key, Finite(v)).thresholds)
    requires v <= Effective(settings, box, key)
    ensures KeepsJunk(settings, box, With(box, key, Finite(v)))
  {
    EffectiveAfter(settings, box, key, v);
    StricterForAll(settings, box, With(box, key, Finite(v)));
  }

  /** The same of replacing all overrides at once, as the API does: no message leaves
      Junk if no threshold is in force higher than before. */
  lemma ReplacingKeepsJunk(settings: Settings, box: Mailbox, thresholds: map<string, Number>)
    requires Accepted(thresholds)
    requires forall key :: IsThreshold(key) ==>
      (if key in thresholds then thresholds[key].value else Inherited(settings, key)) <= Effective(settings, box, key)
    ensures KeepsJunk(settings, box, box.(thresholds := thresholds))
  {
    var other := box.(thresholds := thresholds);
    forall key | IsThreshold(key) ensures Effective(settings, other, key) <= Effective(settings, box, key) {
    }
    assert IsThreshold("junk_threshold") && IsThreshold("spam_threshold") && IsThreshold("phishing_threshold");
    assert Effective(settings, other, "junk_threshold") <= Effective(settings, box, "junk_threshold");
    assert Effective(settings, other, "spam_threshold") <= Effective(settings, box, "spam_threshold");
    assert Effective(settings, other, "phishing_threshold") <= Effective(settings, box, "phishing_threshold");
    StricterForAll(settings, box, other);
  }

  lemma StricterForAll(settings: Settings, box: Mailbox, strict: Mailbox)
    requires Stricter(settings, box, strict)
    ensures KeepsJunk(settings, box, strict)
  {
    hide Stricter, Alone;
    forall m, o | Alone(m, settings, o, box).junk ensures Alone(m, settings, o, strict).junk {
      StricterKeepsJunk(m, settings, o, box, strict);
    }
  }

  /** For any number at all, storable or not: setting the junk threshold keeps every
      message in Junk that was there exactly when what is then in force is no higher. */
  lemma SetJunkThreshold(settings: Settings, box: Mailbox, v: real)
    ensures KeepsJunk(settings, box, With(box, "junk_threshold", Finite(v)))
      <==> (if v >= 0.0 then v else JunkThreshold(settings)) <= EffectiveJunk(settings, box)
  {
    hide Alone;
    var other := With(box, "junk_threshold", Finite(v));
    EffectiveAfter(settings, box, "junk_threshold", v);
    if EffectiveJunk(settings, other) <= EffectiveJunk(settings, box) {
      StricterForAll(settings, box, other);
    } else if KeepsJunk(settings, box, other) {
      var m := Message(EffectiveJunk(settings, box), [], false, false, true);
      var o := Oracle(false, "", Evaluation("", None, None));
      AloneVerdict(m, settings, o, box);
      AloneVerdict(m, settings, o, other);
      Witness(settings, box, other, m, o);
      assert false;
    }
  }

  // A number the API refuses: -1 in place of 1 falls back to the default of 5, and a
  // score of 3 leaves Junk.
  lemma RefusedNumberExample()
    ensures
      var settings := Settings(0.0, "off", 0.98, 0.98);
      var box := Mailbox("b", map["junk_threshold" := Finite(1.0)]);
      var m, o := Message(3.0, [], false, false, false), Oracle(false, "", Evaluation("", None, None));
      && !Accepted(With(box, "junk_threshold", Finite(-1.0)).thresholds)
      && Alone(m, settings, o, box).junk && !Alone(m, settings, o, With(box, "junk_threshold", Finite(-1.0))).junk
  {
    var settings := Settings(0.0, "off", 0.98, 0.98);
    var box := Mailbox("b", map["junk_threshold" := Finite(1.0)]);
    var m, o := Message(3.0, [], false, false, false), Oracle(false, "", Evaluation("", None, None));
    hide Alone;
    AloneVerdict(m, settings, o, box);
    AloneVerdict(m, settings, o, With(box, "junk_threshold", Finite(-1.0)));
    assert !ValidFor("junk_threshold", Finite(-1.0));
  }

  // A score below the junk threshold, and an evaluation with these probabilities.
  function Unremarkable(settings: Settings, box: Mailbox): Message {
    Message(EffectiveJunk(settings, box) - 1.0, [], false, false, false)
  }

  function Answers(spam: real, phishing: real): Oracle {
    Oracle(true, "ok", Evaluation("ok", Some(Finite(spam)), Some(Finite(phishing))))
  }

  /** The same for the spam threshold, in junk mode. */
  lemma SetSpamThreshold(settings: Settings, box: Mailbox, v: real)
    requires settings.mode == "junk" && 0.0 < settings.spamThreshold <= 1.0 && 0.0 < settings.phishingThreshold <= 1.0
    ensures KeepsJunk(settings, box, With(box, "spam_threshold", Finite(v)))
      <==> (if 0.0 < v <= 1.0 then v else settings.spamThreshold) <= LocalSettings(settings, box).spamThreshold
  {
    hide Alone;
    var other := With(box, "spam_threshold", Finite(v));
    var before, after := LocalSettings(settings, box), LocalSettings(settings, other);
    if after.spamThreshold <= before.spamThreshold {
      StricterForAll(settings, box, other);
    } else if KeepsJunk(settings, box, other) {
      var m, o := Unremarkable(settings, box), Answers(before.spamThreshold, 0.0);
      AloneVerdict(m, settings, o, box);
      AloneVerdict(m, settings, o, other);
      Witness(settings, box, other, m, o);
      assert false;
    }
  }

  /** And for the phishing threshold. */
  lemma SetPhishingThreshold(settings: Settings, box: Mailbox, v: real)
    requires settings.mode == "junk" && 0.0 < settings.spamThreshold <= 1.0 && 0.0 < settings.phishingThreshold <= 1.0
    ensures KeepsJunk(settings, box, With(box, "phishing_threshold", Finite(v)))
      <==> (if 0.0 < v <= 1.0 then v else settings.phishingThreshold) <= LocalSettings(settings, box).phishingThreshold
  {
    hide Alone;
    var other := With(box, "phishing_threshold", Finite(v));
    var before, after := LocalSettings(settings, box), LocalSettings(settings, other);
    if after.phishingThreshold <= before.phishingThreshold {
      StricterForAll(settings, box, other);
    } else if KeepsJunk(settings, box, other) {
      var m, o := Unremarkable(settings, box), Answers(0.0, before.phishingThreshold);
      AloneVerdict(m, settings, o, box);
      AloneVerdict(m, settings, o, other);
      Witness(settings, box, other, m, o);
      assert false;
    }
  }

  // The only writer of overrides: a request with any other key, or with a number the
  // policy would not accept, stores nothing.
  method ParseSpamThresholds(fields: map<string, Option<Number>>) returns (r: Option<map<string, Number>>)
    ensures r.Some? <==> forall key :: key in fields ==>
      IsThreshold(key) && fields[key].Some? && ValidFor(key, fields[key].value)
    ensures r.Some? ==> Accepted(r.value) && r.value.Keys == fields.Keys
    ensures r.Some? ==> forall key :: key in fields ==> fields[key] == Some(r.value[key])
  {
    var values: map<string, Number> := map[];
    var todo := fields.Keys;
    while todo != {}
      invariant todo <= fields.Keys && values.Keys == fields.Keys - todo
      invariant forall key :: key in values ==>
        IsThreshold(key) && ValidFor(key, values[key]) && fields[key] == Some(values[key])
      decreases todo
    {
      var key :| key in todo;
      todo := todo - {key};
      if key != "junk_threshold" && key != "spam_threshold" && key != "phishing_threshold" {
        return None;
      }
      if fields[key].None? || fields[key].value.NotFinite? {
        return None;
      }
      var v := fields[key].value.value;
      if key == "junk_threshold" {
        if v < 0.0 {
          return None;
        }
      } else if v <= 0.0 || v > 1.0 {
        return None;
      }
      values := values[key := Finite(v)];
    }
    return Some(values);
  }
}

/** The checker that applies the policy to an assessment, calling the evaluator. */
module MailboxPolicy {
  import opened Common
  import opened SpamRules

  class Assessment {
    const score: real
    const reject: bool
    var junk: bool
    var reasons: seq<string>
    var typesafe: Option<TypeSafeResult>
    var mailboxes: map<string, MailboxAssessment>

    constructor (score: real, reasons: seq<string>, junk: bool, reject: bool)
      ensures this.score == score && this.reasons == reasons && this.junk == junk && this.reject == reject
      ensures typesafe == None && mailboxes == map[]
    {
      this.score, this.reasons, this.junk, this.reject := score, reasons, junk, reject;
      typesafe, mailboxes := None, map[];
    }

    // Takes over a result; a result that applies makes the message junk and says why.
    method ApplyRecipientTypeSafe(result: TypeSafeResult)
      requires result.appliedJunk ==> result.spam.Some? && result.phishing.Some?
      modifies this`junk, this`reasons, this`typesafe
      ensures junk == (old(junk) || result.appliedJunk) && typesafe == Some(result)
      ensures reasons == if result.appliedJunk then old(reasons) + Blamed(result) else old(reasons)
      ensures !result.appliedJunk ==> reasons == old(reasons)
      ensures result.appliedJunk ==>
        reasons == old(reasons)
          + (if result.spam.value >= result.spamThreshold then ["typesafe_spam"] else [])
          + (if result.phishing.value >= result.phishingThreshold then ["typesafe_phishing"] else [])
    {
      if result.appliedJunk {
        junk := true;
        if result.spam.value >= result.spamThreshold {
          reasons := reasons + ["typesafe_spam"];
        }
        if result.phishing.value >= result.phishingThreshold {
          reasons := reasons + ["typesafe_phishing"];
        }
      }
      typesafe := Some(result);
    }
  }

  function Flatten(recipients: seq<seq<Mailbox>>): seq<Mailbox> {
    if recipients == [] then [] else Flatten(recipients[..|recipients| - 1]) + recipients[|recipients| - 1]
  }

  function Openings(m: Message, settings: Settings, boxes: seq<Mailbox>): map<string, MailboxAssessment> {
    var f := Firsts(boxes);
    map id | id in f :: Opening(m, settings, f[id])
  }

  function LocalConfigs(settings: Settings, boxes: seq<Mailbox>): map<string, Settings> {
    var f := Firsts(boxes);
    map id | id in f :: LocalSettings(settings, f[id])
  }

  // All that the first loop works out.
  function Opened(m: Message, settings: Settings, boxes: seq<Mailbox>):
      (map<string, MailboxAssessment>, map<string, Settings>, bool)
  {
    (Openings(m, settings, boxes), LocalConfigs(settings, boxes), AllJunk(m, settings, Firsts(boxes)))
  }

  // One more mailbox: opened unless its id was seen before.
  lemma OpenNext(m: Message, settings: Settings, boxes: seq<Mailbox>, box: Mailbox)
    ensures
      var (mailboxes, configs, allJunk) := Opened(m, settings, boxes);
      var local := Opening(m, settings, box);
      Opened(m, settings, boxes + [box]) ==
        if box.id in mailboxes then (mailboxes, configs, allJunk)
        else (mailboxes[box.id := local], configs[box.id := LocalSettings(settings, box)], allJunk && local.junk)
  {
    hide Firsts, Opening, LocalSettings;
    FirstsNext(boxes, box);
    var f := Firsts(boxes);
    var g := Firsts(boxes + [box]);
    if box.id !in f {
      assert g == f[box.id := box];
      assert Openings(m, settings, boxes + [box]) == Openings(m, settings, boxes)[box.id := Opening(m, settings, box)];
      assert LocalConfigs(settings, boxes + [box]) ==
        LocalConfigs(settings, boxes)[box.id := LocalSettings(settings, box)];
      assert AllJunk(m, settings, g) == (AllJunk(m, settings, f) && Opening(m, settings, box).junk) by {
        assert forall id :: id in g <==> id in f || id == box.id;
      }
    }
  }

  lemma FlattenNext(recipients: seq<seq<Mailbox>>, i: nat)
    requires i < |recipients|
    ensures Flatten(recipients[..i + 1]) == Flatten(recipients[..i]) + recipients[i]
  {
    assert recipients[..i + 1][..i] == recipients[..i];
  }

  ghost predicate AnyWould(mailboxes: map<string, MailboxAssessment>) {
    exists id :: id in mailboxes && mailboxes[id].typesafe.Some? && mailboxes[id].typesafe.value.wouldJunk
  }

  ghost predicate AnyApplied(mailboxes: map<string, MailboxAssessment>) {
    exists id :: id in mailboxes && mailboxes[id].typesafe.Some? && mailboxes[id].typesafe.value.appliedJunk
  }

  lemma AnyNext(mailboxes: map<string, MailboxAssessment>, id: string, local: MailboxAssessment)
    requires id !in mailboxes && local.typesafe.Some?
    ensures AnyWould(mailboxes[id := local]) == (AnyWould(mailboxes) || local.typesafe.value.wouldJunk)
    ensures AnyApplied(mailboxes[id := local]) == (AnyApplied(mailboxes) || local.typesafe.value.appliedJunk)
  {
    var next := mailboxes[id := local];
    assert id in next && next[id] == local;
    assert forall x :: x in mailboxes ==> x in next && next[x] == mailboxes[x];
  }

  // Everything the policy leaves behind, the numbers of evaluator calls and of
  // results reported included.
  datatype Final = Final(
    mailboxes: map<string, MailboxAssessment>, typesafe: Option<TypeSafeResult>, junk: bool, reasons: seq<string>,
    asked: int, told: int)

  function Outcome(m: Message, settings: Settings, o: Oracle, boxes: seq<Mailbox>,
      prior: Option<TypeSafeResult>): Final {
    var junk := if boxes == [] then m.junk else AllJunk(m, settings, Firsts(boxes));
    if !Enabled(settings) then Final(Policy(m, settings, o, boxes), prior, m.junk, m.reasons, 0, 0)
    else
      var r := ForRecipient(Evaluated(o, settings, junk, m.reject), settings, m.junk, m.reject);
      Final(Policy(m, settings, o, boxes), Some(r), m.junk || r.appliedJunk,
            if r.appliedJunk then m.reasons + Blamed(r) else m.reasons,
                if Asks(o, settings, junk, m.reject) then 1 else 0, 1)
  }

  /** The evaluator is never asked about a rejected message, nor when every mailbox
      the message goes to has it in Junk already. */
  lemma AskedOnlyIfNeeded(m: Message, settings: Settings, o: Oracle, boxes: seq<Mailbox>, prior: Option<TypeSafeResult>)
    ensures Outcome(m, settings, o, boxes, prior).asked in {0, 1}
    ensures Outcome(m, settings, o, boxes, prior).asked == 1 ==>
      !m.reject && if boxes == [] then !m.junk else exists box :: box in boxes && !Opening(m, settings, box).junk
  {
    hide Policy, Evaluated, ForRecipient, Opening, Blamed;
    if boxes != [] && !AllJunk(m, settings, Firsts(boxes)) {
      var id :| id in Firsts(boxes) && !Opening(m, settings, Firsts(boxes)[id]).junk;
      assert Firsts(boxes)[id] in boxes;
    }
  }

  /** And it is asked, in either mode, exactly if it is there, extraction worked, the
      message is not rejected and some mailbox, or without any the message, is not
      in Junk; a result is reported in either mode. */
  lemma AskedExactly(m: Message, settings: Settings, o: Oracle, boxes: seq<Mailbox>, prior: Option<TypeSafeResult>)
    ensures Outcome(m, settings, o, boxes, prior).told == if settings.mode in {"shadow", "junk"} then 1 else 0
    ensures Outcome(m, settings, o, boxes, prior).asked == 1 <==>
      && settings.mode in {"shadow", "junk"} && !m.reject && o.available && o.extraction in {"ok", "partial"}
      && if boxes == [] then !m.junk else
           exists id :: id in Firsts(boxes) && !Opening(m, settings, Firsts(boxes)[id]).junk
  {
    hide Policy, Evaluated, ForRecipient, Opening, Blamed, Firsts;
    var asked := Outcome(m, settings, o, boxes, prior).asked;
    if boxes == [] {
      assert asked == 1 <==> Asks(o, settings, m.junk, m.reject);
    } else {
      var all := AllJunk(m, settings, Firsts(boxes));
      assert asked == 1 <==> Asks(o, settings, all, m.reject);
      assert !all <==> exists id :: id in Firsts(boxes) && !Opening(m, settings, Firsts(boxes)[id]).junk;
    }
  }

  /** The message's own result: in junk mode, unless it is rejected or in Junk, the
      probabilities of an evaluator that was asked are held against the configured
      thresholds. */
  lemma MessageReasons(m: Message, settings: Settings, o: Oracle, boxes: seq<Mailbox>, prior: Option<TypeSafeResult>,
      spam: real, phishing: real)
    requires Gives(o, spam, phishing) && Outcome(m, settings, o, boxes, prior).asked == 1
    ensures
      var final := Outcome(m, settings, o, boxes, prior);
      var applies := settings.mode == "junk" && !m.junk;
      var spammy, phishy := spam >= settings.spamThreshold, phishing >= settings.phishingThreshold;
      && final.junk == (m.junk || (applies && (spammy || phishy)))
      && final.reasons == m.reasons + (if applies && spammy then ["typesafe_spam"] else [])
           + (if applies && phishy then ["typesafe_phishing"] else [])
      && final.typesafe.Some? && final.typesafe.value.wouldJunk == (!m.junk && (spammy || phishy))
      && final.typesafe.value.status == if m.junk then "skipped_existing_junk" else "ok"
  {
    hide Policy, Firsts, AllJunk;
  }

  /** An evaluator that was not asked adds nothing. */
  lemma MessageUndecided(m: Message, settings: Settings, o: Oracle, boxes: seq<Mailbox>, prior: Option<TypeSafeResult>)
    requires Outcome(m, settings, o, boxes, prior).asked == 0 || !exists spam, phishing :: Gives(o, spam, phishing)
    ensures
      var final := Outcome(m, settings, o, boxes, prior);
      && final.junk == m.junk && final.reasons == m.reasons
      && (settings.mode !in {"shadow", "junk"} ==> final.typesafe == prior)
      && (settings.mode in {"shadow", "junk"} ==>
            final.typesafe.Some? && !final.typesafe.value.wouldJunk && !final.typesafe.value.appliedJunk)
  {
    hide Policy, Firsts, AllJunk;
    if Usable(o.evaluation.spam) && Usable(o.evaluation.phishing) && o.evaluation.status == "ok"
        && o.available && o.extraction in {"ok", "partial"} {
      assert Gives(o, o.evaluation.spam.value.value, o.evaluation.phishing.value.value);
    }
  }

  // Without mailboxes the message's own evaluation is the outcome.
  function Unshared(m: Message, settings: Settings, o: Oracle, prior: Option<TypeSafeResult>): Final {
    if !Enabled(settings) then Final(map[], prior, m.junk, m.reasons, 0, 0)
    else
      var r := Evaluated(o, settings, m.junk, m.reject);
      Final(map[], Some(r), m.junk || r.appliedJunk, if r.appliedJunk then m.reasons + Blamed(r) else m.reasons,
            if Asks(o, settings, m.junk, m.reject) then 1 else 0, 1)
  }

  // The shared evaluation read for every opened mailbox.
  function Readings(locals: map<string, MailboxAssessment>, configs: map<string, Settings>, shared: TypeSafeResult,
      reject: bool):
      map<string, MailboxAssessment>
    requires locals.Keys == configs.Keys && Measured(shared)
  {
    map id | id in locals :: Settled(locals[id], ForRecipient(shared, configs[id], locals[id].junk, reject))
  }

  function Shared(m: Message, settings: Settings, o: Oracle, locals: map<string, MailboxAssessment>,
                  configs: map<string, Settings>, allJunk: bool, prior: Option<TypeSafeResult>): Final
    requires locals.Keys == configs.Keys
  {
    if !Enabled(settings) then Final(locals, prior, m.junk, m.reasons, 0, 0)
    else
      var shared := Evaluated(o, settings, allJunk, m.reject);
      var r := ForRecipient(shared, settings, m.junk, m.reject);
      Final(Readings(locals, configs, shared, m.reject), Some(r), m.junk || r.appliedJunk,
            if r.appliedJunk then m.reasons + Blamed(r) else m.reasons,
                if Asks(o, settings, allJunk, m.reject) then 1 else 0, 1)
  }

  lemma OutcomeUnshared(m: Message, settings: Settings, o: Oracle, prior: Option<TypeSafeResult>)
    ensures Outcome(m, settings, o, [], prior) == Unshared(m, settings, o, prior)
  {
    SameReading(o, settings, m.junk, m.reject);
  }

  lemma PolicyOpened(m: Message, settings: Settings, o: Oracle, boxes: seq<Mailbox>)
    ensures
      var (locals, configs, allJunk) := Opened(m, settings, boxes);
      && locals.Keys == configs.Keys
      && Policy(m, settings, o, boxes) ==
           if Enabled(settings) then Readings(locals, configs, Evaluated(o, settings, allJunk, m.reject),
               m.reject) else locals
  {
    hide Evaluated, ForRecipient, Settled, Opening, LocalSettings, AllJunk, Firsts;
  }

  // What forced the message to junk no longer matters once the mailboxes are opened.
  lemma OutcomeShared(m: Message, settings: Settings, o: Oracle, boxes: seq<Mailbox>, prior: Option<TypeSafeResult>)
    requires boxes != []
    ensures
      var (locals, configs, allJunk) := Opened(m, settings, boxes);
      && locals.Keys == configs.Keys
      && Outcome(m, settings, o, boxes, prior) ==
           Shared(m.(forcedJunk := false), settings, o, locals, configs, allJunk, prior)
  {
    hide Evaluated, ForRecipient, Readings, Policy, Openings, LocalConfigs, AllJunk, Firsts, Blamed, Asks;
    PolicyOpened(m, settings, o, boxes);
  }

  lemma OutcomeOpened(m: Message, settings: Settings, o: Oracle, boxes: seq<Mailbox>, prior: Option<TypeSafeResult>)
    ensures
      var (locals, configs, allJunk) := Opened(m, settings, boxes);
      && locals.Keys == configs.Keys
      && (Asks(o, settings, m.junk, m.reject) ==> Enabled(settings))
      && Outcome(m, settings, o, boxes, prior) ==
           if locals == map[] then Unshared(m, settings, o, prior)
           else Shared(m.(forcedJunk := false), settings, o, locals, configs, allJunk, prior)
  {
    hide Outcome, Unshared, Shared;
    if boxes == [] {
      OutcomeUnshared(m, settings, o, prior);
    } else {
      OutcomeShared(m, settings, o, boxes, prior);
      assert boxes[0] in boxes;
      assert boxes[0].id in Opened(m, settings, boxes).0;
    }
  }

  // A message's own evaluation, read again under its own settings.
  lemma SameReading(o: Oracle, settings: Settings, junk: bool, reject: bool)
    ensures Enabled(settings) ==>
      ForRecipient(Evaluated(o, settings, junk, reject), settings, junk, reject) == Evaluated(o, settings, junk, reject)
  {
  }

  class Checker {
    const oracle: Oracle
    var calls: nat                      // evaluator calls made
    var observed: seq<TypeSafeResult>   // results reported to the observer

    constructor (oracle: Oracle)
      ensures this.oracle == oracle && calls == 0 && observed == []
    {
      this.oracle, calls, observed := oracle, 0, [];
    }

    method Evaluate() returns (e: Evaluation)
      requires oracle.available
      modifies this`calls
      ensures e == oracle.evaluation && calls == old(calls) + 1
    {
      calls := calls + 1;
      return oracle.evaluation;
    }

    method ApplyTypeSafe(settings: Settings, a: Assessment, observe: bool)
      modifies this, a
      ensures calls == old(calls) + if Asks(oracle, settings, old(a.junk), a.reject) then 1 else 0
      ensures a.mailboxes == old(a.mailboxes)
      ensures !Enabled(settings) ==>
        a.junk == old(a.junk) && a.reasons == old(a.reasons) && a.typesafe == old(a.typesafe)
            && observed == old(observed)
      ensures Enabled(settings) ==>
        var r := Evaluated(oracle, settings, old(a.junk), a.reject);
        && a.typesafe == Some(r) && a.junk == (old(a.junk) || r.appliedJunk)
        && a.reasons == (if r.appliedJunk then old(a.reasons) + Blamed(r) else old(a.reasons))
        && observed == old(observed) + if observe then [r] else []
    {
      if settings.mode != "shadow" && settings.mode != "junk" {
        return;
      }
      var result := TypeSafeResult("", None, None, settings.spamThreshold, settings.phishingThreshold, false, false);
      if a.reject {
        result := result.(status := "skipped_existing_reject");
      } else if a.junk {
        result := result.(status := "skipped_existing_junk");
      } else if !oracle.available {
        result := result.(status := "skipped_unavailable");
      } else if oracle.extraction != "ok" && oracle.extraction != "partial" {
        result := result.(status := oracle.extraction);
      } else {
        var e := Evaluate();
        result := result.(status := e.status);
        if e.status == "ok" {
          if !Usable(e.spam) || !Usable(e.phishing) {
            result := result.(status := "error_invalid_response");
          } else {
            result := result.(spam := Some(e.spam.value.value), phishing := Some(e.phishing.value.value));
            var spam := result.spam.value >= settings.spamThreshold;
            var phishing := result.phishing.value >= settings.phishingThreshold;
            result := result.(wouldJunk := spam || phishing, appliedJunk := settings.mode == "junk"
                && (spam || phishing));
            if result.appliedJunk {
              a.junk := true;
              if spam {
                a.reasons := a.reasons + ["typesafe_spam"];
              }
              if phishing {
                a.reasons := a.reasons + ["typesafe_phishing"];
              }
            }
          }
        }
      }
      a.typesafe := Some(result);
      if observe {
        observed := observed + [result];
      }
    }

    // The opening assessment of every mailbox, once per id.
    method Open(recipients: seq<seq<Mailbox>>, settings: Settings, m: Message)
      returns (mailboxes: map<string, MailboxAssessment>, configs: map<string, Settings>, allJunk: bool)
      ensures (mailboxes, configs, allJunk) == Opened(m, settings, Flatten(recipients))
    {
      mailboxes, configs, allJunk := map[], map[], true;
      assert Flatten(recipients[..0]) == [];
      assert (mailboxes, configs, allJunk) == Opened(m, settings, []);
      hide Opened, Flatten;
      for i := 0 to |recipients|
        invariant (mailboxes, configs, allJunk) == Opened(m, settings, Flatten(recipients[..i]))
      {
        mailboxes, configs, allJunk :=
          OpenEach(Flatten(recipients[..i]), recipients[i], settings, m, mailboxes, configs, allJunk);
        FlattenNext(recipients, i);
      }
      assert recipients[..|recipients|] == recipients;
    }

    // The same for one recipient's mailboxes, after those seen before.
    method OpenEach(ghost before: seq<Mailbox>, boxes: seq<Mailbox>, settings: Settings, m: Message,
                    seen: map<string, MailboxAssessment>, seenConfigs: map<string, Settings>, seenJunk: bool)
      returns (mailboxes: map<string, MailboxAssessment>, configs: map<string, Settings>, allJunk: bool)
      requires (seen, seenConfigs, seenJunk) == Opened(m, settings, before)
      ensures (mailboxes, configs, allJunk) == Opened(m, settings, before + boxes)
    {
      hide Opened, Opening, LocalSettings;
      mailboxes, configs, allJunk := seen, seenConfigs, seenJunk;
      ghost var all := before;
      assert before + boxes[..0] == before;
      for j := 0 to |boxes|
        invariant all == before + boxes[..j]
        invariant (mailboxes, configs, allJunk) == Opened(m, settings, all)
      {
        var box := boxes[j];
        OpenNext(m, settings, all, box);
        all := all + [box];
        if box.id !in mailboxes {
          var local := Opening(m, settings, box);
          mailboxes := mailboxes[box.id := local];
          configs := configs[box.id := LocalSettings(settings, box)];
          allJunk := allJunk && local.junk;
        }
      }
      assert boxes[..|boxes|] == boxes;
    }

    // Reads the shared evaluation for every mailbox, in any order of them.
    method Settle(locals: map<string, MailboxAssessment>, configs: map<string, Settings>, shared: TypeSafeResult,
        reject: bool)
      returns (mailboxes: map<string, MailboxAssessment>, wouldJunk: bool, appliedJunk: bool)
      requires locals.Keys == configs.Keys && Measured(shared)
      ensures mailboxes == Readings(locals, configs, shared, reject)
      ensures wouldJunk == AnyWould(mailboxes)
      ensures appliedJunk == AnyApplied(mailboxes)
    {
      hide ForRecipient, Blamed;
      mailboxes, wouldJunk, appliedJunk := map[], false, false;
      assert !AnyWould(mailboxes) && !AnyApplied(mailboxes);
      hide AnyWould, AnyApplied;
      var todo := locals.Keys;
      while todo != {}
        invariant todo <= locals.Keys && mailboxes.Keys == locals.Keys - todo
        invariant forall id :: id in mailboxes ==>
          mailboxes[id] == Settled(locals[id], ForRecipient(shared, configs[id], locals[id].junk, reject))
        invariant wouldJunk == AnyWould(mailboxes)
        invariant appliedJunk == AnyApplied(mailboxes)
        decreases todo
      {
        var id :| id in todo;
        todo := todo - {id};
        var local := locals[id];
        var result := ForRecipient(shared, configs[id], local.junk, reject);
        var one := new Assessment(0.0, local.reasons, local.junk, reject);
        one.ApplyRecipientTypeSafe(result);
        local := local.(typesafe := Some(result), junk := one.junk, reasons := one.reasons);
        AnyNext(mailboxes, id, local);
        mailboxes := mailboxes[id := local];
        wouldJunk := wouldJunk || result.wouldJunk;
        appliedJunk := appliedJunk || result.appliedJunk;
      }
    }

    // One evaluation, on a copy of the assessment, for all mailboxes and the message.
    method Share(locals: map<string, MailboxAssessment>, configs: map<string, Settings>, allJunk: bool,
        settings: Settings, a: Assessment)
      requires locals.Keys == configs.Keys && a.mailboxes == locals
      modifies this, a
      ensures
        Final(a.mailboxes, a.typesafe, a.junk, a.reasons, calls - old(calls), |observed| - |old(observed)|)
        == Shared(Message(a.score, old(a.reasons), false, old(a.junk), a.reject), settings, oracle, locals, configs,
            allJunk, old(a.typesafe))
      ensures Enabled(settings) ==>
        observed == old(observed) + [Evaluated(oracle, settings, allJunk, a.reject).(
            wouldJunk := AnyWould(a.mailboxes), appliedJunk := AnyApplied(a.mailboxes))]
    {
      assert Asks(oracle, settings, allJunk, a.reject) ==> Enabled(settings);
      hide Evaluated, ForRecipient, Settled, Blamed, Asks, Enabled;
      var probe := new Assessment(a.score, a.reasons, allJunk, a.reject);
      ApplyTypeSafe(settings, probe, false);
      if probe.typesafe.Some? {
        var shared := probe.typesafe.value;
        a.ApplyRecipientTypeSafe(ForRecipient(shared, settings, a.junk, a.reject));
        var mailboxes, wouldJunk, appliedJunk := Settle(locals, configs, shared, a.reject);
        a.mailboxes := mailboxes;
        observed := observed + [shared.(wouldJunk := wouldJunk, appliedJunk := appliedJunk)];
      }
    }

    /** Every mailbox gets the policy's assessment. The evaluator is asked at most
        once, and only if the message is not rejected and some mailbox (or, without
        mailboxes, the message) is not junk already. */
    method ApplyMailboxPolicy(recipients: seq<seq<Mailbox>>, settings: Settings, forcedJunk: bool, a: Assessment)
      modifies this, a
      ensures
        var m := Message(a.score, old(a.reasons), forcedJunk, old(a.junk), a.reject);
        Final(a.mailboxes, a.typesafe, a.junk, a.reasons, calls - old(calls), |observed| - |old(observed)|)
        == Outcome(m, settings, oracle, Flatten(recipients), old(a.typesafe))
      ensures settings.mode in {"shadow", "junk"} ==>
        && |observed| == |old(observed)| + 1 && observed[..|old(observed)|] == old(observed)
        && var last := observed[|old(observed)|];
        && last.wouldJunk == (if a.mailboxes == map[] then a.typesafe == Some(last) && last.wouldJunk
                              else exists id :: id in a.mailboxes && a.mailboxes[id].typesafe.Some?
                                                && a.mailboxes[id].typesafe.value.wouldJunk)
        && last.appliedJunk == (if a.mailboxes == map[] then a.typesafe == Some(last) && last.appliedJunk
                                else exists id :: id in a.mailboxes && a.mailboxes[id].typesafe.Some?
                                                  && a.mailboxes[id].typesafe.value.appliedJunk)
    {
      hide Outcome, Flatten, Opened, Evaluated, Shared, Blamed, Asks, Policy, Readings;
      var m := Message(a.score, a.reasons, forcedJunk, a.junk, a.reject);
      var locals, configs, allJunk := Open(recipients, settings, m);
      OutcomeOpened(m, settings, oracle, Flatten(recipients), a.typesafe);
      a.mailboxes := locals;
      if locals == map[] {
        ApplyTypeSafe(settings, a, true);
      } else {
        Share(locals, configs, allJunk, settings, a);
      }
    }
  }
}

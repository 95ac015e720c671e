/** The bounded walk over a MIME tree: an explicit stack, and what it stands for. */
module MimeTree {
  import opened Common

  const MAX_PARTS: nat := 256
  const MAX_DEPTH: nat := 8

  datatype Disposition = Inline | Attached

  // A leaf part; `warned` when its character set is unknown.
  datatype Part = Part(disposition: Disposition, filename: string, contentType: string, body: string, warned: bool)

  // A multipart entity whose reader fails after some children is broken there.
  datatype Entity = Leaf(part: Part) | Multi(children: seq<Entity>, broken: bool)

  // An open multipart reader: what it has not returned yet.
  datatype Level = Level(rest: seq<Entity>, broken: bool, depth: nat)

  datatype Ending = Finished | TooManyParts | TooDeep | Malformed

  function Leaves(es: seq<Entity>): seq<Part>
    decreases es
  {
    if es == [] then []
    else (match es[0] case Leaf(part) => [part] case Multi(children, _) => Leaves(children)) + Leaves(es[1..])
  }

  function Count(es: seq<Entity>): nat
    decreases es
  {
    if es == [] then 0
    else 1 + (match es[0] case Leaf(_) => 0 case Multi(children, _) => Count(children)) + Count(es[1..])
  }

  // Every multipart reads to its end and none lies deeper than eight levels.
  predicate Sound(es: seq<Entity>, broken: bool, depth: nat)
    decreases es, 1
  {
    !broken && SoundEach(es, depth)
  }

  predicate SoundEach(es: seq<Entity>, depth: nat)
    decreases es, 0
  {
    es != [] ==>
      && (es[0].Multi? ==> depth + 1 <= 8 && Sound(es[0].children, es[0].broken, depth + 1))
      && SoundEach(es[1..], depth)
  }

  // The stack read from its top, which is its last element.
  function Pending(levels: seq<Level>): seq<Part> {
    if levels == [] then [] else Leaves(levels[|levels| - 1].rest) + Pending(levels[..|levels| - 1])
  }

  function PendingCount(levels: seq<Level>): nat {
    if levels == [] then 0 else Count(levels[|levels| - 1].rest) + PendingCount(levels[..|levels| - 1])
  }

  predicate PendingSound(levels: seq<Level>) {
    levels != [] ==>
      var top := levels[|levels| - 1];
      Sound(top.rest, top.broken, top.depth) && PendingSound(levels[..|levels| - 1])
  }

  function Top(levels: seq<Level>): Level
    requires levels != []
  {
    levels[|levels| - 1]
  }

  function Pop(levels: seq<Level>): seq<Level>
    requires levels != []
  {
    levels[..|levels| - 1]
  }

  // The stack once its top has returned its next entity, opened if it is multipart.
  function Taken(levels: seq<Level>): seq<Level>
    requires levels != [] && Top(levels).rest != []
  {
    var top := Top(levels);
    var below := Pop(levels) + [top.(rest := top.rest[1..])];
    match top.rest[0]
    case Leaf(_) => below
    case Multi(children, broken) => below + [Level(children, broken, top.depth + 1)]
  }

  lemma Push(levels: seq<Level>, top: Level)
    ensures Pending(levels + [top]) == Leaves(top.rest) + Pending(levels)
    ensures PendingCount(levels + [top]) == Count(top.rest) + PendingCount(levels)
    ensures PendingSound(levels + [top]) <==> Sound(top.rest, top.broken, top.depth) && PendingSound(levels)
  {
    hide Leaves, Count, Sound;
    assert (levels + [top])[..|levels|] == levels;
  }

  // Taking one entity accounts for it, whether it is opened or yielded.
  lemma Opened(levels: seq<Level>)
    requires levels != [] && Top(levels).rest != []
    ensures Taken(levels) != [] && PendingCount(levels) == 1 + PendingCount(Taken(levels))
    ensures Pending(levels) ==
      (if Top(levels).rest[0].Leaf? then [Top(levels).rest[0].part] else []) + Pending(Taken(levels))
    ensures PendingSound(levels) <==>
      PendingSound(Taken(levels)) && (Top(levels).rest[0].Multi? ==> Top(levels).depth + 1 <= MAX_DEPTH)
  {
    hide Pending, PendingCount, PendingSound;
    var top := Top(levels);
    var left := top.(rest := top.rest[1..]);
    assert levels == Pop(levels) + [top];
    Push(Pop(levels), top);
    Push(Pop(levels), left);
    if top.rest[0].Multi? {
      Push(Pop(levels) + [left], Level(top.rest[0].children, top.rest[0].broken, top.depth + 1));
    }
  }

  // All that repeated reading yields, and how it ends.
  datatype Outcome = Outcome(parts: seq<Part>, ending: Ending)

  function Walk(levels: seq<Level>, visited: nat): Outcome
    decreases PendingCount(levels), |levels|
  {
    if levels == [] then Outcome([], Finished)
    else if visited >= MAX_PARTS then Outcome([], TooManyParts)
    else
      var top := Top(levels);
      if top.rest == [] then
        if top.broken then Outcome([], Malformed) else Walk(Pop(levels), visited)
      else
        Opened(levels);
        match top.rest[0]
        case Multi(_, _) => if top.depth + 1 > MAX_DEPTH then Outcome([], TooDeep) else Walk(Taken(levels), visited + 1)
        case Leaf(part) =>
          var after := Walk(Taken(levels), visited + 1);
          after.(parts := [part] + after.parts)
  }

  lemma PendingNone()
    ensures Pending([]) == [] && PendingCount([]) == 0 && PendingSound([])
  {
  }

  lemma PushEmpty(levels: seq<Level>, top: Level)
    requires top.rest == []
    ensures Pending(levels + [top]) == Pending(levels) && PendingCount(levels + [top]) == PendingCount(levels)
    ensures PendingSound(levels + [top]) <==> !top.broken && PendingSound(levels)
  {
    Push(levels, top);
  }

  /** The walk yields the depth-first leaves in order: all of them, if fewer than
      MAX_PARTS entities are left to visit and every reader and depth is sound, and
      otherwise a prefix and then an error. */
  lemma {:induction false} WalkExactly(levels: seq<Level>, visited: nat)
    ensures Walk(levels, visited).parts <= Pending(levels)
    ensures Walk(levels, visited).ending.Finished? <==>
      levels == [] || (visited + PendingCount(levels) < MAX_PARTS && PendingSound(levels))
    ensures Walk(levels, visited).ending.Finished? ==> Walk(levels, visited).parts == Pending(levels)
    decreases PendingCount(levels), |levels|
  {
    hide Taken, Leaves, Count, Sound, PendingSound, Pending, PendingCount;
    if levels == [] {
      PendingNone();
    } else if visited < MAX_PARTS {
      var top := Top(levels);
      if top.rest == [] {
        assert levels == Pop(levels) + [top];
        PushEmpty(Pop(levels), top);
        if !top.broken {
          PendingNone();
          WalkExactly(Pop(levels), visited);
        }
      } else {
        Opened(levels);
        if top.rest[0].Leaf? || top.depth + 1 <= MAX_DEPTH {
          WalkExactly(Taken(levels), visited + 1);
        }
      }
    }
  }

  // A message whose root is no multipart is read as a multipart of that one part.
  function Start(root: Entity): seq<Level> {
    match root
    case Leaf(part) => [Level([Leaf(part.(warned := false))], false, 0)]
    case Multi(children, broken) => [Level(children, broken, 0)]
  }

  function Below(root: Entity): seq<Entity> {
    Start(root)[0].rest
  }

  /** A whole message, from its root. */
  lemma WalkMessage(root: Entity)
    ensures Walk(Start(root), 0).parts <= Leaves(Below(root))
    ensures Walk(Start(root), 0).ending.Finished? <==>
      Count(Below(root)) < 256 && Sound(Below(root), root.Multi? && root.broken, 0)
    ensures Walk(Start(root), 0).ending.Finished? ==> Walk(Start(root), 0).parts == Leaves(Below(root))
  {
    var levels := Start(root);
    PendingNone();
    hide Walk, Leaves, Count, Sound, Pending, PendingCount, PendingSound;
    WalkExactly(levels, 0);
    assert levels == [] + [levels[0]];
    Push([], levels[0]);
  }
}

/** The reader itself, and the two loops over it. */
module MimeWalk {
  import opened Common
  import opened MimeTree

  const MAX_ATTACHMENTS: nat := 64
  const EXTRACT_LIMIT: nat := 8192

  datatype Reply = Next(part: Part) | Stop(ending: Ending)

  class BoundedReader {
    var levels: seq<Level>
    var visited: nat

    // Depths count up from the root, so there are never more than nine levels.
    ghost predicate Valid()
      reads this
    {
      && |levels| <= MAX_DEPTH + 1
      && forall i :: 0 <= i < |levels| ==> levels[i].depth == i
    }

    ghost function Ahead(): Outcome
      reads this
    {
      Walk(levels, visited)
    }

    constructor (root: Entity)
      ensures Valid() && Ahead() == Walk(Start(root), 0)
    {
      match root {
        case Leaf(part) => levels := [Level([Leaf(part.(warned := false))], false, 0)];
        case Multi(children, broken) => levels := [Level(children, broken, 0)];
      }
      visited := 0;
    }

    // The next leaf of the walk; or, when there is none, how it ends.
    method NextPart() returns (r: Reply)
      requires Valid()
      modifies this
      ensures Valid()
      ensures r.Next? ==> old(Ahead()) == Outcome([r.part] + Ahead().parts, Ahead().ending)
      ensures r.Stop? ==> old(Ahead()) == Outcome([], r.ending)
    {
      hide Leaves, Count, Sound, PendingSound, Pending, PendingCount;
      while |levels| > 0
        invariant Valid() && Ahead() == old(Ahead())
        decreases PendingCount(levels), |levels|
      {
        var level := levels[|levels| - 1];
        if visited >= MAX_PARTS {
          return Stop(TooManyParts);
        }
        if level.rest == [] {
          if level.broken {
            return Stop(Malformed);
          }
          assert levels == levels[..|levels| - 1] + [level];
          PushEmpty(levels[..|levels| - 1], level);
          levels := levels[..|levels| - 1];
          continue;
        }
        Opened(levels);
        ghost var taken := Taken(levels);
        var p := level.rest[0];
        visited := visited + 1;
        if p.Multi? && level.depth + 1 > MAX_DEPTH {
          return Stop(TooDeep);
        }
        levels := levels[..|levels| - 1] + [level.(rest := level.rest[1..])];
        if p.Multi? {
          levels := levels + [Level(p.children, p.broken, level.depth + 1)];
          assert levels == taken;
          continue;
        }
        assert levels == taken;
        return Next(p.part);
      }
      return Stop(Finished);
    }
  }

  datatype Record = Record(partIndex: nat, filename: string, contentType: string, size: nat)

  datatype Metadata = Metadata(attachments: seq<Record>, text: string, html: string)

  // The callers stop at the first part that comes with a warning.
  function Read(parts: seq<Part>): seq<Part> {
    if parts == [] || parts[0].warned then [] else [parts[0]] + Read(parts[1..])
  }

  function Recorded(parts: seq<Part>, k: nat): Record
    requires k < |parts|
  {
    Record(k + 1, parts[k].filename, parts[k].contentType, |parts[k].body|)
  }

  // The first 64 attachments among the parts.
  function Records(parts: seq<Part>): (r: seq<Record>)
    ensures |r| <= MAX_ATTACHMENTS
  {
    if parts == [] then []
    else
      var n := |parts| - 1;
      var before := Records(parts[..n]);
      if parts[n].disposition.Attached? && |before| < MAX_ATTACHMENTS then before + [Recorded(parts, n)] else before
  }

  function Extract(body: string): string {
    if |body| <= EXTRACT_LIMIT then body else body[..EXTRACT_LIMIT]
  }

  // The extract of the first inline part of a type that is not empty.
  function FirstText(parts: seq<Part>, contentType: string): string {
    if parts == [] then ""
    else
      var n := |parts| - 1;
      var before := FirstText(parts[..n], contentType);
      if before == "" && parts[n].disposition.Inline? && parts[n].contentType == contentType then Extract(parts[n].body)
      else before
  }

  function Described(parts: seq<Part>): Metadata {
    Metadata(Records(parts), FirstText(parts, "text/plain"), FirstText(parts, "text/html"))
  }

  // A part whose body may serve as the extract of this type.
  ghost predicate Shows(part: Part, contentType: string) {
    part.disposition == Inline && part.contentType == contentType && part.body != ""
  }

  // The text is up to 8192 octets of the first such part, and empty if there is none.
  ghost predicate IsFirstText(text: string, parts: seq<Part>, contentType: string) {
    || (text == "" && forall k :: 0 <= k < |parts| ==> !Shows(parts[k], contentType))
    || exists k :: 0 <= k < |parts| && Shows(parts[k], contentType)
         && (forall j :: 0 <= j < k ==> !Shows(parts[j], contentType))
         && text == if |parts[k].body| <= 8192 then parts[k].body else parts[k].body[..8192]
  }

  /** The text extract is of the first inline part of its type that is not empty. */
  lemma {:induction false} FirstTextIs(parts: seq<Part>, contentType: string)
    ensures IsFirstText(FirstText(parts, contentType), parts, contentType)
  {
    if parts != [] {
      var n := |parts| - 1;
      var before := parts[..n];
      FirstTextIs(before, contentType);
      if k :| 0 <= k < n && Shows(before[k], contentType) {
        var first :| 0 <= first < n && Shows(before[first], contentType)
          && (forall j :: 0 <= j < first ==> !Shows(before[j], contentType))
          && FirstText(before, contentType) ==
               if |before[first].body| <= 8192 then before[first].body else before[first].body[..8192];
        assert parts[first] == before[first] && forall j :: 0 <= j < first ==> parts[j] == before[j];
      } else {
        assert forall j :: 0 <= j < n ==> parts[j] == before[j];
      }
    }
  }

  /** What the callers read is all up to the first part with a warning. */
  lemma {:induction false} ReadIs(parts: seq<Part>)
    ensures Read(parts) <= parts && forall k :: 0 <= k < |Read(parts)| ==> !parts[k].warned
    ensures |Read(parts)| < |parts| ==> parts[|Read(parts)|].warned
  {
    if parts != [] && !parts[0].warned {
      ReadIs(parts[1..]);
    }
  }

  // A walk split into the parts read so far and what is still ahead.
  ghost predicate Split(whole: Outcome, seen: seq<Part>, ahead: Outcome) {
    && whole == Outcome(seen + ahead.parts, ahead.ending)
    && Read(whole.parts) == seen + Read(ahead.parts)
  }

  lemma SplitStart(whole: Outcome)
    ensures Split(whole, [], whole)
  {
  }

  lemma SplitNext(whole: Outcome, seen: seq<Part>, part: Part, ahead: Outcome)
    requires Split(whole, seen, Outcome([part] + ahead.parts, ahead.ending))
    ensures part.warned ==> Read(whole.parts) == seen && seen != whole.parts
    ensures !part.warned ==>
      && Split(whole, seen + [part], ahead)
      && |seen| < |Read(whole.parts)| && Read(whole.parts)[|seen|] == part
  {
    assert ([part] + ahead.parts)[1..] == ahead.parts;
    if part.warned {
      assert seen + [] == seen;
    } else {
      assert seen + ([part] + ahead.parts) == seen + [part] + ahead.parts;
      assert seen + ([part] + Read(ahead.parts)) == seen + [part] + Read(ahead.parts);
    }
  }

  lemma SplitStop(whole: Outcome, seen: seq<Part>, ending: Ending)
    requires Split(whole, seen, Outcome([], ending))
    ensures whole == Outcome(seen, ending) && Read(whole.parts) == seen
  {
    assert seen + [] == seen;
  }

  lemma DescribedNext(parts: seq<Part>, part: Part)
    ensures
      var (d, body) := (Described(parts), Extract(part.body));
      Described(parts + [part]) ==
        if part.disposition.Attached? then
          if |d.attachments| < MAX_ATTACHMENTS
          then d.(attachments := d.attachments + [Record(|parts| + 1, part.filename, part.contentType, |part.body|)])
          else d
        else if part.contentType == "text/plain" && d.text == "" then d.(text := body)
        else if part.contentType == "text/html" && d.html == "" then d.(html := body)
        else d
  {
    assert (parts + [part])[..|parts|] == parts;
  }

  method Parse(root: Entity) returns (metadata: Metadata)
    ensures metadata == Described(Read(Walk(Start(root), 0).parts))
    ensures IsFirstText(metadata.text, Read(Walk(Start(root), 0).parts), "text/plain")
    ensures IsFirstText(metadata.html, Read(Walk(Start(root), 0).parts), "text/html")
  {
    FirstTextIs(Read(Walk(Start(root), 0).parts), "text/plain");
    FirstTextIs(Read(Walk(Start(root), 0).parts), "text/html");
    var reader := new BoundedReader(root);
    ghost var whole := reader.Ahead();
    ghost var seen: seq<Part> := [];
    metadata := Metadata([], "", "");
    assert metadata == Described(seen);
    var partIndex := 0;
    SplitStart(whole);
    hide Described, Read, Walk, Start, Split, Extract;
    while true
      invariant reader.Valid() && fresh(reader)
      invariant Split(whole, seen, reader.Ahead())
      invariant metadata == Described(seen) && partIndex == |seen|
      decreases |reader.Ahead().parts|
    {
      var reply := reader.NextPart();
      if reply.Stop? {
        SplitStop(whole, seen, reply.ending);
        break;
      }
      SplitNext(whole, seen, reply.part, reader.Ahead());
      if reply.part.warned {
        break;
      }
      var part := reply.part;
      DescribedNext(seen, part);
      seen := seen + [part];
      partIndex := partIndex + 1;
      if part.disposition.Attached? {
        if |metadata.attachments| < MAX_ATTACHMENTS {
          metadata := metadata.(attachments := metadata.attachments
            + [Record(partIndex, part.filename, part.contentType, |part.body|)]);
        }
        continue;
      }
      var body := Extract(part.body);
      if part.contentType == "text/plain" && metadata.text == "" {
        metadata := metadata.(text := body);
      }
      if part.contentType == "text/html" && metadata.html == "" {
        metadata := metadata.(html := body);
      }
    }
  }

  datatype Found = Found(part: Part) | NotAttachment | NotFound | Unreadable

  // The attachment that a part index selects in a walk.
  function Selected(walk: Outcome, partIndex: int): Found {
    var read := Read(walk.parts);
    if 1 <= partIndex <= |read| then
      if read[partIndex - 1].disposition.Attached? then Found(read[partIndex - 1]) else NotAttachment
    else if read == walk.parts && walk.ending.Finished? then NotFound
    else Unreadable
  }

  method ExtractAttachment(root: Entity, partIndex: int) returns (r: Found)
    ensures r == Selected(Walk(Start(root), 0), partIndex)
    ensures
      var walk := Walk(Start(root), 0);
      var read := Read(walk.parts);
      && (1 <= partIndex <= |read| && read[partIndex - 1].disposition == Attached <==>
            r.Found? && 1 <= partIndex <= |read| && r.part == read[partIndex - 1])
      && (r == NotAttachment <==> 1 <= partIndex <= |read| && read[partIndex - 1].disposition == Inline)
      && (r == NotFound <==> !(1 <= partIndex <= |read|) && read == walk.parts && walk.ending == Finished)
      && (r == Unreadable <==> !(1 <= partIndex <= |read|) && !(read == walk.parts && walk.ending == Finished))
  {
    var reader := new BoundedReader(root);
    ghost var whole := reader.Ahead();
    ghost var seen: seq<Part> := [];
    var current := 0;
    SplitStart(whole);
    hide Read, Walk, Start, Split;
    while true
      invariant reader.Valid() && fresh(reader)
      invariant Split(whole, seen, reader.Ahead())
      invariant current == |seen| && !(1 <= partIndex <= current)
      decreases |reader.Ahead().parts|
    {
      var reply := reader.NextPart();
      if reply.Stop? {
        SplitStop(whole, seen, reply.ending);
        return if reply.ending.Finished? then NotFound else Unreadable;
      }
      SplitNext(whole, seen, reply.part, reader.Ahead());
      if reply.part.warned {
        return Unreadable;
      }
      seen := seen + [reply.part];
      current := current + 1;
      if current != partIndex {
        continue;
      }
      return if reply.part.disposition.Inline? then NotAttachment else Found(reply.part);
    }
  }

  // Records name parts by position, in order, and leave out only what exceeds 64.
  lemma {:induction false} RecordsName(parts: seq<Part>, j: nat)
    requires j < |Records(parts)|
    ensures
      var k := Records(parts)[j].partIndex - 1;
      0 <= k < |parts| && parts[k].disposition.Attached? && Records(parts)[j] == Recorded(parts, k)
    decreases |parts|
  {
    if j < |Records(parts[..|parts| - 1])| {
      RecordsName(parts[..|parts| - 1], j);
    }
  }

  lemma {:induction false} AttachmentsRecorded(parts: seq<Part>, k: nat)
    requires k < |parts| && parts[k].disposition.Attached? && |Records(parts)| < MAX_ATTACHMENTS
    ensures Recorded(parts, k) in Records(parts)
    decreases |parts|
  {
    var n := |parts| - 1;
    if k < n {
      AttachmentsRecorded(parts[..n], k);
    }
  }

  /** Every part index that Parse records selects, in ExtractAttachment, the very
      part that was recorded; and, unless 64 are recorded, every attachment that can
      be selected has its record. */
  lemma PartIndexSelects(walk: Outcome, partIndex: nat)
    ensures forall record :: record in Described(Read(walk.parts)).attachments && record.partIndex == partIndex ==>
      var r := Selected(walk, partIndex);
      r.Found? && record == Record(partIndex, r.part.filename, r.part.contentType, |r.part.body|)
    ensures Selected(walk, partIndex).Found? && |Described(Read(walk.parts)).attachments| < 64 ==>
      exists record :: record in Described(Read(walk.parts)).attachments && record.partIndex == partIndex
  {
    var read := Read(walk.parts);
    forall record | record in Records(read) && record.partIndex == partIndex
      ensures 1 <= partIndex <= |read| && read[partIndex - 1].disposition.Attached?
          && record == Recorded(read, partIndex - 1)
    {
      var j :| 0 <= j < |Records(read)| && Records(read)[j] == record;
      RecordsName(read, j);
    }
    if Selected(walk, partIndex).Found? && |Records(read)| < MAX_ATTACHMENTS {
      AttachmentsRecorded(read, partIndex - 1);
    }
  }

  /** A message within the limits, with no unknown character set, is read whole. */
  lemma WholeMessageRead(root: Entity)
    requires Count(Below(root)) < MAX_PARTS && Sound(Below(root), root.Multi? && root.broken, 0)
    requires forall part :: part in Leaves(Below(root)) ==> !part.warned
    ensures Read(Walk(Start(root), 0).parts) == Leaves(Below(root))
  {
    WalkMessage(root);
    ReadAll(Leaves(Below(root)));
  }

  lemma {:induction false} ReadAll(parts: seq<Part>)
    requires forall part :: part in parts ==> !part.warned
    ensures Read(parts) == parts
  {
    if parts != [] {
      ReadAll(parts[1..]);
    }
  }
}

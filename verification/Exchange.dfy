/** One store's side of an exchange: a closure received from another store is
    merged into the copy held, the head follows only when the sender expected
    the one held or insists, and a handover takes the record mark. */
module Exchange {
  import opened Entries
  import opened Tree
  import opened CallRules

  datatype Mark = Record | Mirror

  /** A session as one store holds it, which is also what an exchange carries:
      the shared prefix, then the entries of its own in the order logged. */
  datatype Copy = Copy(header: Header, prefix: seq<Entry>, own: seq<Entry>, head: Id, mark: Mark) {
    function All(): seq<Entry> {
      prefix + own
    }
  }

  datatype Options = Options(push: bool, expected: Id, force: bool, handover: bool)

  datatype Moved = Moved(created: bool, admitted: nat, head: Id, moved: bool, forced: bool)

  datatype Refusal = NotRecord | HeaderDiffers | BadBase | CallIdMeets | SpawnIdMeets | HeadMoved | HeadTarget

  /** Landed: the entries were committed and the handover was refused. */
  datatype Answer = Done(x: Moved) | Landed(x: Moved) | Refused(why: Refusal)

  // ----- merging the log -----

  /** Where an entry outside the prefix may hang: below the base or another such
      entry, or, without a base, anywhere the root included. */
  predicate HangsFrom(base: Id, held: set<Id>, parent: Id) {
    (parent == ROOT && base == ROOT) || (parent != ROOT && (parent == base || parent in held))
  }

  ghost predicate Ordered(base: Id, own: seq<Entry>) {
    forall i | 0 <= i < |own| :: HangsFrom(base, Ids(own[..i]), own[i].parent)
  }

  /** The sent entries a receiver lacks, in the sender's order. */
  ghost function Lacking(held: set<Id>, base: Id, sent: seq<Entry>): Option<seq<Entry>> {
    if sent == [] then Some([])
    else
      var e := sent[|sent| - 1];
      match Lacking(held, base, sent[..|sent| - 1])
      case None => None
      case Some(landing) =>
        if e.id in held + Ids(landing) then Some(landing)
        else if HangsFrom(base, held + Ids(landing), e.parent) then Some(landing + [e])
        else None
  }

  method Lack(held: set<Id>, base: Id, sent: seq<Entry>) returns (landing: Option<seq<Entry>>)
    ensures landing == Lacking(held, base, sent)
  {
    var has, es := held, [];
    for i := 0 to |sent|
      invariant Lacking(held, base, sent[..i]) == Some(es) && has == held + Ids(es)
    {
      var e := sent[i];
      assert sent[..i + 1] == sent[..i] + [e];
      LackingSnoc(held, base, sent[..i], e);
      if e.id in has {
        continue;
      }
      if !HangsFrom(base, has, e.parent) {
        LackingStops(held, base, sent, i + 1);
        return None;
      }
      IdsSnoc(es, e);
      has, es := has + {e.id}, es + [e];
    }
    assert sent[..|sent|] == sent;
    return Some(es);
  }

  lemma LackingSnoc(held: set<Id>, base: Id, sent: seq<Entry>, e: Entry)
    ensures Lacking(held, base, sent + [e])
         == match Lacking(held, base, sent)
            case None => None
            case Some(landing) =>
              if e.id in held + Ids(landing) then Some(landing)
              else if HangsFrom(base, held + Ids(landing), e.parent) then Some(landing + [e])
              else None
  {
    assert (sent + [e])[..|sent|] == sent;
  }

  lemma {:induction false} LackingStops(held: set<Id>, base: Id, sent: seq<Entry>, n: nat)
    requires n <= |sent| && Lacking(held, base, sent[..n]) == None
    ensures Lacking(held, base, sent) == None
  {
    if n < |sent| {
      assert sent[..|sent| - 1][..n] == sent[..n];
      LackingStops(held, base, sent[..|sent| - 1], n);
    } else {
      assert sent[..n] == sent;
    }
  }

  // ----- call ids and spawn ids -----

  function CallOf(e: Entry): string {
    if IsCall(e) then e.body.item.callId else ""
  }

  function SpawnOf(e: Entry): string {
    if IsSpawn(e) then e.body.link.spawnId else ""
  }

  function CallsHere(held: seq<Entry>, sent: set<Id>): set<string> {
    set e | e in held && e.id !in sent :: CallOf(e)
  }

  function SpawnsHere(held: seq<Entry>, sent: set<Id>): set<string> {
    set e | e in held && e.id !in sent :: SpawnOf(e)
  }

  /** The first entry landing whose call id or spawn id an entry held, and not
      sent, already has. */
  ghost function Meeting(calls: set<string>, spawns: set<string>, landing: seq<Entry>): Option<Refusal> {
    if landing == [] then None
    else if CallOf(landing[0]) != "" && CallOf(landing[0]) in calls then Some(CallIdMeets)
    else if SpawnOf(landing[0]) != "" && SpawnOf(landing[0]) in spawns then Some(SpawnIdMeets)
    else Meeting(calls, spawns, landing[1..])
  }

  method CallIdsMeet(held: seq<Entry>, sent: set<Id>, landing: seq<Entry>) returns (met: Option<Refusal>)
    ensures met == Meeting(CallsHere(held, sent), SpawnsHere(held, sent), landing)
  {
    var calls: set<string>, spawns: set<string> := {}, {};
    for i := 0 to |held|
      invariant forall c :: c in calls <==> c != "" && c in CallsHere(held[..i], sent)
      invariant forall c :: c in spawns <==> c != "" && c in SpawnsHere(held[..i], sent)
    {
      var e := held[i];
      assert held[..i + 1] == held[..i] + [e];
      if e.id in sent {
        continue;
      }
      if CallOf(e) != "" {
        calls := calls + {CallOf(e)};
      }
      if SpawnOf(e) != "" {
        spawns := spawns + {SpawnOf(e)};
      }
    }
    assert held[..|held|] == held;
    for i := 0 to |landing|
      invariant Meeting(CallsHere(held, sent), SpawnsHere(held, sent), landing)
             == Meeting(CallsHere(held, sent), SpawnsHere(held, sent), landing[i..])
    {
      assert landing[i..][1..] == landing[i + 1..];
      if CallOf(landing[i]) != "" && CallOf(landing[i]) in calls {
        return Some(CallIdMeets);
      }
      if SpawnOf(landing[i]) != "" && SpawnOf(landing[i]) in spawns {
        return Some(SpawnIdMeets);
      }
    }
    return None;
  }

  // ----- descent -----

  ghost predicate Walk(all: map<Id, Entry>, ids: seq<Id>, anc: Id) {
    && ids != [] && ids[|ids| - 1] == anc && anc != ROOT
    && forall i | 0 <= i < |ids| - 1 :: ids[i] != ROOT && ids[i] in all && all[ids[i]].parent == ids[i + 1]
  }

  /** Some walk up the parents leads from id to anc. */
  ghost predicate Reaches(all: map<Id, Entry>, id: Id, anc: Id) {
    exists ids :: Walk(all, ids, anc) && ids[0] == id
  }

  /** Entry ids are hashes over the parent's, so parents rank lower. */
  ghost predicate Ranked(all: map<Id, Entry>, rank: Id -> nat) {
    forall id | id in all :: rank(all[id].parent) < rank(id)
  }

  lemma ReachesStep(all: map<Id, Entry>, id: Id, anc: Id)
    ensures id != ROOT && id == anc ==> Reaches(all, id, anc)
    ensures id == ROOT ==> !Reaches(all, id, anc)
    ensures id != ROOT && id != anc ==> (Reaches(all, id, anc) <==> id in all && Reaches(all, all[id].parent, anc))
  {
    if id != ROOT && id == anc {
      assert Walk(all, [id], anc);
    }
    if id != ROOT && id != anc {
      if Reaches(all, id, anc) {
        var ids :| Walk(all, ids, anc) && ids[0] == id;
        assert ids[0] in all;
        assert Walk(all, ids[1..], anc) && ids[1..][0] == all[id].parent;
      }
      if id in all && Reaches(all, all[id].parent, anc) {
        var ids :| Walk(all, ids, anc) && ids[0] == all[id].parent;
        assert Walk(all, [id] + ids, anc) && ([id] + ids)[0] == id;
      }
    }
  }

  method Descend(all: map<Id, Entry>, head: Id, anc: Id, ghost rank: Id -> nat) returns (d: bool)
    requires Ranked(all, rank)
    ensures d <==> Reaches(all, head, anc)
  {
    var id := head;
    while id != ROOT
      invariant Reaches(all, head, anc) <==> Reaches(all, id, anc)
      decreases rank(id)
    {
      ReachesStep(all, id, anc);
      if id == anc {
        return true;
      }
      if id !in all {
        return false;
      }
      id := all[id].parent;
    }
    ReachesStep(all, id, anc);
    return false;
  }

  // ----- receiving -----

  /** Where the head of a held copy goes: moved by compare-and-swap or by
      force for a push, and forward for a fetch into a mirror. */
  ghost function NextHead(h: Copy, b: Copy, o: Options): (Id, bool, bool) {
    if b.head == h.head then (h.head, false, false)
    else if o.push then
      if o.expected == h.head || o.force then (b.head, true, o.expected != h.head) else (h.head, false, false)
    else if h.mark == Record then (h.head, false, false)
    else if h.head == "" || Reaches(Index(b.All()), b.head, h.head) then (b.head, true, false)
    else (h.head, false, false)
  }

  /** A session the receiver lacks starts at its base. */
  function FirstHead(b: Copy, o: Options): (Id, bool, bool) {
    var first := b.header.base;
    if b.head == first then (first, false, false)
    else if !o.push || o.expected == first then (b.head, true, false)
    else if o.force then (b.head, true, true)
    else (first, false, false)
  }

  ghost function Received(held: Option<Copy>, b: Copy, o: Options): (Option<Copy>, Answer) {
    if o.push && b.mark != Record then (held, Refused(NotRecord))
    else match held
      case None => Created(b, o)
      case Some(h) => Merged(h, b, o)
  }

  ghost function Created(b: Copy, o: Options): (Option<Copy>, Answer) {
    var (head, moved, forced) := FirstHead(b, o);
    if o.handover && b.head != head then (None, Refused(HeadMoved))
    else
      (Some(b.(head := head, mark := if o.handover then Record else Mirror)),
       Done(Moved(true, |b.own|, head, moved, forced)))
  }

  ghost function Merged(h: Copy, b: Copy, o: Options): (Option<Copy>, Answer) {
    if h.header != b.header then (Some(h), Refused(HeaderDiffers))
    else
      match Lacking(Ids(h.own), b.header.base, b.own)
      case None => (Some(h), Refused(BadBase))
      case Some(landing) =>
        var sent := Ids(b.All());
        match Meeting(CallsHere(h.All(), sent), SpawnsHere(h.All(), sent), landing)
        case Some(why) => (Some(h), Refused(why))
        case None =>
          var (head, moved, forced) := NextHead(h, b, o);
          var all := Index(b.All());
          var x := Moved(false, |landing|, head, moved, forced);
          if moved && head in all && IsLeafLabel(all[head]) then (Some(h), Refused(HeadTarget))
          else if o.handover && head != b.head then (Some(h.(own := h.own + landing)), Landed(x))
          else (Some(h.(own := h.own + landing, head := head, mark := if o.handover then Record else h.mark)), Done(x))
  }

  /** One session at one store. */
  class Store {
    var copy: Option<Copy>

    constructor ()
      ensures copy == None
    {
      copy := None;
    }

    /** Admits a closure, whole or not at all. */
    method Receive(b: Copy, o: Options, ghost rank: Id -> nat) returns (a: Answer)
      requires Ranked(Index(b.All()), rank)
      modifies this
      ensures (copy, a) == Received(old(copy), b, o)
    {
      if o.push && b.mark != Record {
        return Refused(NotRecord);
      }
      if copy == None {
        a := Create(b, o);
      } else {
        a := Merge(b, o, rank);
      }
    }

    method Create(b: Copy, o: Options) returns (a: Answer)
      requires copy == None
      modifies this
      ensures (copy, a) == Created(b, o)
    {
      var first := b.header.base;
      var head, moved, forced := first, false, false;
      if b.head == first {
      } else if !o.push || o.expected == first {
        head, moved := b.head, true;
      } else if o.force {
        head, moved, forced := b.head, true, true;
      }
      var mark := Mirror;
      if o.handover {
        if b.head != head {
          return Refused(HeadMoved);
        }
        mark := Record;
      }
      copy := Some(b.(head := head, mark := mark));
      return Done(Moved(true, |b.own|, head, moved, forced));
    }

    method Merge(b: Copy, o: Options, ghost rank: Id -> nat) returns (a: Answer)
      requires copy.Some? && Ranked(Index(b.All()), rank)
      modifies this
      ensures (copy, a) == Merged(old(copy.value), b, o)
    {
      hide Reaches, Meeting, Lacking;
      var h := copy.value;
      if h.header != b.header {
        return Refused(HeaderDiffers);
      }
      var all, sent := ById(b.All());
      var holds, heldIds := ById(h.own);
      var landing := Lack(heldIds, b.header.base, b.own);
      if landing == None {
        return Refused(BadBase);
      }
      var met := CallIdsMeet(h.All(), sent, landing.value);
      if met.Some? {
        return Refused(met.value);
      }
      var x := Moved(false, |landing.value|, h.head, false, false);
      var head := h.head;
      if b.head == h.head {
      } else if o.push && (o.expected == h.head || o.force) {
        head, x := b.head, x.(moved := true, forced := o.expected != h.head);
      } else if o.push {
      } else if h.mark == Record {
      } else {
        var forward := h.head == "";
        if !forward {
          forward := Descend(all, b.head, h.head, rank);
        }
        if forward {
          head, x := b.head, x.(moved := true);
        }
      }
      var handover, failed := o.handover, false;
      if handover && head != b.head {
        handover, failed := false, true;
      }
      if x.moved && head in all && IsLeafLabel(all[head]) {
        return Refused(HeadTarget);
      }
      h := h.(own := h.own + landing.value);
      if x.moved {
        h, x := h.(head := head), x.(head := head);
      }
      if handover {
        h := h.(mark := Record);
      }
      copy := Some(h);
      return if failed then Landed(x) else Done(x);
    }
  }

  method ById(es: seq<Entry>) returns (all: map<Id, Entry>, ids: set<Id>)
    ensures all == Index(es) && ids == Ids(es)
  {
    all := map[];
    for i := 0 to |es|
      invariant all == Index(es[..i])
    {
      assert es[..i + 1] == es[..i] + [es[i]];
      IndexSnoc(es[..i], es[i]);
      all := all[es[i].id := es[i]];
    }
    assert es[..|es|] == es;
    IndexKeys(es);
    ids := all.Keys;
  }

  // ----- an accepted exchange is a union -----

  ghost function Held(es: seq<Entry>): set<Entry> {
    set e | e in es
  }

  /** Ids are hashes: entries of one id are one entry. */
  ghost predicate Agree(a: seq<Entry>, b: seq<Entry>) {
    forall x, y | x in a && y in b && x.id == y.id :: x == y
  }

  /** No two calls have one call id, no two spawns one spawn id. */
  ghost predicate IdsUnique(es: seq<Entry>) {
    && (forall x, y | x in es && y in es && CallOf(x) != "" && CallOf(x) == CallOf(y) :: x == y)
    && (forall x, y | x in es && y in es && SpawnOf(x) != "" && SpawnOf(x) == SpawnOf(y) :: x == y)
  }

  lemma HasId(es: seq<Entry>, e: Entry)
    requires e in es
    ensures e.id in Ids(es)
  {
    var k :| 0 <= k < |es| && es[k] == e;
  }

  /** What lands: every entry sent and not held, each from the closure. */
  lemma {:induction false} LackingIs(own: seq<Entry>, base: Id, sent: seq<Entry>)
    requires Lacking(Ids(own), base, sent).Some?
    ensures var landing := Lacking(Ids(own), base, sent).value;
            && (forall e | e in landing :: e in sent && e.id !in Ids(own))
            && (forall e | e in sent :: e.id in Ids(own) + Ids(landing))
            && (Ordered(base, own) ==> Ordered(base, own + landing))
  {
    if sent == [] {
      assert own + [] == own;
    } else {
      hide HangsFrom;
      var n := |sent| - 1;
      LackingIs(own, base, sent[..n]);
      var before := Lacking(Ids(own), base, sent[..n]).value;
      var e := sent[n];
      IdsSnoc(before, e);
      if e.id !in Ids(own) + Ids(before) {
        IdsConcat(own, before);
        if Ordered(base, own) {
          OrderedSnoc(base, own + before, e);
          assert (own + before) + [e] == own + (before + [e]);
        }
      }
    }
  }

  lemma IdsConcat(a: seq<Entry>, b: seq<Entry>)
    ensures Ids(a + b) == Ids(a) + Ids(b)
  {
    var all := a + b;
    assert forall i | 0 <= i < |a| :: all[i] == a[i];
    assert forall i | 0 <= i < |b| :: all[|a| + i] == b[i];
    forall id | id in Ids(a) + Ids(b) ensures id in Ids(all) {
      if id in Ids(a) {
        var i :| 0 <= i < |a| && a[i].id == id;
        assert all[i].id == id;
      } else {
        var i :| 0 <= i < |b| && b[i].id == id;
        assert all[|a| + i].id == id;
      }
    }
  }

  lemma OrderedSnoc(base: Id, own: seq<Entry>, e: Entry)
    requires Ordered(base, own) && HangsFrom(base, Ids(own), e.parent)
    ensures Ordered(base, own + [e])
  {
    var all := own + [e];
    forall i | 0 <= i < |all| ensures HangsFrom(base, Ids(all[..i]), all[i].parent) {
      assert all[..i] == own[..i];
      if i == |own| {
        assert own[..i] == own;
      }
    }
  }

  lemma {:induction false} MeetingNone(calls: set<string>, spawns: set<string>, landing: seq<Entry>)
    requires Meeting(calls, spawns, landing) == None
    ensures forall e | e in landing :: (CallOf(e) != "" ==> CallOf(e) !in calls) && (SpawnOf(e) != "" ==> SpawnOf(e) !in spawns)
  {
    if landing != [] {
      MeetingNone(calls, spawns, landing[1..]);
      assert forall e | e in landing :: e == landing[0] || e in landing[1..];
    }
  }

  /** A refused exchange changes nothing; an accepted one leaves the union of
      the two logs, each entry after its parent. */
  lemma MergeIsUnion(h: Copy, b: Copy, o: Options)
    requires Agree(h.own, b.own) && Agree(b.own, b.own)
    ensures var (c, a) := Received(Some(h), b, o);
            && c.Some?
            && (a.Refused? ==> c.value == h)
            && (!a.Refused? ==>
                  && c.value.header == h.header && c.value.prefix == h.prefix
                  && h.own <= c.value.own
                  && Held(c.value.own) == Held(h.own) + Held(b.own)
                  && (Ordered(h.header.base, h.own) ==> Ordered(h.header.base, c.value.own)))
  {
    hide Reaches, Ordered, Meeting;
    var (c, a) := Received(Some(h), b, o);
    if !a.Refused? {
      LackingIs(h.own, b.header.base, b.own);
      var landing := Lacking(Ids(h.own), b.header.base, b.own).value;
      assert c.value.own == h.own + landing;
      forall e | e in b.own ensures e in h.own + landing {
        if e.id in Ids(h.own) {
          var k :| 0 <= k < |h.own| && h.own[k].id == e.id;
          assert h.own[k] in h.own;
        } else {
          var k :| 0 <= k < |landing| && landing[k].id == e.id;
          assert landing[k] in landing;
        }
      }
    }
  }

  /** A landing entry's ids are its own among those held. */
  lemma LandsApart(held: seq<Entry>, sent: seq<Entry>, landing: seq<Entry>, x: Entry, y: Entry)
    requires Agree(held, sent) && IdsUnique(sent) && x in held && y in landing && y in sent
    requires Meeting(CallsHere(held, Ids(sent)), SpawnsHere(held, Ids(sent)), landing) == None
    ensures CallOf(x) != "" && CallOf(x) == CallOf(y) ==> x == y
    ensures SpawnOf(x) != "" && SpawnOf(x) == SpawnOf(y) ==> x == y
  {
    hide Meeting, CallOf, SpawnOf;
    MeetingNone(CallsHere(held, Ids(sent)), SpawnsHere(held, Ids(sent)), landing);
    if x.id in Ids(sent) {
      var k :| 0 <= k < |sent| && sent[k].id == x.id;
      assert sent[k] in sent;
    } else {
      assert CallOf(x) in CallsHere(held, Ids(sent));
      assert SpawnOf(x) in SpawnsHere(held, Ids(sent));
    }
  }

  /** Ids unique on each side are unique in the union: the meeting check finds
      the calls neither side could see of the other. */
  lemma MergeKeepsUnique(h: Copy, b: Copy, o: Options)
    requires Agree(h.All(), b.All()) && IdsUnique(h.All()) && IdsUnique(b.All())
    ensures IdsUnique(Received(Some(h), b, o).0.value.All())
  {
    hide Reaches, Meeting, Lacking, IdsUnique, Agree;
    var (c, a) := Received(Some(h), b, o);
    if !a.Refused? {
      LackingIs(h.own, b.header.base, b.own);
      var landing := Lacking(Ids(h.own), b.header.base, b.own).value;
      LandingUnique(h.All(), b.All(), landing);
      assert c.value.All() == h.All() + landing;
    }
  }

  lemma LandingUnique(held: seq<Entry>, sent: seq<Entry>, landing: seq<Entry>)
    requires Agree(held, sent) && IdsUnique(held) && IdsUnique(sent) && forall y | y in landing :: y in sent
    requires Meeting(CallsHere(held, Ids(sent)), SpawnsHere(held, Ids(sent)), landing) == None
    ensures IdsUnique(held + landing)
  {
    hide Meeting, CallOf, SpawnOf, Agree, CallsHere, SpawnsHere;
    forall x, y | x in held && y in landing
      ensures CallOf(x) != "" && CallOf(x) == CallOf(y) ==> x == y
      ensures SpawnOf(x) != "" && SpawnOf(x) == SpawnOf(y) ==> x == y
    {
      LandsApart(held, sent, landing, x, y);
    }
  }

  /** Two trees over one prefix merge into one tree in file order. */
  lemma MergeKeepsTree(h: Copy, b: Copy, o: Options)
    requires h.header == b.header && h.prefix == b.prefix
    requires Wf(h.header.id, h.All()) && Wf(h.header.id, b.All())
    ensures Wf(h.header.id, Received(Some(h), b, o).0.value.All())
  {
    hide Reaches, Meeting, Wf, Lacking;
    var (c, a) := Received(Some(h), b, o);
    if !a.Refused? {
      LackingWf(h.header.id, h.prefix, h.own, b.header.base, b.own);
      var landing := Lacking(Ids(h.own), b.header.base, b.own).value;
      assert c.value.All() == h.prefix + h.own + landing;
    }
  }

  lemma {:induction false} LackingWf(session: string, prefix: seq<Entry>, own: seq<Entry>, base: Id, sent: seq<Entry>)
    requires Wf(session, prefix + own) && Wf(session, prefix + sent)
    requires Lacking(Ids(own), base, sent).Some?
    ensures Wf(session, prefix + own + Lacking(Ids(own), base, sent).value)
  {
    hide RefsOk, HangsFrom, Wf, Fits, Ids;
    if sent == [] {
      assert prefix + own + [] == prefix + own;
    } else {
      var n := |sent| - 1;
      var (rest, e) := (sent[..n], sent[n]);
      assert prefix + sent == (prefix + rest) + [e];
      FitsLast(session, prefix + rest, e);
      LackingWf(session, prefix, own, base, rest);
      var before := Lacking(Ids(own), base, rest).value;
      if e.id !in Ids(own) + Ids(before) {
        LackingHolds(prefix, own, base, rest);
        NotInPrefix(session, prefix, rest, e);
        IdsConcat(prefix + own, before);
        IdsConcat(prefix, own);
        FitsWider(session, prefix + rest, prefix + own + before, e);
        WfSnoc(session, prefix + own + before, e);
        assert prefix + own + before + [e] == prefix + own + (before + [e]);
      }
    }
  }

  lemma FitsLast(session: string, es: seq<Entry>, e: Entry)
    requires Wf(session, es + [e])
    ensures Wf(session, es) && Fits(session, es, e)
  {
    hide RefsOk;
    var all := es + [e];
    WfPrefix(session, all, |es|);
    assert all[..|es|] == es && all[|es|] == e;
    assert Fits(session, all[..|es|], all[|es|]);
  }

  lemma NotInPrefix(session: string, prefix: seq<Entry>, rest: seq<Entry>, e: Entry)
    requires Fits(session, prefix + rest, e)
    ensures e.id !in Ids(prefix)
  {
    IdsConcat(prefix, rest);
  }

  /** What landed so far and what was held are all that was sent so far. */
  lemma LackingHolds(prefix: seq<Entry>, own: seq<Entry>, base: Id, sent: seq<Entry>)
    requires Lacking(Ids(own), base, sent).Some?
    ensures Ids(prefix + sent) <= Ids(prefix + own + Lacking(Ids(own), base, sent).value)
  {
    hide Lacking;
    var landing := Lacking(Ids(own), base, sent).value;
    LackingIs(own, base, sent);
    IdsConcat(prefix, sent);
    IdsConcat(prefix + own, landing);
    IdsConcat(prefix, own);
    forall id | id in Ids(sent) ensures id in Ids(own) + Ids(landing) {
      var k :| 0 <= k < |sent| && sent[k].id == id;
      assert sent[k] in sent;
    }
  }

  lemma FitsWider(session: string, es: seq<Entry>, more: seq<Entry>, e: Entry)
    requires Fits(session, es, e) && Ids(es) <= Ids(more) && e.id !in Ids(more)
    ensures Fits(session, more, e)
  {
    hide RefsOk, Ids;
    RefsWiden(e.parent, session, e.parents, Ids(es), Ids(more));
  }

  lemma RefsWiden(parent: Id, session: string, refs: seq<Ref>, ids: set<Id>, more: set<Id>)
    requires RefsOk(parent, session, refs, ids) && ids <= more
    ensures RefsOk(parent, session, refs, more)
  {}

  lemma {:induction false} NothingLacking(held: set<Id>, base: Id, sent: seq<Entry>)
    requires forall e | e in sent :: e.id in held
    ensures Lacking(held, base, sent) == Some([])
  {
    if sent != [] {
      NothingLacking(held, base, sent[..|sent| - 1]);
    }
  }

  /** Repeating an accepted exchange changes nothing at all. */
  lemma ReceiveTwice(held: Option<Copy>, b: Copy, o: Options)
    requires !Received(held, b, o).1.Refused?
    ensures Received(Received(held, b, o).0, b, o).0 == Received(held, b, o).0
  {
    hide Reaches, Lacking;
    var c := Received(held, b, o).0.value;
    forall e | e in b.own ensures e.id in Ids(c.own) {
      HasId(b.own, e);
      if held.Some? {
        LackingIs(held.value.own, b.header.base, b.own);
        IdsConcat(held.value.own, Lacking(Ids(held.value.own), b.header.base, b.own).value);
      }
    }
    NothingLacking(Ids(c.own), b.header.base, b.own);
    assert c.own + [] == c.own;
  }

  // ----- any order -----

  datatype Message = Message(closure: Copy, options: Options)

  ghost function After(held: Option<Copy>, ms: seq<Message>): Option<Copy> {
    if ms == [] then held
    else Received(After(held, ms[..|ms| - 1]), ms[|ms| - 1].closure, ms[|ms| - 1].options).0
  }

  /** The own entries of the closures a run accepts. */
  ghost function Took(held: Option<Copy>, ms: seq<Message>): set<Entry> {
    if ms == [] then {}
    else
      var m := ms[|ms| - 1];
      Took(held, ms[..|ms| - 1])
      + if Received(After(held, ms[..|ms| - 1]), m.closure, m.options).1.Refused? then {} else Held(m.closure.own)
  }

  ghost function Log(held: Option<Copy>): set<Entry> {
    match held case None => {} case Some(c) => Held(c.own)
  }

  ghost predicate AllAgree(held: Option<Copy>, ms: seq<Message>) {
    forall x, y | x in Everything(held, ms) && y in Everything(held, ms) && x.id == y.id :: x == y
  }

  ghost function Everything(held: Option<Copy>, ms: seq<Message>): set<Entry> {
    if ms == [] then Log(held) else Everything(held, ms[..|ms| - 1]) + Held(ms[|ms| - 1].closure.own)
  }

  /** A run of exchanges, refused ones and repeats among them, leaves the
      union of what it held and what it accepted. */
  lemma {:induction false} RunIsUnion(held: Option<Copy>, ms: seq<Message>)
    requires AllAgree(held, ms)
    ensures Log(After(held, ms)) == Log(held) + Took(held, ms) <= Everything(held, ms)
  {
    if ms != [] {
      var (rest, m) := (ms[..|ms| - 1], ms[|ms| - 1]);
      RunIsUnion(held, rest);
      hide Received;
      var before := After(held, rest);
      if before.Some? {
        assert forall e | e in before.value.own :: e in Log(before) && e in Everything(held, ms);
        assert forall e | e in m.closure.own :: e in Held(m.closure.own) && e in Everything(held, ms);
        hide Received, Everything;
        MergeIsUnion(before.value, m.closure, m.options);
      }
    }
  }

  /** Runs that accept the same entries hold the same entries, in whatever
      order and however often they came. */
  lemma AnyOrder(held: Option<Copy>, ms: seq<Message>, ns: seq<Message>)
    requires AllAgree(held, ms) && AllAgree(held, ns) && Took(held, ms) == Took(held, ns)
    ensures Log(After(held, ms)) == Log(After(held, ns))
  {
    RunIsUnion(held, ms);
    RunIsUnion(held, ns);
  }

  // ----- when every order is accepted -----

  /** One entry an id, and one call and one spawn an id of theirs. */
  ghost predicate Apart(u: set<Entry>) {
    forall x, y | x in u && y in u ::
      && (x.id == y.id ==> x == y)
      && (CallOf(x) != "" && CallOf(x) == CallOf(y) ==> x == y)
      && (SpawnOf(x) != "" && SpawnOf(x) == SpawnOf(y) ==> x == y)
  }

  /** A copy of the session over prefix, its entries in order and all of u. */
  ghost predicate CopyIn(h: Header, prefix: seq<Entry>, u: set<Entry>, c: Copy) {
    c.header == h && c.prefix == prefix && Ordered(h.base, c.own) && Held(c.All()) <= u
  }

  /** A message no store refuses for its mark or its head: a push comes from
      the record, and no head is a leaf label. */
  ghost predicate Sendable(m: Message) {
    var (b, all) := (m.closure, Index(m.closure.All()));
    (m.options.push ==> b.mark == Record) && !(b.head in all && IsLeafLabel(all[b.head]))
  }

  lemma {:induction false} LackingSome(held: set<Id>, base: Id, sent: seq<Entry>)
    requires Ordered(base, sent)
    ensures Lacking(held, base, sent).Some? && Ids(sent) <= held + Ids(Lacking(held, base, sent).value)
  {
    if sent != [] {
      hide HangsFrom;
      var (n, e) := (|sent| - 1, sent[|sent| - 1]);
      assert forall i | 0 <= i < n :: sent[..n][..i] == sent[..i] && sent[..n][i] == sent[i];
      LackingSome(held, base, sent[..n]);
      var before := Lacking(held, base, sent[..n]).value;
      IdsSplit(sent);
      IdsSnoc(before, e);
      assert HangsFrom(base, Ids(sent[..n]), sent[n].parent);
      HangsWider(base, Ids(sent[..n]), held + Ids(before), e.parent);
    }
  }

  lemma HangsWider(base: Id, held: set<Id>, more: set<Id>, parent: Id)
    requires HangsFrom(base, held, parent) && held <= more
    ensures HangsFrom(base, more, parent)
  {}

  lemma {:induction false} MeetsNone(calls: set<string>, spawns: set<string>, landing: seq<Entry>)
    requires forall e | e in landing :: (CallOf(e) != "" ==> CallOf(e) !in calls) && (SpawnOf(e) != "" ==> SpawnOf(e) !in spawns)
    ensures Meeting(calls, spawns, landing) == None
  {
    if landing != [] {
      assert landing[0] in landing;
      assert forall e | e in landing[1..] :: e in landing;
      MeetsNone(calls, spawns, landing[1..]);
    }
  }

  lemma ApartNoMeeting(held: seq<Entry>, sent: seq<Entry>, landing: seq<Entry>, u: set<Entry>)
    requires Apart(u) && Held(held) <= u && Held(sent) <= u && forall e | e in landing :: e in sent
    ensures Meeting(CallsHere(held, Ids(sent)), SpawnsHere(held, Ids(sent)), landing) == None
  {
    hide CallOf, SpawnOf, Meeting;
    forall e | e in landing
      ensures (CallOf(e) != "" ==> CallOf(e) !in CallsHere(held, Ids(sent))) && (SpawnOf(e) != "" ==> SpawnOf(e) !in SpawnsHere(held, Ids(sent)))
    {
      HasId(sent, e);
      assert e in Held(sent);
      forall x | x in held && x.id !in Ids(sent) ensures CallOf(e) != "" ==> CallOf(x) != CallOf(e)
        ensures SpawnOf(e) != "" ==> SpawnOf(x) != SpawnOf(e)
      {
        assert x in Held(held);
      }
    }
    MeetsNone(CallsHere(held, Ids(sent)), SpawnsHere(held, Ids(sent)), landing);
  }

  /** A merge is refused for its mark or its head, or not at all, when the
      entries of both sides have their ids apart; and it lands everything. */
  lemma MergeLands(h: Header, prefix: seq<Entry>, u: set<Entry>, c: Copy, m: Message)
    requires Apart(u) && CopyIn(h, prefix, u, c) && CopyIn(h, prefix, u, m.closure) && Sendable(m)
    ensures var (d, a) := Received(Some(c), m.closure, m.options);
            !a.Refused? && d.Some? && CopyIn(h, prefix, u, d.value) && Held(d.value.own) == Held(c.own) + Held(m.closure.own)
  {
    hide Reaches, Meeting, Ordered, Lacking, Apart, Agree;
    var b := m.closure;
    LackingSome(Ids(c.own), h.base, b.own);
    LackingIs(c.own, h.base, b.own);
    var landing := Lacking(Ids(c.own), h.base, b.own).value;
    forall e | e in landing ensures e in b.All() {}
    ApartNoMeeting(c.All(), b.All(), landing, u);
    HeldAll(c);
    HeldAll(b);
    ApartAgree(u, c.own, b.own);
    ApartAgree(u, b.own, b.own);
    MergeIsUnion(c, b, m.options);
    var d := Received(Some(c), b, m.options).0.value;
    HeldAll(d);
  }

  lemma ApartAgree(u: set<Entry>, a: seq<Entry>, b: seq<Entry>)
    requires Apart(u) && Held(a) <= u && Held(b) <= u
    ensures Agree(a, b)
  {
    hide CallOf, SpawnOf;
    forall x, y | x in a && y in b && x.id == y.id ensures x == y {
      assert x in Held(a) && y in Held(b);
    }
  }

  lemma HeldAll(c: Copy)
    ensures Held(c.All()) == Held(c.prefix) + Held(c.own)
  {}

  /** The own entries of the messages. */
  ghost function Sent(ms: seq<Message>): set<Entry> {
    if ms == [] then {} else Sent(ms[..|ms| - 1]) + Held(ms[|ms| - 1].closure.own)
  }

  /** Copies and messages of one session that any order suits. A handover to a
      store without the session may be refused for its head. */
  ghost predicate Peaceful(h: Header, prefix: seq<Entry>, u: set<Entry>, held: Option<Copy>, ms: seq<Message>) {
    && Apart(u)
    && (held.Some? ==> CopyIn(h, prefix, u, held.value))
    && forall m | m in ms :: CopyIn(h, prefix, u, m.closure) && Sendable(m) && (held.None? ==> !m.options.handover)
  }

  lemma PeacefulPrefix(h: Header, prefix: seq<Entry>, u: set<Entry>, held: Option<Copy>, ms: seq<Message>, n: nat)
    requires Peaceful(h, prefix, u, held, ms) && n <= |ms|
    ensures Peaceful(h, prefix, u, held, ms[..n]) && Apart(u)
    ensures n < |ms| ==> CopyIn(h, prefix, u, ms[n].closure) && Sendable(ms[n]) && (held.None? ==> !ms[n].options.handover)
  {
    hide Apart, CopyIn, Sendable;
    assert forall m | m in ms[..n] :: m in ms;
    assert n < |ms| ==> ms[n] in ms;
  }

  /** All that was sent is held in the end. */
  lemma {:induction false} AllLand(h: Header, prefix: seq<Entry>, u: set<Entry>, held: Option<Copy>, ms: seq<Message>)
    requires Peaceful(h, prefix, u, held, ms)
    ensures var now := After(held, ms);
            Log(now) == Log(held) + Sent(ms) && (held.Some? ==> now.Some?) && (now.Some? ==> CopyIn(h, prefix, u, now.value))
  {
    hide Received, CopyIn, Apart, Sendable;
    if ms != [] {
      var (n, m) := (|ms| - 1, ms[|ms| - 1]);
      PeacefulPrefix(h, prefix, u, held, ms, n);
      AllLand(h, prefix, u, held, ms[..n]);
      OneLands(h, prefix, u, After(held, ms[..n]), m);
    }
  }

  /** One more, whether the session is held by then or not. */
  lemma OneLands(h: Header, prefix: seq<Entry>, u: set<Entry>, before: Option<Copy>, m: Message)
    requires Apart(u) && (before.Some? ==> CopyIn(h, prefix, u, before.value))
    requires CopyIn(h, prefix, u, m.closure) && Sendable(m) && (before.None? ==> !m.options.handover)
    ensures var (d, a) := Received(before, m.closure, m.options);
            !a.Refused? && d.Some? && CopyIn(h, prefix, u, d.value) && Log(d) == Log(before) + Held(m.closure.own)
  {
    hide Received, CopyIn, Apart, Sendable;
    if before.Some? {
      MergeLands(h, prefix, u, before.value, m);
    } else {
      CreateLands(h, prefix, u, m);
    }
  }

  /** Because none is refused. */
  lemma NoneRefused(h: Header, prefix: seq<Entry>, u: set<Entry>, held: Option<Copy>, ms: seq<Message>, i: nat)
    requires Peaceful(h, prefix, u, held, ms) && i < |ms|
    ensures !Received(After(held, ms[..i]), ms[i].closure, ms[i].options).1.Refused?
  {
    hide Received, CopyIn, Apart, Sendable, After, Peaceful;
    PeacefulPrefix(h, prefix, u, held, ms, i);
    AllLand(h, prefix, u, held, ms[..i]);
    OneLands(h, prefix, u, After(held, ms[..i]), ms[i]);
  }

  lemma CreateLands(h: Header, prefix: seq<Entry>, u: set<Entry>, m: Message)
    requires CopyIn(h, prefix, u, m.closure) && Sendable(m) && !m.options.handover
    ensures var (d, a) := Received(None, m.closure, m.options);
            !a.Refused? && d.Some? && CopyIn(h, prefix, u, d.value) && d.value.own == m.closure.own
  {}

  lemma {:induction false} SentIs(ms: seq<Message>)
    ensures forall e :: e in Sent(ms) <==> exists m :: m in ms && e in m.closure.own
  {
    if ms != [] {
      var (n, m) := (|ms| - 1, ms[|ms| - 1]);
      SentIs(ms[..n]);
      assert ms == ms[..n] + [m];
      forall e ensures e in Sent(ms) <==> exists x :: x in ms && e in x.closure.own {
        if e in Held(m.closure.own) {
          assert m in ms;
        }
      }
    }
  }

  /** So however they are ordered, the same entries are held in the end. */
  lemma AnyOrderLands(h: Header, prefix: seq<Entry>, u: set<Entry>, held: Option<Copy>, ms: seq<Message>, ns: seq<Message>)
    requires Peaceful(h, prefix, u, held, ms) && multiset(ms) == multiset(ns)
    ensures Log(After(held, ms)) == Log(After(held, ns)) == Log(held) + Sent(ms)
    ensures forall i | 0 <= i < |ns| :: !Received(After(held, ns[..i]), ns[i].closure, ns[i].options).1.Refused?
  {
    hide Received, After, CopyIn, Apart, Sendable, Sent;
    forall m ensures m in ms <==> m in ns {
      assert m in multiset(ms) <==> m in ms;
      assert m in multiset(ns) <==> m in ns;
    }
    AllLand(h, prefix, u, held, ms);
    AllLand(h, prefix, u, held, ns);
    forall i | 0 <= i < |ns| ensures !Received(After(held, ns[..i]), ns[i].closure, ns[i].options).1.Refused? {
      NoneRefused(h, prefix, u, held, ns, i);
    }
    SentIs(ms);
    SentIs(ns);
    assert Sent(ms) == Sent(ns);
  }

  // ----- marks and heads -----

  /** Every entry of a closure received is in the copy it leaves, the same. */
  lemma ReachesGrows(all: map<Id, Entry>, more: map<Id, Entry>, id: Id, anc: Id)
    requires Reaches(all, id, anc) && forall k | k in all :: k in more && more[k] == all[k]
    ensures Reaches(more, id, anc)
  {
    var ids :| Walk(all, ids, anc) && ids[0] == id;
    assert Walk(more, ids, anc);
  }

  lemma ReachesOn(all: map<Id, Entry>, a: Id, b: Id, c: Id)
    requires Reaches(all, a, b) && Reaches(all, b, c)
    ensures Reaches(all, a, c)
  {
    var ids :| Walk(all, ids, b) && ids[0] == a;
    var more :| Walk(all, more, c) && more[0] == b;
    var whole := ids[..|ids| - 1] + more;
    forall i | 0 <= i < |whole| - 1 ensures whole[i] != ROOT && whole[i] in all && all[whole[i]].parent == whole[i + 1] {
      if i < |ids| - 1 {
        assert whole[i] == ids[i];
        assert whole[i + 1] == ids[i + 1];
      }
    }
    assert Walk(all, whole, c);
  }

  /** A fetch never moves a record's head, and a mirror's only forward; a push
      moves a head only from the value it expected or by force; and the mark
      changes only where a handover leaves the receiver at the sent head. */
  lemma HeadsMoveRight(h: Copy, b: Copy, o: Options)
    ensures var (c, a) := Received(Some(h), b, o);
            && c.Some?
            && c.value.head in {h.head, b.head}
            && (c.value.head != h.head ==>
                  if o.push then b.mark == Record && (o.expected == h.head || o.force)
                  else h.mark == Mirror && (h.head == "" || Reaches(Index(b.All()), b.head, h.head)))
            && (c.value.mark != h.mark ==> o.handover && c.value.mark == Record)
            && (o.handover && a.Done? ==> c.value.mark == Record && c.value.head == b.head)
            && (!a.Done? ==> c.value.head == h.head && c.value.mark == h.mark)
  {}

  /** A push that is not refused takes exactly when it expected the head held,
      or insists; a fetch exactly when the head held is no other, none, or
      below the one sent, and never at the record. */
  lemma HeadsMoveExactly(h: Copy, b: Copy, o: Options)
    requires !Received(Some(h), b, o).1.Refused?
    ensures var c := Received(Some(h), b, o).0;
            && c.Some?
            && (o.push ==> (c.value.head == b.head <==> b.head == h.head || o.expected == h.head || o.force))
            && (!o.push && h.mark == Mirror ==>
                  (c.value.head == b.head <==> b.head == h.head || h.head == "" || Reaches(Index(b.All()), b.head, h.head)))
            && (!o.push && h.mark == Record ==> c.value.head == h.head)
  {
    hide Reaches, Lacking, Meeting, Index;
  }

  /** A handover that is not refused is taken exactly when its head is: the
      receiver is the record then, and otherwise what it was. */
  lemma HandoverExactly(h: Copy, b: Copy, o: Options)
    requires o.push && o.handover && !Received(Some(h), b, o).1.Refused?
    ensures var (c, a) := Received(Some(h), b, o);
            && c.Some?
            && (a.Done? <==> b.head == h.head || o.expected == h.head || o.force)
            && c.value.mark == (if a.Done? then Record else h.mark)
  {
    hide Reaches, Lacking, Meeting, Index;
  }

  /** So one that expects the head held, of entries whose ids are apart and no
      label for a head, is always taken. */
  lemma HandoverTaken(h: Header, prefix: seq<Entry>, u: set<Entry>, c: Copy, m: Message)
    requires Apart(u) && CopyIn(h, prefix, u, c) && CopyIn(h, prefix, u, m.closure) && Sendable(m)
    requires m.options.push && m.options.handover && m.options.expected == c.head
    ensures var (d, a) := Received(Some(c), m.closure, m.options);
            a.Done? && d.Some? && d.value.mark == Record && d.value.head == m.closure.head && Held(d.value.own) == Held(c.own) + Held(m.closure.own)
  {
    hide Received, Apart, CopyIn, Sendable;
    MergeLands(h, prefix, u, c, m);
    HandoverExactly(c, m.closure, m.options);
    HeadsMoveExactly(c, m.closure, m.options);
  }

  /** Where a session the receiver lacks begins, and when a handover of it is
      refused. */
  lemma CreatedExactly(b: Copy, o: Options)
    requires o.push ==> b.mark == Record
    ensures var (c, a) := Received(None, b, o);
            var taken := b.head == b.header.base || !o.push || o.expected == b.header.base || o.force;
            && (a.Done? <==> taken || !o.handover)
            && (a.Done? ==> c.Some? && (c.value.head == b.head <==> taken) && (!taken ==> c.value.head == b.header.base))
  {}

  /** A session the receiver lacks is created whole or not at all: at the sent
      head or at its base, the latter only for a push that did not expect that,
      and as the record just for a handover, whose head took. */
  lemma CreatedRight(b: Copy, o: Options)
    ensures var (c, a) := Received(None, b, o);
            && (a.Refused? <==> c.None?) && !a.Landed?
            && (c.Some? ==>
                  && c.value.header == b.header && c.value.All() == b.All()
                  && c.value.head in {b.head, b.header.base}
                  && (c.value.head != b.head ==> o.push && o.expected != b.header.base && !o.force)
                  && (c.value.mark == Record <==> o.handover) && (o.handover ==> c.value.head == b.head))
  {}
}

/** A session as it grows by appends over any branching: every path of it
    passes the record checks. */
module Growth {
  import opened Entries
  import opened Tree
  import opened Calls
  import opened CallRules
  import opened CallSafety
  import opened Leaf

  /** The id of an entry: a hash over parent, convergences, time and body. */
  type Hash = (Id, seq<Ref>, int, Body) -> Id

  ghost predicate HashOk(hash: Hash) {
    forall p, rs, ts, b :: ValidId(hash(p, rs, ts, b))
  }

  /** An entry before it is appended. want is the id the caller set, or "". */
  datatype Draft = Draft(want: Id, parent: Id, parents: seq<Ref>, ts: int, body: Body)

  datatype AppendError = NoEntry | BaseRule | BadConvergence | BadId | CallRule(error: CallError)

  datatype State = State(prefix: set<Id>, entries: seq<Entry>, leaf: Id)

  const NEW := State({}, [], ROOT)

  /** An entry left incomplete hangs from the leaf. */
  function ParentOf(leaf: Id, d: Draft): Id {
    if d.parent == ROOT && d.want == "" then leaf else d.parent
  }

  ghost predicate OwnParentOk(base: Id, prefix: set<Id>, parent: Id) {
    base != ROOT ==> parent != ROOT && (parent == base || parent !in prefix)
  }

  // ----- links -----

  predicate IsCallee(rel: Rel) {
    rel.Subsession? || rel.Peer?
  }

  /** e is the callee link a cancel notice l is about. */
  predicate Notices(e: Entry, l: Link) {
    && e.id == l.target && e.body.LinkBody? && IsCallee(e.body.link.rel) && !e.body.link.cancel
    && e.body.link.callId == l.callId && e.body.link.spawnId == l.spawnId && e.body.link.rel == l.rel
  }

  ghost predicate NoticeOk(path: seq<Entry>, l: Link) {
    exists i :: 0 <= i < |path| && Notices(path[i], l)
  }

  /** The rules on links, checked when an entry is written and never on reading. */
  ghost function NewRule(es: seq<Entry>, leaf: Id, d: Draft): Option<CallError> {
    if !d.body.LinkBody? then None
    else
      var l := d.body.link;
      if l.rel.ContinuedIn? then
        if SupersededBy(es) != "" && SupersededBy(es) != l.session then Some(Superseded) else None
      else if !IsCallee(l.rel) then None
      else if l.rel.Peer? && !l.cancel && (l.callId == "" || (l.url == "" && l.session == "")) then Some(CalleeLink)
      else if l.rel.Subsession? && (l.callId == "") == (l.spawnId == "") then Some(SpawnLink)
      else if !l.cancel then None
      else if NoticeOk(PathTo(es, if d.parent == ROOT then leaf else d.parent), l) then None
      else Some(CalleeLink)
  }

  // ----- one append -----

  /** The entry a draft becomes, whether the session holds it already, or why
      it is refused. */
  ghost function Prepared(h: Header, hash: Hash, st: State, d: Draft): Result<(Entry, bool), AppendError> {
    var es := st.entries;
    var parent := ParentOf(st.leaf, d);
    if parent != ROOT && parent !in Ids(es) then Err(NoEntry)
    else if !OwnParentOk(h.base, st.prefix, parent) then Err(BaseRule)
    else if !RefsOk(parent, h.id, d.parents, Ids(es)) then Err(BadConvergence)
    else
      var id := hash(parent, d.parents, d.ts, d.body);
      var e := Entry(id, parent, d.parents, d.body);
      if d.want != "" && d.want != id then Err(BadId)
      else if id in Ids(es) then Ok((e, true))
      else
        var broken := CheckCallRules(h, st.prefix, es, e, PathTo(es, parent));
        if broken.Some? then Err(CallRule(broken.value)) else Ok((e, false))
  }

  /** Append is the writer's rules and then the entry's. */
  ghost function Checked(h: Header, hash: Hash, st: State, d: Draft): Result<(Entry, bool), AppendError> {
    var broken := NewRule(st.entries, st.leaf, d);
    if broken.Some? then Err(CallRule(broken.value)) else Prepared(h, hash, st, d)
  }

  ghost function Added(h: Header, st: State, e: Entry): State {
    var es := st.entries + [e];
    State(st.prefix, es, MovedLeaf(h.base, st.prefix, es, st.leaf, e))
  }

  ghost function Appended(h: Header, hash: Hash, st: State, d: Draft): State {
    match Checked(h, hash, st, d)
    case Ok((e, false)) => Added(h, st, e)
    case _ => st
  }

  datatype Op = AppendOp(d: Draft) | BranchOp(id: Id) | ResetOp

  ghost function Next(h: Header, hash: Hash, st: State, op: Op): State {
    match op
    case AppendOp(d) => Appended(h, hash, st, d)
    case BranchOp(id) => if id in Ids(st.entries) then st.(leaf := id) else st
    case ResetOp => st.(leaf := ROOT)
  }

  ghost function RunFrom(h: Header, hash: Hash, st: State, ops: seq<Op>): State {
    if ops == [] then st else Next(h, hash, RunFrom(h, hash, st, ops[..|ops| - 1]), ops[|ops| - 1])
  }

  ghost function Run(h: Header, hash: Hash, ops: seq<Op>): State {
    RunFrom(h, hash, NEW, ops)
  }

  // ----- where an append leaves the leaf -----

  /** Where a leaf label may send the leaf: the root of a session without a
      base, or an entry held that is no leaf label and, with a base, not above
      it. */
  ghost predicate RestsOn(h: Header, prefix: set<Id>, es: seq<Entry>, id: Id) {
    if id == ROOT then h.base == ROOT
    else
      && (exists i :: 0 <= i < |es| && es[i].id == id && !IsLeafLabel(es[i]))
      && (h.base == ROOT || id == h.base || id !in prefix)
  }

  lemma RestsIs(h: Header, prefix: set<Id>, es: seq<Entry>, id: Id)
    requires Wf(h.id, es)
    ensures RestsOn(h, prefix, es, id) <==> MayRestOn(h.base, prefix, es, id)
  {
    hide Wf, Index;
    IndexKeys(es);
    if id in Ids(es) {
      var i :| 0 <= i < |es| && es[i].id == id;
      IndexAt(h.id, es, i);
      WfUnique(h.id, es);
    }
  }

  /** A new entry hung from the leaf becomes the leaf, one hung elsewhere
      leaves it alone, and a leaf label sends it to its target or nowhere. */
  lemma LeafFollows(h: Header, hash: Hash, st: State, d: Draft)
    requires HashOk(hash) && Wf(h.id, st.entries) && (st.leaf == ROOT || st.leaf in Ids(st.entries))
    requires Checked(h, hash, st, d).Ok? && !Checked(h, hash, st, d).value.1
    ensures var (e, now) := (Checked(h, hash, st, d).value.0, Appended(h, hash, st, d));
            && now.entries == st.entries + [e] && e.body == d.body
            && e.parent == (if d.parent == ROOT && d.want == "" then st.leaf else d.parent)
            && (!IsLeafLabel(e) ==> (now.leaf == e.id <==> e.parent == st.leaf) && (e.parent != st.leaf ==> now.leaf == st.leaf))
            && (IsLeafLabel(e) ==>
                  now.leaf == if RestsOn(h, st.prefix, now.entries, e.body.target) then e.body.target else st.leaf)
            && (now.leaf == ROOT || now.leaf in Ids(now.entries))
  {
    hide RefsOk, CheckCallRules, NewRule, MayRestOn, RestsOn;
    var e := Checked(h, hash, st, d).value.0;
    PreparedFits(h, hash, st, d);
    WfSnoc(h.id, st.entries, e);
    IdsSnoc(st.entries, e);
    if IsLeafLabel(e) {
      RestsIs(h, st.prefix, st.entries + [e], e.body.target);
      if MayRestOn(h.base, st.prefix, st.entries + [e], e.body.target) {
        RestValid(h.id, h.base, st.prefix, st.entries + [e], e.body.target);
      }
    }
  }

  ghost predicate FollowsOn(h: Header, hash: Hash, st: State, d: Draft) {
    var r := Checked(h, hash, st, d);
    d.parent == ROOT && d.want == "" && !(d.body.LabelBody? && d.body.mark == Some(LEAF_LABEL)) && r.Ok? && !r.value.1
  }

  /** Drafts left to hang from the leaf, none a leaf label, each accepted and
      new where the ones before it lead. */
  ghost predicate Straight(h: Header, hash: Hash, st: State, ds: seq<Draft>) {
    forall i | 0 <= i < |ds| :: FollowsOn(h, hash, RunFrom(h, hash, st, Appends(ds[..i])), ds[i])
  }

  function Appends(ds: seq<Draft>): seq<Op> {
    seq(|ds|, i requires 0 <= i < |ds| => AppendOp(ds[i]))
  }

  /** Left to hang from the leaf, a new entry lengthens the path to it by one. */
  lemma StraightStep(h: Header, hash: Hash, st: State, d: Draft)
    requires FollowsOn(h, hash, st, d)
    ensures var now := Appended(h, hash, st, d);
            && |now.entries| == |st.entries| + 1
            && var e := now.entries[|st.entries|];
               && now.entries == st.entries + [e] && e.body == d.body
               && PathTo(now.entries, now.leaf) == PathTo(st.entries, st.leaf) + [e]
  {
    hide RefsOk, CheckCallRules, NewRule, PathTo, MayRestOn;
    var e := Checked(h, hash, st, d).value.0;
    PathSnoc(st.entries, e, e.id);
  }

  lemma LastAppend(h: Header, hash: Hash, st: State, ds: seq<Draft>)
    requires ds != []
    ensures var n := |ds| - 1;
            RunFrom(h, hash, st, Appends(ds)) == Appended(h, hash, RunFrom(h, hash, st, Appends(ds[..n])), ds[n])
  {
    hide Appended;
    var n := |ds| - 1;
    assert Appends(ds)[..n] == Appends(ds[..n]) && Appends(ds)[n] == AppendOp(ds[n]);
  }

  /** The drafts' entries, in order, are what came, to the lines and to the
      path to the leaf alike. */
  ghost predicate Lengthened(st: State, ds: seq<Draft>, now: State) {
    && |now.entries| == |st.entries| + |ds| && st.entries <= now.entries
    && (forall i | 0 <= i < |ds| :: now.entries[|st.entries| + i].body == ds[i].body)
    && PathTo(now.entries, now.leaf) == PathTo(st.entries, st.leaf) + now.entries[|st.entries|..]
  }

  lemma LengthenedOn(st: State, ds: seq<Draft>, before: State, e: Entry, now: State)
    requires ds != [] && Lengthened(st, ds[..|ds| - 1], before) && e.body == ds[|ds| - 1].body
    requires now.entries == before.entries + [e] && PathTo(now.entries, now.leaf) == PathTo(before.entries, before.leaf) + [e]
    ensures Lengthened(st, ds, now)
  {
    hide PathTo;
    var m := |st.entries|;
    assert now.entries[m..] == before.entries[m..] + [e];
  }

  /** Appended one after another, they grow the path to the leaf one by one. */
  lemma {:induction false} StraightRun(h: Header, hash: Hash, st: State, ds: seq<Draft>)
    requires Straight(h, hash, st, ds)
    ensures Lengthened(st, ds, RunFrom(h, hash, st, Appends(ds)))
  {
    hide Checked, FollowsOn, PathTo, Appended, Lengthened;
    if ds == [] {
      assert Appends(ds) == [];
      NotLengthened(st);
    } else {
      hide RunFrom;
      var n := |ds| - 1;
      assert forall i | 0 <= i < n :: ds[..n][..i] == ds[..i] && ds[..n][i] == ds[i];
      var before := RunFrom(h, hash, st, Appends(ds[..n]));
      StraightRun(h, hash, st, ds[..n]);
      StraightStep(h, hash, before, ds[n]);
      LastAppend(h, hash, st, ds);
      var now := Appended(h, hash, before, ds[n]);
      LengthenedOn(st, ds, before, now.entries[|before.entries|], now);
    }
  }

  lemma NotLengthened(st: State)
    ensures Lengthened(st, [], st)
  {
    assert st.entries[|st.entries|..] == [];
  }

  /** So a new session appended to so is one path, its end the leaf. */
  lemma NewStraightRun(h: Header, hash: Hash, ds: seq<Draft>)
    requires Straight(h, hash, NEW, ds)
    ensures var now := Run(h, hash, Appends(ds)); |now.entries| == |ds| && PathTo(now.entries, now.leaf) == now.entries
  {
    hide RunFrom, Straight;
    StraightRun(h, hash, NEW, ds);
    assert PathTo([], ROOT) == [];
  }

  // ----- what every append keeps -----

  ghost predicate SessionInv(h: Header, st: State) {
    && Wf(h.id, st.entries)
    && CallIdsOk(st.entries) && SpawnIdsOk(st.entries)
    && forall id :: PathInv(h, st.prefix, st.entries, PathTo(st.entries, id))
  }

  lemma PreparedFits(h: Header, hash: Hash, st: State, d: Draft)
    requires HashOk(hash) && Prepared(h, hash, st, d).Ok? && !Prepared(h, hash, st, d).value.1
    ensures Fits(h.id, st.entries, Prepared(h, hash, st, d).value.0)
  {
    hide RefsOk, CheckCallRules;
    var e := Prepared(h, hash, st, d).value.0;
    assert ValidId(hash(e.parent, d.parents, d.ts, d.body));
  }

  lemma CallIdsKept(h: Header, prefix: set<Id>, es: seq<Entry>, e: Entry, path: seq<Entry>)
    requires CallIdsOk(es) && CheckCallRules(h, prefix, es, e, path) == None
    ensures CallIdsOk(es + [e])
  {
    hide TargetCallOf, LateMismatch;
    var all := es + [e];
    forall i, j | 0 <= i < j < |all| && IsCall(all[i]) && IsCall(all[j])
      ensures all[i].body.item.callId != all[j].body.item.callId
    {
      assert all[i] == es[i];
      if j == |es| {
        assert !CallIdHeld(es, e.body.item.callId);
      } else {
        assert all[j] == es[j];
      }
    }
  }

  lemma SpawnIdsKept(h: Header, prefix: set<Id>, es: seq<Entry>, leaf: Id, d: Draft, e: Entry, path: seq<Entry>)
    requires SpawnIdsOk(es) && e.body == d.body
    requires NewRule(es, leaf, d) == None && CheckCallRules(h, prefix, es, e, path) == None
    ensures SpawnIdsOk(es + [e])
  {
    hide TargetCallOf, LateMismatch;
    var all := es + [e];
    forall i, j | 0 <= i < j < |all| && IsSpawn(all[i]) && IsSpawn(all[j])
      ensures all[i].body.link.spawnId != all[j].body.link.spawnId
    {
      assert all[i] == es[i];
      if j == |es| {
        assert !SpawnIdHeld(es, e.body.link.spawnId);
      } else {
        assert all[j] == es[j];
      }
    }
  }

  lemma PathCallIds(session: string, es: seq<Entry>, id: Id)
    requires Wf(session, es) && CallIdsDistinct(es)
    ensures CallIdsDistinct(PathTo(es, id))
  {
    PathIsChain(session, es, id);
    PathWithin(es, id);
    var p := PathTo(es, id);
    forall i, j | 0 <= i < j < |p| && IsCall(p[i]) && IsCall(p[j])
      ensures p[i].body.item.callId != p[j].body.item.callId
    {
      var a :| 0 <= a < |es| && es[a] == p[i];
      var b :| 0 <= b < |es| && es[b] == p[j];
      assert a != b;
      if a < b {
      } else {
        assert es[b].body.item.callId != es[a].body.item.callId;
      }
    }
  }

  lemma PathSnocDistinct(session: string, es: seq<Entry>, e: Entry)
    requires Wf(session, es) && Fits(session, es, e)
    ensures Distinct(PathTo(es, e.parent) + [e])
    ensures PathTo(es + [e], e.id) == PathTo(es, e.parent) + [e]
  {
    WfSnoc(session, es, e);
    PathSnoc(es, e, e.id);
    PathIsChain(session, es + [e], e.id);
  }

  lemma AppendKeeps(h: Header, hash: Hash, st: State, d: Draft)
    requires HashOk(hash) && SessionInv(h, st)
    ensures SessionInv(h, Appended(h, hash, st, d))
  {
    hide RefsOk, CheckCallRules, PathInv, CallIdsOk, SpawnIdsOk, NewRule;
    var checked := Checked(h, hash, st, d);
    if checked.Ok? && !checked.value.1 {
      var e := checked.value.0;
      var es := st.entries;
      var path := PathTo(es, e.parent);
      PreparedFits(h, hash, st, d);
      WfSnoc(h.id, es, e);
      CallIdsKept(h, st.prefix, es, e, path);
      SpawnIdsKept(h, st.prefix, es, st.leaf, d, e, path);
      PathSnocDistinct(h.id, es, e);
      assert CallIdsDistinct(path) by { CallIdsKeptDistinct(es); PathCallIds(h.id, es, e.parent); }
      PathWithin(es, e.parent);
      forall x | x in path ensures x in es {
        var i :| 0 <= i < |path| && path[i] == x;
      }
      AppendKeepsPath(h, st.prefix, es, e, path);
      forall id ensures PathInv(h, st.prefix, es + [e], PathTo(es + [e], id)) {
        PathSnoc(es, e, id);
        if id != e.id {
          PathInvGrows(h, st.prefix, es, e, PathTo(es, id));
        }
      }
    }
  }

  lemma CallIdsKeptDistinct(es: seq<Entry>)
    requires CallIdsOk(es)
    ensures CallIdsDistinct(es)
  {}

  lemma {:induction false} GrownInv(h: Header, hash: Hash, st: State, ops: seq<Op>)
    requires HashOk(hash) && SessionInv(h, st)
    ensures SessionInv(h, RunFrom(h, hash, st, ops))
  {
    hide SessionInv, Appended;
    if ops != [] {
      var before := RunFrom(h, hash, st, ops[..|ops| - 1]);
      GrownInv(h, hash, st, ops[..|ops| - 1]);
      if ops[|ops| - 1].AppendOp? {
        AppendKeeps(h, hash, before, ops[|ops| - 1].d);
      } else {
        MovedKeeps(h, before, Next(h, hash, before, ops[|ops| - 1]));
      }
    }
  }

  lemma MovedKeeps(h: Header, st: State, moved: State)
    requires SessionInv(h, st) && moved == st.(leaf := moved.leaf)
    ensures SessionInv(h, moved)
  {}

  lemma NewInv(h: Header)
    ensures SessionInv(h, NEW)
  {
    assert forall id :: PathTo([], id) == [];
    assert PathInv(h, {}, [], []);
  }

  /** Whatever was appended, wherever the leaf was moved in between, and
      whatever was refused: call ids and spawn ids are each used once, and on
      every path targets hold, copied calls are left alone, and no call has a
      flaw VerifyRecords reports but an output with no dispatch. */
  lemma GrownSessionsVerify(h: Header, hash: Hash, ops: seq<Op>, id: Id)
    requires HashOk(hash)
    ensures var st := Run(h, hash, ops);
            && CallIdsOk(st.entries) && SpawnIdsOk(st.entries)
            && PathClean(h, st.prefix, st.entries, PathTo(st.entries, id))
  {
    NewInv(h);
    GrownInv(h, hash, NEW, ops);
    var st := Run(h, hash, ops);
    InvClean(h, st.prefix, st.entries, PathTo(st.entries, id));
  }
}

/** The session object: the entries, the indexes it keeps beside them and
    the leaf, each updated in place by every entry it takes. */
module Sessions {
  import opened Entries
  import opened Tree
  import opened Calls
  import opened CallRules
  import opened CallSafety
  import opened Leaf
  import opened Growth

  /** A cache of where the leaf is, good for the first n entries. */
  class ReadLeaf {
    var n: nat
    var marked: Id
    var at: int
    var under: set<Id>
    var tip: Id

    ghost function State(): LeafState
      reads this
    {
      LeafState(marked, at, under, tip)
    }

    constructor (s: Session)
      requires s.Core()
      ensures n == |s.entries| && State() == Fresh(s.header.base, s.prefix, s.entries)
    {
      n, marked, at, under, tip := 0, "", -1, {}, "";
      new;
      var m, line := s.DurableLeafAt();
      Mark(s, m, line);
      n := |s.entries|;
    }

    /** Starts over from a new mark: all that is under it, and the last of those. */
    method Mark(s: Session, target: Id, at: int)
      modifies this
      ensures State() == Marked(s.entries, target, at)
    {
      this.marked, this.at, this.tip, this.under := target, at, target, {};
      if target == "" {
        return;
      }
      this.under := {target} + if target == ROOT_MARK then {ROOT} else {};
      for i := 0 to |s.entries|
        invariant marked == target && this.at == at
        invariant under == Under(s.entries, target, i)
        invariant tip == Tip(s.entries, target, at, i)
      {
        var e := s.entries[i];
        if e.parent in under {
          under := under + {e.id};
          if i > at {
            tip := e.id;
          }
        }
      }
    }

    /** Takes line i of the session into the state. */
    method Extend(s: Session, i: nat)
      requires s.Core() && i < |s.entries|
      modifies this
      ensures State() == Extended(s.header.base, s.prefix, s.entries, old(State()), i)
      ensures n == i + 1
    {
      var e := s.entries[i];
      if IsLeafLabel(e) && s.MayRest(e.body.target) {
        Mark(s, MarkOf(e.body.target), i);
      } else if IsNullLabel(e) && marked != "" && e.body.target == Unmark(marked) {
        Mark(s, "", -1);
      } else if marked != "" && e.parent in under {
        under := under + {e.id};
        tip := e.id;
      }
      n := i + 1;
    }
  }

  /** e is the dispatch d of the call at t, which es holds. */
  ghost predicate StandsFor(es: seq<Entry>, e: Entry, t: Id, d: Id) {
    e.id == d && e.body.DispatchBody? && e.body.dispatch.target == t && HoldsCall(es, t, e.body.dispatch.callId)
  }

  /** What one more entry adds to the indexes. */
  lemma IndexedSnoc(es: seq<Entry>, e: Entry)
    ensures forall k :: CallIdHeld(es + [e], k) <==> CallIdHeld(es, k) || (IsCall(e) && e.body.item.callId == k)
    ensures forall k :: SpawnIdHeld(es + [e], k) <==> SpawnIdHeld(es, k) || (IsSpawn(e) && e.body.link.spawnId == k)
    ensures forall k :: CopiedHeld(es + [e], k) <==> CopiedHeld(es, k) || (IsCall(e) && e.body.item.callId == k && e.body.copiedFrom.Some?)
    ensures forall k :: ResultHeld(es + [e], k) <==> ResultHeld(es, k) || (e.body.ResultBody? && e.body.result.callId == k)
    ensures forall t, d :: DispatchHeld(es + [e], t, d) <==> DispatchHeld(es, t, d) || StandsFor(es, e, t, d)
  {
    hide HoldsCall;
    var all := es + [e];
    assert all[|es|] == e && all[..|es|] == es;
    assert forall i | 0 <= i < |es| :: all[i] == es[i];
    forall k ensures CallIdHeld(all, k) <==> CallIdHeld(es, k) || (IsCall(e) && e.body.item.callId == k) {
      CallIdHeldSnoc(es, e, k);
    }
    forall k ensures SpawnIdHeld(all, k) <==> SpawnIdHeld(es, k) || (IsSpawn(e) && e.body.link.spawnId == k) {
      SpawnIdHeldSnoc(es, e, k);
    }
    forall k ensures CopiedHeld(all, k) <==> CopiedHeld(es, k) || (IsCall(e) && e.body.item.callId == k && e.body.copiedFrom.Some?) {
      CopiedHeldSnoc(es, e, k);
    }
    forall k ensures ResultHeld(all, k) <==> ResultHeld(es, k) || (e.body.ResultBody? && e.body.result.callId == k) {
      ResultHeldSnoc(es, e, k);
    }
    forall t, d ensures DispatchHeld(all, t, d) <==> DispatchHeld(es, t, d) || StandsFor(es, e, t, d) {
      DispatchHeldSnoc(es, e, t, d);
    }
  }

  lemma DispatchHeldSnoc(es: seq<Entry>, e: Entry, t: Id, d: Id)
    ensures DispatchHeld(es + [e], t, d) <==> DispatchHeld(es, t, d) || StandsFor(es, e, t, d)
  {
    hide HoldsCall;
    var all := es + [e];
    assert all[|es|] == e && all[..|es|] == es;
    assert forall n | 0 <= n < |es| :: all[n] == es[n] && all[..n] == es[..n];
    if DispatchHeld(es, t, d) {
      var n: nat :| DispatchAt(es, n, t) && es[n].id == d;
      assert DispatchAt(all, n, t);
    }
    if StandsFor(es, e, t, d) {
      assert DispatchAt(all, |es|, t);
    }
    if DispatchHeld(all, t, d) {
      var n: nat :| DispatchAt(all, n, t) && all[n].id == d;
      assert n < |es| ==> DispatchAt(es, n, t);
    }
  }

  lemma SpawnIdHeldSnoc(es: seq<Entry>, e: Entry, k: string)
    ensures SpawnIdHeld(es + [e], k) <==> SpawnIdHeld(es, k) || (IsSpawn(e) && e.body.link.spawnId == k)
  {
    var all := es + [e];
    assert all[|es|] == e;
    if SpawnIdHeld(es, k) {
      var i :| 0 <= i < |es| && IsSpawn(es[i]) && es[i].body.link.spawnId == k;
      assert IsSpawn(all[i]);
    }
  }

  lemma CopiedHeldSnoc(es: seq<Entry>, e: Entry, k: string)
    ensures CopiedHeld(es + [e], k) <==> CopiedHeld(es, k) || (IsCall(e) && e.body.item.callId == k && e.body.copiedFrom.Some?)
  {
    var all := es + [e];
    assert all[|es|] == e;
    if CopiedHeld(es, k) {
      var i :| 0 <= i < |es| && IsCall(es[i]) && es[i].body.item.callId == k && es[i].body.copiedFrom.Some?;
      assert IsCall(all[i]);
    }
  }

  lemma CallByIndex(session: string, es: seq<Entry>, t: Id, k: string)
    requires Wf(session, es)
    ensures HoldsCall(es, t, k) <==> t in Index(es) && IsCall(Index(es)[t]) && Index(es)[t].body.item.callId == k
  {
    IndexKeys(es);
    if HoldsCall(es, t, k) {
      var i :| 0 <= i < |es| && IsCall(es[i]) && es[i].id == t && es[i].body.item.callId == k;
      IndexAt(session, es, i);
    }
    if t in Index(es) && IsCall(Index(es)[t]) && Index(es)[t].body.item.callId == k {
      var i :| 0 <= i < |es| && es[i] == Index(es)[t];
    }
  }

  class Session {
    const header: Header
    const hash: Hash
    var prefix: set<Id>
    var entries: seq<Entry>
    var byID: map<Id, Entry>
    var leaf: Id
    var callIDs: set<string>
    var spawnIDs: set<string>
    var copied: set<string>
    var results: set<string>
    var dispatches: map<Id, seq<Id>>
    var read: ReadLeaf?

    /** The entries are a tree in the session's own terms. */
    ghost predicate Core()
      reads `prefix, `entries, `byID, `callIDs, `spawnIDs, `copied, `results, `dispatches
    {
      CoreIn(header.id)
    }

    /** The entries are a tree in the terms of a session of that id, and the
        indexes agree with them. */
    ghost predicate CoreIn(session: string)
      reads `prefix, `entries, `byID, `callIDs, `spawnIDs, `copied, `results, `dispatches
    {
      && HashOk(hash)
      && Wf(session, entries)
      && byID == Index(entries)
      && prefix <= Ids(entries)
      && Indexed()
    }

    ghost predicate Indexed()
      reads `entries, `callIDs, `spawnIDs, `copied, `results, `dispatches
    {
      && (forall k :: k in callIDs <==> CallIdHeld(entries, k))
      && (forall k :: k in spawnIDs <==> SpawnIdHeld(entries, k))
      && (forall k :: k in copied <==> CopiedHeld(entries, k))
      && (forall k :: k in results <==> ResultHeld(entries, k))
      && (forall t, d :: t in dispatches && d in dispatches[t] <==> DispatchHeld(entries, t, d))
    }

    ghost predicate Valid()
      reads this, read
    {
      Core() && (read != null ==> read.n <= |entries|)
    }

    /** The cache is what a fresh pass over the lines it took in gives. */
    ghost predicate CacheRight()
      reads this, read
    {
      read != null ==> read.n <= |entries| && read.State() == Fresh(header.base, prefix, entries[..read.n])
    }

    /** How many lines the cache took in, if there is one. */
    ghost function CacheAt(): Option<nat>
      reads `read, read
    {
      if read == null then None else Some(read.n)
    }

    /** The cache once the rest of the lines is taken in. */
    ghost function CaughtState(): LeafState
      reads this, read
      requires Valid()
    {
      if read == null then Fresh(header.base, prefix, entries)
      else CaughtUp(header.base, prefix, entries, read.State(), read.n, |entries|)
    }

    /** That is the fresh state: no line to come harms a label taken in. */
    ghost predicate CatchesUp()
      reads this, read
    {
      CacheRight() && (read != null ==> Harmless(header.base, prefix, entries, read.n))
    }

    lemma CatchesUpFresh()
      requires Valid() && CacheRight()
      ensures CaughtState() == Fresh(header.base, prefix, entries) <==> CatchesUp()
    {
      hide Harmless, Fresh, CaughtUp, Indexed;
      if read != null {
        CatchUpExact(header.id, header.base, prefix, entries, read.n);
      }
    }

    ghost function St(): State
      reads this
    {
      State(prefix, entries, leaf)
    }

    /** A new session, empty. */
    constructor (h: Header, hash: Hash)
      requires HashOk(hash)
      ensures Valid() && CacheRight() && header == h && this.hash == hash && St() == NEW && read == null
    {
      header, this.hash := h, hash;
      prefix, entries, byID, leaf := {}, [], map[], ROOT;
      callIDs, spawnIDs, copied, results, dispatches := {}, {}, {}, {}, map[];
      read := null;
    }

    predicate MayRest(id: Id)
      reads this
      requires Core()
      ensures MayRest(id) == MayRestOn(header.base, prefix, entries, id)
    {
      if id == ROOT then header.base == ROOT
      else
        && id in byID
        && !(header.base != ROOT && id != header.base && id in prefix)
        && !IsLeafLabel(byID[id])
    }

    /** The entries from the first down to id. */
    method Path(id: Id) returns (path: seq<Entry>)
      requires Core()
      ensures path == PathTo(entries, id)
    {
      hide PathTo, Indexed, Wf;
      path := [];
      var up := id;
      ValidIds(header.id, entries);
      IndexKeys(entries);
      while up != ROOT
        invariant PathTo(entries, id) == PathTo(entries, up) + path
        invariant (up == id && path == []) || up == ROOT || up in byID
        decreases |PathTo(entries, up)|
      {
        if up !in byID {
          PathNowhere(entries, up);
          return;
        }
        PathStep(header.id, entries, up);
        ParentIn(up);
        ghost var (above, was) := (PathTo(entries, byID[up].parent), path);
        path := [byID[up]] + path;
        assert above + [byID[up]] + was == above + path;
        up := byID[up].parent;
      }
      PathNowhere(entries, ROOT);
    }

    lemma ParentIn(id: Id)
      requires Core() && id in byID
      ensures byID[id].parent == ROOT || byID[id].parent in byID
    {
      IndexKeys(entries);
      var i :| 0 <= i < |entries| && entries[i] == byID[id];
      assert Fits(header.id, entries[..i], entries[i]);
      IdsPrefix(entries, i, |entries|);
      assert entries[..|entries|] == entries;
    }

    // ----- the leaf rule over all lines -----

    method DurableLeafAt() returns (marked: Id, at: int)
      requires Core()
      ensures (marked, at) == Durable(header.base, prefix, entries, |entries|)
    {
      hide Wf, Indexed, MayRestOn, Index, MarkOf, Unmark;
      marked, at := "", -1;
      for i := 0 to |entries|
        invariant (marked, at) == Durable(header.base, prefix, entries, i)
      {
        var e := entries[i];
        if IsLeafLabel(e) {
          if MayRest(e.body.target) {
            marked, at := MarkOf(e.body.target), i;
          }
        } else if IsNullLabel(e) && marked != "" && e.body.target == Unmark(marked) {
          marked, at := "", -1;
        }
      }
    }

    /** The nearest ancestor that is no leaf label, the base standing in for the
        prefix. */
    method OffLabel(id: Id) returns (r: Id)
      requires Core()
      ensures r == NotOnLabel(header.base, prefix, entries, id)
    {
      r := id;
      ValidIds(header.id, entries);
      IndexKeys(entries);
      while r != ROOT && r in byID && IsLeafLabel(byID[r])
        invariant WalkUp(entries, r) == WalkUp(entries, id)
        decreases |PathTo(entries, r)|
      {
        PathStep(header.id, entries, r);
        WalkUpStep(header.id, entries, r);
        r := byID[r].parent;
      }
      WalkUpStays(header.id, entries, r);
      if header.base != ROOT && (r == ROOT || (r in prefix && r != header.base)) {
        r := header.base;
      }
    }

    // ----- append -----

    /** Searches the dispatches indexed under the call for one off the path. */
    method OffPath(target: Id, path: seq<Entry>) returns (off: bool)
      requires Core()
      ensures off == DispatchedOff(entries, target, path)
    {
      var on := OnPath(path);
      if target in dispatches {
        var ds := dispatches[target];
        for i := 0 to |ds|
          invariant forall j | 0 <= j < i :: ds[j] in on
        {
          if ds[i] !in on {
            assert DispatchHeld(entries, target, ds[i]);
            return true;
          }
        }
      }
      assert forall n: nat | DispatchAt(entries, n, target) :: DispatchHeld(entries, target, entries[n].id);
      return false;
    }

    method OnPath(path: seq<Entry>) returns (on: set<Id>)
      ensures on == Ids(path)
    {
      on := {};
      for i := 0 to |path|
        invariant on == Ids(path[..i])
      {
        assert path[..i + 1] == path[..i] + [path[i]];
        IdsSnoc(path[..i], path[i]);
        on := on + {path[i].id};
      }
      assert path[..|path|] == path;
    }

    /** The rules on calls, each read from a slice of the path to parent. */
    method CheckRules(e: Entry, parent: Id) returns (broken: Option<CallError>)
      requires Core()
      ensures broken == CheckCallRules(header, prefix, entries, e, PathTo(entries, parent))
    {
      hide PathTo, FoldOf, AboutId, CopiedHeld, CallIdHeld, ResultHeld, SpawnIdHeld, DispatchedOff;
      PathIsChain(header.id, entries, parent);
      match e.body
      case LinkBody(l) =>
        return if IsSpawn(e) && l.spawnId in spawnIDs then Some(SpawnIdRepeated) else None;
      case ItemBody(item, responseId, copiedFrom) =>
        if copiedFrom.Some? && copiedFrom.value.session == header.id {
          return Some(BadCopiedFrom);
        } else if copiedFrom.Some? && responseId != "" {
          return Some(BadCopiedFrom);
        } else if item.FunctionCallOutput? && copiedFrom.None? && item.callId in copied {
          return Some(BadCopiedFrom);
        }
        if item.FunctionCallOutput? && item.callId in results {
          var path := Path(parent);
          var c := CallFor(path, item.callId);
          if c.Some? && Mismatched(c.value, item) {
            return Some(ResultMismatch);
          }
        }
        if item.FunctionCall? && item.callId == "" {
          return Some(CallIdEmpty);
        } else if item.FunctionCall? && item.callId in callIDs {
          return Some(CallIdRepeated);
        }
        return None;
      case DecisionBody(d) =>
        var path := Path(parent);
        var r := TargetCall(path, d.callId, d.target);
        if r.Err? {
          return Some(r.error);
        }
        var off := OffPath(r.value.entry, path);
        return DecisionRule(r.value, d, header.promised && r.value.entry !in prefix && !off);
      case ResultBody(d) =>
        var path := Path(parent);
        var r := TargetCall(path, d.callId, d.target);
        return if r.Err? then Some(r.error) else ResultRule(r.value);
      case DispatchBody(d) =>
        var path := Path(parent);
        var r := TargetCall(path, d.callId, d.target);
        return if r.Err? then Some(r.error) else DispatchRule(r.value);
      case _ =>
        return None;
    }

    /** The entry a draft becomes, or why it may not be added; nothing changes. */
    method Prepare(d: Draft) returns (r: Result<(Entry, bool), AppendError>)
      requires Core()
      ensures r == Prepared(header, hash, St(), d)
    {
      hide PathTo, CheckCallRules, RefsOk, Indexed;
      IndexKeys(entries);
      var parent := ParentOf(leaf, d);
      if parent != ROOT && parent !in byID {
        return Err(NoEntry);
      }
      if header.base != ROOT && (parent == ROOT || (parent != header.base && parent in prefix)) {
        return Err(BaseRule);
      }
      var ok := CheckRefs(parent, header.id, d.parents, byID.Keys);
      if !ok {
        return Err(BadConvergence);
      }
      var e := Entry(hash(parent, d.parents, d.ts, d.body), parent, d.parents, d.body);
      if d.want != "" && d.want != e.id {
        return Err(BadId);
      }
      if e.id in byID {
        return Ok((e, true));
      }
      var broken := CheckRules(e, parent);
      return if broken.Some? then Err(CallRule(broken.value)) else Ok((e, false));
    }

    /** Links an entry into the tree and the indexes. */
    method Add(e: Entry, ghost session: string)
      requires CoreIn(session) && Fits(session, entries, e)
      modifies this
      ensures CoreIn(session) && entries == old(entries) + [e]
      ensures prefix == old(prefix) && leaf == old(leaf) && read == old(read)
    {
      hide Wf, CallIdHeld, SpawnIdHeld, CopiedHeld, ResultHeld, DispatchHeld;
      WfSnoc(session, entries, e);
      IndexSnoc(entries, e);
      IdsSnoc(entries, e);
      IndexCall(e, session);
      byID := byID[e.id := e];
      entries := entries + [e];
    }

    /** Takes an entry into the indexes of calls, links and results. */
    method IndexCall(e: Entry, ghost session: string)
      requires Wf(session, entries) && Indexed() && byID == Index(entries)
      modifies `callIDs, `spawnIDs, `copied, `results, `dispatches
      ensures forall k :: k in callIDs <==> CallIdHeld(entries + [e], k)
      ensures forall k :: k in spawnIDs <==> SpawnIdHeld(entries + [e], k)
      ensures forall k :: k in copied <==> CopiedHeld(entries + [e], k)
      ensures forall k :: k in results <==> ResultHeld(entries + [e], k)
      ensures forall t, d :: t in dispatches && d in dispatches[t] <==> DispatchHeld(entries + [e], t, d)
    {
      hide CallIdHeld, SpawnIdHeld, CopiedHeld, ResultHeld, DispatchHeld, Wf;
      IndexedSnoc(entries, e);
      if IsSpawn(e) {
        spawnIDs := spawnIDs + {e.body.link.spawnId};
      } else if IsCall(e) {
        callIDs := callIDs + {e.body.item.callId};
        if e.body.copiedFrom.Some? {
          copied := copied + {e.body.item.callId};
        }
      } else if e.body.ResultBody? {
        results := results + {e.body.result.callId};
      } else if e.body.DispatchBody? {
        var t := e.body.dispatch.target;
        CallByIndex(session, entries, t, e.body.dispatch.callId);
        if t in byID && IsCall(byID[t]) && byID[t].body.item.callId == e.body.dispatch.callId {
          assert StandsFor(entries, e, t, e.id);
          dispatches := dispatches[t := (if t in dispatches then dispatches[t] else []) + [e.id]];
        }
      }
    }

    /** What a writer is held to for a link it adds. */
    method CheckNew(d: Draft) returns (broken: Option<CallError>)
      requires Core()
      ensures broken == NewRule(entries, leaf, d)
    {
      hide PathTo, Indexed, Wf;
      if !d.body.LinkBody? {
        return None;
      }
      var l := d.body.link;
      if l.rel.ContinuedIn? {
        var next := SupersededBy(entries);
        return if next != "" && next != l.session then Some(Superseded) else None;
      } else if !IsCallee(l.rel) {
        return None;
      } else if l.rel.Peer? && !l.cancel && (l.callId == "" || (l.url == "" && l.session == "")) {
        return Some(CalleeLink);
      } else if l.rel.Subsession? && (l.callId == "") == (l.spawnId == "") {
        return Some(SpawnLink);
      } else if !l.cancel {
        return None;
      }
      var path := Path(if d.parent == ROOT then leaf else d.parent);
      for i := 0 to |path|
        invariant forall j | 0 <= j < i :: !Notices(path[j], l)
      {
        if Notices(path[i], l) {
          return None;
        }
      }
      return Some(CalleeLink);
    }

    /** The live leaf rule, applied once e is added. */
    method MoveLeafFor(e: Entry)
      requires Core()
      modifies `leaf
      ensures leaf == MovedLeaf(header.base, prefix, entries, old(leaf), e)
    {
      if IsLeafLabel(e) {
        if MayRest(e.body.target) {
          leaf := e.body.target;
        }
      } else if e.parent == leaf {
        leaf := e.id;
      }
    }

    method AddLive(e: Entry)
      requires Valid() && Fits(header.id, entries, e)
      modifies this
      ensures Valid() && read == old(read) && (old(CacheRight()) ==> CacheRight())
      ensures St() == Added(header, old(St()), e)
    {
      hide Indexed, Wf, Fits, Fresh;
      ghost var was := entries;
      Add(e, header.id);
      MoveLeafFor(e);
      assert read != null ==> entries[..read.n] == was[..read.n];
    }

    /** Append with its outcome: an entry held already, or refused, changes
        nothing. */
    method Commit(d: Draft) returns (r: Result<(Entry, bool), AppendError>)
      requires Valid()
      modifies this
      ensures Valid() && read == old(read) && (old(CacheRight()) ==> CacheRight())
      ensures r == Prepared(header, hash, old(St()), d)
      ensures St() == if r.Ok? && !r.value.1 then Added(header, old(St()), r.value.0) else old(St())
    {
      hide Prepared, Added, Wf, Indexed, Fresh;
      r := Prepare(d);
      if r.Ok? && !r.value.1 {
        PreparedFits(header, hash, St(), d);
        AddLive(r.value.0);
      }
    }

    /** The writer's rules, then Commit. */
    method Append(d: Draft) returns (r: Result<(Entry, bool), AppendError>)
      requires Valid()
      modifies this
      ensures Valid() && read == old(read) && (old(CacheRight()) ==> CacheRight())
      ensures r == Checked(header, hash, old(St()), d)
      ensures St() == Appended(header, hash, old(St()), d)
    {
      hide Prepared, Added, Wf, Indexed, Fresh, NewRule;
      var broken := CheckNew(d);
      if broken.Some? {
        return Err(CallRule(broken.value));
      }
      r := Commit(d);
    }

    method Branch(id: Id) returns (ok: bool)
      requires Valid()
      modifies `leaf
      ensures Valid() && (old(CacheRight()) ==> CacheRight()) && ok == (id in Ids(entries))
      ensures St() == Next(header, hash, old(St()), BranchOp(id))
    {
      IndexKeys(entries);
      ok := id in byID;
      if ok {
        leaf := id;
      }
    }

    // ----- the leaf as a reader has it -----

    /** Brings the cache up to the session's entries, several at a time. */
    method ReadCaughtUp()
      requires Valid()
      modifies `read, read
      ensures Valid() && read != null && read.n == |entries|
      ensures read == old(read) || fresh(read)
      ensures read.State() == old(CaughtState())
      ensures old(CacheRight()) ==> (CacheRight() <==> old(CatchesUp()))
    {
      hide Indexed, Fresh, Extended, Harmless, Wf;
      assert entries[..|entries|] == entries;
      if CacheRight() {
        CatchesUpFresh();
      }
      if read == null {
        read := new ReadLeaf(this);
        return;
      }
      var cache: ReadLeaf := read;
      ghost var (was, n) := (cache.State(), cache.n);
      while cache.n < |entries|
        invariant read == cache && n <= cache.n <= |entries|
        invariant cache.State() == CaughtUp(header.base, prefix, entries, was, n, cache.n)
        decreases |entries| - cache.n
      {
        cache.Extend(this, cache.n);
      }
    }

    /** Follows another writer by one line, and moves the leaf to where the cache
        then has it: where a fresh reading would, exactly when the entry is
        harmless to the labels before it. */
    method Extend(d: Draft) returns (r: Result<(Entry, bool), AppendError>)
      requires Valid()
      modifies this, read
      ensures Valid() && r == Prepared(header, hash, old(St()), d)
      ensures !(r.Ok? && !r.value.1) ==> St() == old(St()) && (old(CacheRight()) ==> CacheRight())
      ensures r.Ok? && !r.value.1 ==>
                && entries == old(entries) + [r.value.0] && prefix == old(prefix) && read != null
                && leaf == Resolved(header.base, prefix, entries, read.State())
                && (old(CacheRight()) ==>
                      && (CacheRight() <==> Harmless(header.base, prefix, entries, |entries| - 1))
                      && (CacheRight() ==> leaf == Resolve(header.base, prefix, entries)))
    {
      hide Prepared, Wf, Indexed, Fresh, Fits, Resolve, Resolved, Harmless;
      r := Prepare(d);
      if r.Ok? && !r.value.1 {
        assert Fits(header.id, entries, r.value.0) by {
          PreparedFits(header, hash, St(), d);
        }
        TakeIn(r.value.0);
      }
    }

    /** The entry, and the leaf where the cache then is. */
    method TakeIn(e: Entry)
      requires Valid() && Fits(header.id, entries, e)
      modifies this, read
      ensures Valid() && entries == old(entries) + [e] && prefix == old(prefix) && read != null
      ensures leaf == Resolved(header.base, prefix, entries, read.State())
      ensures old(CacheRight()) ==>
                && (CacheRight() <==> Harmless(header.base, prefix, entries, |entries| - 1))
                && (CacheRight() ==> leaf == Resolve(header.base, prefix, entries))
    {
      hide Wf, Indexed, Fresh, Fits, NotOnLabel, Harmless, Resolve, Resolved;
      assert entries[..|entries|] == entries;
      if read == null || read.n != |entries| {
        read := new ReadLeaf(this);
      }
      ghost var was := entries;
      Add(e, header.id);
      assert entries[..|entries| - 1] == was;
      PlaceAsRead();
    }

    /** Brings the cache, as of every line but the last, up to the last, and
        the leaf where it says. */
    method PlaceAsRead()
      requires Core() && entries != [] && read != null && read.n == |entries| - 1
      modifies `leaf, read
      ensures Valid() && read.n == |entries|
      ensures read.State() == old(Extended(header.base, prefix, entries, read.State(), |entries| - 1))
      ensures leaf == Resolved(header.base, prefix, entries, read.State())
      ensures old(CacheRight()) ==>
                && (CacheRight() <==> Harmless(header.base, prefix, entries, |entries| - 1))
                && (CacheRight() ==> leaf == Resolve(header.base, prefix, entries))
    {
      hide Wf, Indexed, Fresh, NotOnLabel, Harmless, Extended;
      ExtendIsFresh(header.id, header.base, prefix, entries);
      read.Extend(this, |entries| - 1);
      leaf := OffLabel(if read.marked == "" then entries[|entries| - 1].id else Unmark(read.tip));
      assert entries[..|entries|] == entries;
    }

    // ----- the labels a store of lines writes -----

    /** Whether a reader of the lines, after an append, needs a leaf label to
        resolve the head the session has. */
    method LeafMarkNeeded() returns (needed: bool)
      requires Valid()
      modifies `read, read
      ensures Valid() && (read == old(read) || fresh(read))
      ensures needed == MarkNeededBy(header.base, prefix, entries, leaf, old(CaughtState()))
      ensures old(CatchesUp()) ==> CacheRight() && needed == MarkNeeded(header.base, prefix, entries, leaf)
      ensures CacheAt() == if entries != [] && MayRestOn(header.base, prefix, entries, leaf) then Some(|entries|) else old(CacheAt())
    {
      hide Indexed, Fresh, NotOnLabel, MayRestOn, Harmless, CaughtUp, Wf;
      if CacheRight() {
        CatchesUpFresh();
      }
      if entries == [] || !MayRest(leaf) {
        return false;
      }
      ReadCaughtUp();
      var last := entries[|entries| - 1].id;
      var resolved := OffLabel(if read.marked == "" then last else Unmark(read.tip));
      return resolved != leaf;
    }

    /** The same decided before e, prepared, is appended. */
    method LeafMarkBefore(e: Entry) returns (needed: bool)
      requires Valid()
      modifies `read, read
      ensures Valid() && (read == old(read) || fresh(read))
      ensures needed == MarkBeforeBy(header.base, prefix, entries, leaf, e, old(CaughtState()))
      ensures old(CatchesUp()) ==> CacheRight() && needed == MarkBefore(header.base, prefix, entries, leaf, e)
      ensures CacheAt() == if LooksAhead(entries, leaf, e) then Some(|entries|) else old(CacheAt())
    {
      hide Indexed, Fresh, NotOnLabel, PathTo, Harmless, CaughtUp, Wf;
      if CacheRight() {
        CatchesUpFresh();
      }
      if e.parent == leaf || leaf == ROOT || IsLeafLabel(e) {
        return false;
      }
      var under := HeadAbove(e.parent);
      if under {
        return false;
      }
      if entries != [] {
        ReadCaughtUp();
        if read.marked != "" && e.parent !in read.under {
          var resolved := OffLabel(Unmark(read.tip));
          return resolved != leaf;
        }
      }
      return true;
    }

    /** Whether the walk up from id meets the leaf. */
    method HeadAbove(id: Id) returns (met: bool)
      requires Core()
      ensures met <==> leaf in Ids(PathTo(entries, id))
    {
      hide PathTo, Indexed;
      var p := id;
      ValidIds(header.id, entries);
      IndexKeys(entries);
      while p != ROOT
        invariant leaf in Ids(PathTo(entries, id)) <==> leaf in Ids(PathTo(entries, p))
        decreases |PathTo(entries, p)|
      {
        if p !in byID {
          PathNowhere(entries, p);
          return false;
        }
        PathStep(header.id, entries, p);
        IdsSnoc(PathTo(entries, byID[p].parent), byID[p]);
        if p == leaf {
          return true;
        }
        p := byID[p].parent;
      }
      PathNowhere(entries, ROOT);
      return false;
    }

    /** Places the leaf where the lines say. */
    method ResolveLeaf()
      requires Core() && read == null
      modifies `leaf
      ensures leaf == Resolve(header.base, prefix, entries)
    {
      hide Indexed, Under, WalkUp;
      if entries == [] {
        leaf := ROOT;
        return;
      }
      var marked, at := DurableLeafAt();
      if marked == "" {
        leaf := OffLabel(entries[|entries| - 1].id);
        return;
      }
      var under := {marked} + if marked == ROOT_MARK then {ROOT} else {};
      var tip := marked;
      assert under == Under(entries, marked, 0) by { UnderNone(entries, marked); }
      for i := 0 to |entries|
        invariant under == Under(entries, marked, i)
        invariant tip == Tip(entries, marked, at, i)
      {
        UnderOne(entries, marked, i);
        var e := entries[i];
        if e.parent in under {
          under := under + {e.id};
          if i > at {
            tip := e.id;
          }
        }
      }
      leaf := OffLabel(Unmark(tip));
    }
  }
}

/** What a merge and a fork keep of the records: every path still passes the
    checks on its calls, in the log that holds both and under the new id. */
module Records {
  import opened Entries
  import opened Tree
  import opened Calls
  import opened CallRules
  import opened CallSafety
  import opened Exchange
  import opened Growth
  import Reader

  ghost predicate Within(es: seq<Entry>, more: seq<Entry>) {
    forall e | e in es :: e in more
  }

  /** Every path passes the checks on its calls. */
  ghost predicate Verifies(h: Header, prefix: set<Id>, es: seq<Entry>) {
    forall id :: PathClean(h, prefix, es, PathTo(es, id))
  }

  /** Every path keeps what an append relies on. */
  ghost predicate Keeps(h: Header, prefix: set<Id>, es: seq<Entry>) {
    forall id :: PathInv(h, prefix, es, PathTo(es, id))
  }

  // ----- passing the checks is all an append relies on -----

  /** The result of a call is one by its call id, and held. */
  ghost predicate ResultRight(c: Call, path: seq<Entry>) {
    c.result.Some? ==> c.result.value.it.callId == c.callId && ResultHeld(path, c.callId)
  }

  lemma ResultStep(path: seq<Entry>, e: Entry, i: nat)
    requires Distinct(path) && i < |FoldOf(path + [e]).calls|
    requires MentionOf(e).Names? ==> HoldsCall(path, MentionOf(e).target, MentionOf(e).callId)
    requires i < |FoldOf(path).calls| ==> ResultRight(FoldOf(path).calls[i], path)
    ensures ResultRight(FoldOf(path + [e]).calls[i], path + [e])
  {
    hide FoldOf, ResultHeld, OnOutput, OnDecision, OnDispatch;
    var f := FoldOf(path);
    FoldSnoc(path, e);
    var c := FoldOf(path + [e]).calls[i];
    ResultHeldSnoc(path, e, c.callId);
    if !IsCall(e) {
      EventShape(f, e);
      if Bears(f, MentionOf(e)) == Some(i) {
        NamedCall(path, e);
        ResultEvent(f.calls[i], e);
      }
    }
  }

  lemma ResultEvent(c: Call, e: Entry)
    ensures e.body.ResultBody? ==> OnEvent(c, e).result == Some(At(e.id, e.body.result))
    ensures !e.body.ResultBody? ==> OnEvent(c, e).result == c.result
  {}

  lemma NamedCall(path: seq<Entry>, e: Entry)
    requires Distinct(path) && MentionOf(e).Names? ==> HoldsCall(path, MentionOf(e).target, MentionOf(e).callId)
    requires Distinct(path)
    ensures MentionOf(e).Names? ==>
              var (f, m) := (FoldOf(path), MentionOf(e));
              m.target in f.byEntry && f.calls[f.byEntry[m.target]].callId == m.callId
  {
    hide FoldOf;
    FoldHolds(path);
    if MentionOf(e).Names? {
      var m := MentionOf(e);
      var j :| 0 <= j < |path| && IsCall(path[j]) && path[j].id == m.target && path[j].body.item.callId == m.callId;
    }
  }

  lemma {:induction false} ResultsRight(path: seq<Entry>)
    requires Distinct(path) && TargetsOk(path)
    ensures forall i | 0 <= i < |FoldOf(path).calls| :: ResultRight(FoldOf(path).calls[i], path)
  {
    if path != [] {
      hide FoldOf, ResultRight, HoldsCall;
      var (n, e) := (|path| - 1, path[|path| - 1]);
      TargetsPrefix(path, n);
      ResultsRight(path[..n]);
      assert path == path[..n] + [e];
      forall i | 0 <= i < |FoldOf(path).calls| ensures ResultRight(FoldOf(path).calls[i], path) {
        ResultStep(path[..n], e, i);
      }
    }
  }

  lemma TargetsPrefix(path: seq<Entry>, n: nat)
    requires TargetsOk(path) && n <= |path|
    ensures TargetsOk(path[..n])
  {
    hide HoldsCall;
    assert forall i | 0 <= i < n :: path[..n][..i] == path[..i] && path[..n][i] == path[i];
  }

  /** What the checks find nothing wrong with is what an append relies on. */
  lemma CleanIsInv(h: Header, prefix: set<Id>, es: seq<Entry>, path: seq<Entry>)
    requires Distinct(path) && Within(path, es)
    ensures PathClean(h, prefix, es, path) <==> PathInv(h, prefix, es, path)
  {
    hide FoldOf, TargetsOk, CopiedOk, ResultHeld, Owed, Within;
    if PathInv(h, prefix, es, path) {
      InvClean(h, prefix, es, path);
    }
    if PathClean(h, prefix, es, path) {
      ResultsRight(path);
      forall i | 0 <= i < |FoldOf(path).calls| ensures CallInv(h, prefix, es, path, FoldOf(path).calls[i]) {
        var c := FoldOf(path).calls[i];
        assert c in FoldOf(path).calls && ResultRight(c, path);
        if ResultHeld(path, c.callId) {
          ResultStays(path, es, c.callId);
        }
      }
    }
  }

  lemma VerifiesKeeps(h: Header, prefix: set<Id>, es: seq<Entry>)
    requires Wf(h.id, es)
    ensures Verifies(h, prefix, es) <==> Keeps(h, prefix, es)
  {
    hide Wf, PathTo, PathClean, PathInv;
    forall id ensures PathClean(h, prefix, es, PathTo(es, id)) <==> PathInv(h, prefix, es, PathTo(es, id)) {
      PathIsChain(h.id, es, id);
      PathWithin(es, id);
      CleanIsInv(h, prefix, es, PathTo(es, id));
    }
  }

  // ----- a log that holds more -----

  /** An entry's path is the same in any log that holds it, whatever the order. */
  lemma {:induction false} PathSame(session: string, es: seq<Entry>, more: seq<Entry>, i: nat, k: nat)
    requires Wf(session, es) && Wf(session, more) && Within(es, more)
    requires i < |es| && k < |more| && more[k] == es[i]
    ensures PathTo(more[..k], es[i].parent) == PathTo(es[..i], es[i].parent)
    decreases i
  {
    hide Wf, PathTo, Within, RefsOk;
    var parent := es[i].parent;
    Reader.FitsAt(session, es, i);
    Reader.FitsAt(session, more, k);
    WfPrefix(session, es, i);
    WfPrefix(session, more, k);
    if parent == ROOT {
      ValidIds(session, es[..i]);
      ValidIds(session, more[..k]);
      PathNowhere(es[..i], ROOT);
      PathNowhere(more[..k], ROOT);
    } else {
      var j := EntryAt(es[..i], parent);
      var m := EntryAt(more[..k], parent);
      SameEntry(session, es, more, j, m);
      PathSame(session, es, more, j, m);
      PathThere(session, es, i, j);
      PathThere(session, more, k, m);
    }
  }

  lemma EntryAt(es: seq<Entry>, id: Id) returns (j: nat)
    requires id in Ids(es)
    ensures j < |es| && es[j].id == id
  {
    j :| j < |es| && es[j].id == id;
  }

  lemma SameEntry(session: string, es: seq<Entry>, more: seq<Entry>, j: nat, m: nat)
    requires Wf(session, more) && Within(es, more) && j < |es| && m < |more| && es[j].id == more[m].id
    ensures es[j] == more[m]
  {
    WfUnique(session, more);
    assert es[j] in more;
    var k :| 0 <= k < |more| && more[k] == es[j];
  }

  lemma PathThere(session: string, es: seq<Entry>, i: nat, j: nat)
    requires Wf(session, es) && j < i <= |es|
    ensures PathTo(es[..i], es[j].id) == PathTo(es[..j], es[j].parent) + [es[j]]
  {
    hide Wf, PathTo;
    WfPrefix(session, es, i);
    assert es[..i][j] == es[j] && es[..i][..j] == es[..j];
    Reader.PathAt(session, es[..i], j);
  }

  lemma PathHeld(session: string, es: seq<Entry>, more: seq<Entry>, i: nat)
    requires Wf(session, es) && Wf(session, more) && Within(es, more) && i < |es|
    ensures PathTo(more, es[i].id) == PathTo(es, es[i].id)
  {
    hide Wf, PathTo;
    assert es[i] in more;
    var k :| 0 <= k < |more| && more[k] == es[i];
    PathSame(session, es, more, i, k);
    Reader.PathAt(session, es, i);
    Reader.PathAt(session, more, k);
  }

  /** A dispatch that stands for its call does so in the wider log: the call
      is on its path, and so before it in any order. */
  lemma DispatchStays(session: string, es: seq<Entry>, more: seq<Entry>, target: Id, path: seq<Entry>)
    requires Wf(session, es) && Wf(session, more) && Within(es, more)
    requires DispatchedOff(es, target, path) && forall id :: TargetsOk(PathTo(es, id))
    ensures DispatchedOff(more, target, path)
  {
    hide Wf, PathTo, HoldsCall, TargetsOk;
    var n: nat :| DispatchAt(es, n, target) && es[n].id !in Ids(path);
    assert es[n] in more;
    var k: nat :| k < |more| && more[k] == es[n];
    PathSame(session, es, more, n, k);
    Reader.PathAt(session, es, n);
    var q := PathTo(es[..n], es[n].parent);
    LastTarget(q, es[n]);
    PathWithin(more[..k], es[n].parent);
    HoldsWithin(q, more[..k], target, es[n].body.dispatch.callId);
    assert DispatchAt(more, k, target);
  }

  lemma LastTarget(q: seq<Entry>, e: Entry)
    requires TargetsOk(q + [e]) && e.body.DispatchBody?
    ensures HoldsCall(q, e.body.dispatch.target, e.body.dispatch.callId)
  {
    hide HoldsCall;
    var p := q + [e];
    assert p[|q|] == e && p[..|q|] == q;
  }

  lemma HoldsWithin(q: seq<Entry>, es: seq<Entry>, target: Id, k: string)
    requires HoldsCall(q, target, k) && forall i | 0 <= i < |q| :: q[i] in es
    ensures HoldsCall(es, target, k)
  {
    var i :| 0 <= i < |q| && IsCall(q[i]) && q[i].id == target && q[i].body.item.callId == k;
    var j :| 0 <= j < |es| && es[j] == q[i];
  }

  lemma ResultStays(es: seq<Entry>, more: seq<Entry>, k: string)
    requires Within(es, more) && ResultHeld(es, k)
    ensures ResultHeld(more, k)
  {
    var i :| 0 <= i < |es| && es[i].body.ResultBody? && es[i].body.result.callId == k;
    assert es[i] in more;
    var j :| 0 <= j < |more| && more[j] == es[i];
  }

  /** What one log's path passes, it passes in a log that holds more. */
  lemma InvStays(h: Header, prefix: set<Id>, es: seq<Entry>, more: seq<Entry>, id: Id)
    requires Wf(h.id, es) && Wf(h.id, more) && Within(es, more) && Keeps(h, prefix, es)
    ensures PathInv(h, prefix, more, PathTo(es, id))
  {
    hide Wf, Within, FoldOf, PathTo, DispatchedOff, ResultHeld, TargetsOk, CopiedOk;
    var path := PathTo(es, id);
    assert PathInv(h, prefix, es, path);
    forall x ensures TargetsOk(PathTo(es, x)) {
      assert PathInv(h, prefix, es, PathTo(es, x));
    }
    forall i | 0 <= i < |FoldOf(path).calls| ensures CallInv(h, prefix, more, path, FoldOf(path).calls[i]) {
      var c := FoldOf(path).calls[i];
      assert CallInv(h, prefix, es, path, c);
      if ResultHeld(es, c.callId) {
        ResultStays(es, more, c.callId);
      }
      if DispatchedOff(es, c.entry, path) {
        DispatchStays(h.id, es, more, c.entry, path);
      }
    }
  }

  /** Two logs over one prefix, every path of each passing the checks on its
      calls, merge into one of which the same holds. */
  lemma MergeKeepsRecords(h: Copy, b: Copy, o: Options)
    requires h.header == b.header && h.prefix == b.prefix && Exchange.Agree(h.All(), b.All())
    requires Wf(h.header.id, h.All()) && Wf(h.header.id, b.All())
    requires Verifies(h.header, Ids(h.prefix), h.All()) && Verifies(h.header, Ids(h.prefix), b.All())
    ensures Verifies(h.header, Ids(h.prefix), Received(Some(h), b, o).0.value.All())
  {
    hide Wf, Received, Verifies, Keeps;
    HeadsMoveRight(h, b, o);
    VerifiesKeeps(h.header, Ids(h.prefix), h.All());
    VerifiesKeeps(h.header, Ids(h.prefix), b.All());
    MergeKeepsTree(h, b, o);
    MergeKeeps(h, b, o);
    VerifiesKeeps(h.header, Ids(h.prefix), Received(Some(h), b, o).0.value.All());
  }

  lemma MergeKeeps(h: Copy, b: Copy, o: Options)
    requires h.header == b.header && h.prefix == b.prefix && Exchange.Agree(h.All(), b.All())
    requires Wf(h.header.id, h.All()) && Wf(h.header.id, b.All())
    requires Keeps(h.header, Ids(h.prefix), h.All()) && Keeps(h.header, Ids(h.prefix), b.All())
    ensures Keeps(h.header, Ids(h.prefix), Received(Some(h), b, o).0.value.All())
  {
    hide Wf, Received, PathInv;
    var (c, a) := Received(Some(h), b, o);
    MergeKeepsTree(h, b, o);
    AgreesWithItself(h.header.id, b.All());
    assert forall e | e in h.own :: e in h.All();
    assert forall e | e in b.own :: e in b.All();
    MergeIsUnion(h, b, o);
    if !a.Refused? {
      var all := c.value.All();
      Joins(h, b, c.value);
      forall id ensures PathInv(h.header, Ids(h.prefix), all, PathTo(all, id)) {
        EitherPath(h.header, Ids(h.prefix), h.All(), b.All(), all, id);
      }
    }
  }

  lemma AgreesWithItself(session: string, es: seq<Entry>)
    requires Wf(session, es)
    ensures Exchange.Agree(es, es)
  {
    WfUnique(session, es);
  }

  lemma Joins(h: Copy, b: Copy, c: Copy)
    requires h.prefix == b.prefix == c.prefix && Held(c.own) == Held(h.own) + Held(b.own)
    ensures Within(h.All(), c.All()) && Within(b.All(), c.All()) && forall e | e in c.All() :: e in h.All() || e in b.All()
  {
    forall e | e in h.All() || e in b.All() ensures e in c.All() {
      if e !in h.prefix {
        assert e in Held(h.own) + Held(b.own);
      }
    }
    forall e | e in c.All() ensures e in h.All() || e in b.All() {
      if e !in c.prefix {
        assert e in Held(c.own);
      }
    }
  }

  lemma EitherPath(h: Header, prefix: set<Id>, a: seq<Entry>, b: seq<Entry>, all: seq<Entry>, id: Id)
    requires Wf(h.id, a) && Wf(h.id, b) && Wf(h.id, all) && Within(a, all) && Within(b, all)
    requires forall e | e in all :: e in a || e in b
    requires Keeps(h, prefix, a) && Keeps(h, prefix, b)
    ensures PathInv(h, prefix, all, PathTo(all, id))
  {
    hide Wf, Within, PathInv, PathTo, Keeps;
    if id in Ids(a) {
      var i := EntryAt(a, id);
      PathHeld(h.id, a, all, i);
      InvStays(h, prefix, a, all, id);
    } else if id in Ids(b) {
      var i := EntryAt(b, id);
      PathHeld(h.id, b, all, i);
      InvStays(h, prefix, b, all, id);
    } else {
      NowhereHeld(a, b, all, id);
      PathNowhere(all, id);
      PathNowhere(a, id);
      InvStays(h, prefix, a, all, id);
    }
  }

  lemma NowhereHeld(a: seq<Entry>, b: seq<Entry>, all: seq<Entry>, id: Id)
    requires (forall e | e in all :: e in a || e in b) && id !in Ids(a) && id !in Ids(b)
    ensures id !in Ids(all)
  {
    forall k | 0 <= k < |all| ensures all[k].id != id {
      assert all[k] in a || all[k] in b;
    }
  }

  // ----- a fork -----

  /** A path inside a path. */
  lemma {:induction false} PathInside(session: string, es: seq<Entry>, at: Id, i: nat)
    requires Wf(session, es) && i < |PathTo(es, at)|
    ensures PathTo(es, PathTo(es, at)[i].id) == PathTo(es, at)[..i + 1]
    decreases |es|
  {
    hide Wf;
    var n := |es| - 1;
    var path := PathTo(es, at);
    WfPrefix(session, es, n);
    if es[n].id == at {
      var q := PathTo(es[..n], es[n].parent);
      if i == |q| {
        assert path[..i + 1] == path;
      } else {
        PathInside(session, es[..n], es[n].parent, i);
        LastElsewhere(session, es, q[i].id, es[n].parent, i);
        assert path[..i + 1] == q[..i + 1];
      }
    } else {
      PathInside(session, es[..n], at, i);
      LastElsewhere(session, es, path[i].id, at, i);
    }
  }

  /** An id on a path before the last entry is another than its. */
  lemma LastElsewhere(session: string, es: seq<Entry>, id: Id, at: Id, i: nat)
    requires Wf(session, es) && es != []
    requires i < |PathTo(es[..|es| - 1], at)| && PathTo(es[..|es| - 1], at)[i].id == id
    ensures es[|es| - 1].id != id
  {
    hide PathTo, RefsOk;
    var n := |es| - 1;
    PathWithin(es[..n], at);
    var p := PathTo(es[..n], at);
    var k :| 0 <= k < n && es[..n][k] == p[i];
    WfUnique(session, es);
  }

  /** No item of the path is copied from the session. */
  ghost predicate NotFrom(self: string, path: seq<Entry>) {
    forall i | 0 <= i < |path| && path[i].body.ItemBody? && path[i].body.copiedFrom.Some? ::
      path[i].body.copiedFrom.value.session != self
  }

  lemma CopiedUnder(self: string, fork: string, path: seq<Entry>)
    requires CopiedOk(self, path)
    ensures CopiedOk(fork, path) <==> NotFrom(fork, path)
  {
    hide FoldOf;
    if CopiedOk(fork, path) {
      forall i | 0 <= i < |path| && path[i].body.ItemBody? && path[i].body.copiedFrom.Some?
        ensures path[i].body.copiedFrom.value.session != fork
      {
        assert CopiedAt(fork, FoldOf(path[..i]), path[i]);
      }
    }
    if NotFrom(fork, path) {
      forall i | 0 <= i < |path| ensures CopiedAt(fork, FoldOf(path[..i]), path[i]) {
        assert CopiedAt(self, FoldOf(path[..i]), path[i]);
      }
    }
  }

  /** What passes in the origin passes in a fork that shares it, nothing being
      owed of the prefix, exactly when none of it is copied from the fork. */
  lemma PathUnder(h: Header, prefix: set<Id>, es: seq<Entry>, f: Header, all: seq<Entry>, path: seq<Entry>)
    requires PathClean(h, prefix, es, path) && Within(path, all) && Distinct(path)
    ensures PathClean(f, Ids(all), all, path) <==> NotFrom(f.id, path)
  {
    hide TargetsOk, CopiedOk, NotFrom, DispatchedOff, Within;
    CopiedUnder(h.id, f.id, path);
    forall i | 0 <= i < |FoldOf(path).calls| ensures CallFlawIn(f, Ids(all), all, path, FoldOf(path).calls[i]) in {None, Some(RecordMissing)} {
      var c := FoldOf(path).calls[i];
      assert c in FoldOf(path).calls && CallFlawIn(h, prefix, es, path, c) in {None, Some(RecordMissing)};
      CallInside(path, i);
      IdsWithin(path, all);
    }
  }

  lemma CallInside(path: seq<Entry>, i: nat)
    requires Distinct(path) && i < |FoldOf(path).calls|
    ensures FoldOf(path).calls[i].entry in Ids(path)
  {
    var j := FoldFrom(path, i);
  }

  lemma IdsWithin(path: seq<Entry>, all: seq<Entry>)
    requires Within(path, all)
    ensures Ids(path) <= Ids(all)
  {
    forall k | 0 <= k < |path| ensures path[k].id in Ids(all) {
      assert path[k] in all;
    }
  }

  /** Each path of a fork is the start of its prefix. */
  lemma ForkPaths(session: string, fork: string, es: seq<Entry>, at: Id, id: Id)
    requires Wf(session, es) && Wf(fork, PathTo(es, at))
    ensures var p := PathTo(es, at);
            PathTo(p, id) == [] || exists i :: 0 <= i < |p| && PathTo(p, id) == PathTo(es, p[i].id) == p[..i + 1]
  {
    hide Wf, PathTo, Ids;
    var p := PathTo(es, at);
    if id in Ids(p) {
      var i := EntryAt(p, id);
      PathInside(session, es, at, i);
      PathIsChain(session, es, at);
      ChainPrefix(p, i + 1);
      Reader.ChainPath(fork, p, i + 1);
      HeldBefore(p, i);
      Reader.PathPrefix(fork, p, i + 1, id);
    } else {
      PathNowhere(p, id);
    }
  }

  lemma ChainPrefix(p: seq<Entry>, n: nat)
    requires IsChain(p) && n <= |p|
    ensures IsChain(p[..n])
  {}

  lemma HeldBefore(p: seq<Entry>, i: nat)
    requires i < |p|
    ensures p[i].id in Ids(p[..i + 1])
  {
    assert p[..i + 1][i] == p[i];
  }

  lemma PathIds(session: string, es: seq<Entry>, at: Id)
    requires Wf(session, es) && CallIdsOk(es) && SpawnIdsOk(es)
    ensures CallIdsOk(PathTo(es, at)) && SpawnIdsOk(PathTo(es, at))
  {
    hide PathTo, Wf;
    var p := PathTo(es, at);
    PathCallIds(session, es, at);
    PathWithin(es, at);
    PathIsChain(session, es, at);
    WfUnique(session, es);
    forall i | 0 <= i < |p| ensures p[i] in es {}
    forall i, j | 0 <= i < j < |p| && IsSpawn(p[i]) && IsSpawn(p[j])
      ensures p[i].body.link.spawnId != p[j].body.link.spawnId
    {
      var a :| 0 <= a < |es| && es[a] == p[i];
      var b :| 0 <= b < |es| && es[b] == p[j];
      assert a != b;
      assert if a < b then es[a].body.link.spawnId != es[b].body.link.spawnId else es[b].body.link.spawnId != es[a].body.link.spawnId;
    }
  }

  /** A fork of a session all of whose paths pass the checks is one too,
      exactly when its prefix names by the fork's id only what it holds and
      copies nothing from it. */
  lemma ForkKeepsRecords(h: Header, st: State, at: Id, f: Header)
    requires SessionInv(h, st) && at in Ids(st.entries) && Reader.StandsAlone(PathTo(st.entries, at))
    ensures var p := PathTo(st.entries, at);
            SessionInv(f, State(Ids(p), p, at)) <==> Reader.NamesHeld(f.id, p) && NotFrom(f.id, p)
  {
    hide Wf, PathTo, PathInv, CallIdsOk, SpawnIdsOk, NotFrom, Reader.NamesHeld, Reader.StandsAlone;
    var (es, p) := (st.entries, PathTo(st.entries, at));
    Reader.ForkIsTree(h.id, es, at, f.id);
    PathIds(h.id, es, at);
    if Wf(f.id, p) {
      PathIsChain(h.id, es, at);
      WholePath(h.id, es, at);
      forall id ensures NotFrom(f.id, p) ==> PathInv(f, Ids(p), p, PathTo(p, id)) {
        ForkPath(h, st, at, f, id);
      }
      ForkPath(h, st, at, f, at);
      Reader.ChainPath(f.id, p, |p|);
      assert p[..|p|] == p;
      assert PathTo(p, at) == p;
    }
  }

  lemma WholePath(session: string, es: seq<Entry>, at: Id)
    requires Wf(session, es) && at in Ids(es)
    ensures PathTo(es, at) != [] && PathTo(es, at)[|PathTo(es, at)| - 1].id == at
  {
    PathIsChain(session, es, at);
  }

  lemma ForkPath(h: Header, st: State, at: Id, f: Header, id: Id)
    requires SessionInv(h, st) && Wf(f.id, PathTo(st.entries, at))
    ensures var p := PathTo(st.entries, at);
            && (NotFrom(f.id, p) ==> PathInv(f, Ids(p), p, PathTo(p, id)))
            && (PathInv(f, Ids(p), p, PathTo(p, id)) ==> NotFrom(f.id, PathTo(p, id)))
  {
    hide Wf, PathTo, PathInv, PathClean, CallIdsOk, SpawnIdsOk;
    var (es, p) := (st.entries, PathTo(st.entries, at));
    var q := PathTo(p, id);
    ForkPaths(h.id, f.id, es, at, id);
    assert PathInv(h, st.prefix, es, q) by {
      if q == [] {
        assert PathInv(h, st.prefix, es, PathTo(es, ROOT_MARK));
        Marked(h.id, es);
      } else {
        var i :| 0 <= i < |p| && q == PathTo(es, p[i].id) == p[..i + 1];
        assert PathInv(h, st.prefix, es, PathTo(es, p[i].id));
      }
    }
    InvClean(h, st.prefix, es, q);
    PathIsChain(f.id, p, id);
    PathWithin(p, id);
    PathUnder(h, st.prefix, es, f, p, q);
    CleanIsInv(f, Ids(p), p, q);
    assert NotFrom(f.id, p) ==> NotFrom(f.id, q);
  }

  lemma Marked(session: string, es: seq<Entry>)
    requires Wf(session, es)
    ensures PathTo(es, ROOT_MARK) == []
  {
    ValidIds(session, es);
    PathNowhere(es, ROOT_MARK);
  }

  /** And however it grows from there. */
  lemma GrownForksVerify(h: Header, hash: Hash, st: State, at: Id, f: Header, ops: seq<Op>, id: Id)
    requires HashOk(hash) && SessionInv(h, st) && at in Ids(st.entries) && Reader.StandsAlone(PathTo(st.entries, at))
    requires Reader.NamesHeld(f.id, PathTo(st.entries, at)) && NotFrom(f.id, PathTo(st.entries, at))
    ensures var now := RunFrom(f, hash, State(Ids(PathTo(st.entries, at)), PathTo(st.entries, at), at), ops);
            && CallIdsOk(now.entries) && SpawnIdsOk(now.entries)
            && PathClean(f, now.prefix, now.entries, PathTo(now.entries, id))
  {
    hide PathTo, PathInv, PathClean, Wf, CallIdsOk, SpawnIdsOk, RunFrom, NotFrom, Reader.NamesHeld, Reader.StandsAlone;
    var p := PathTo(st.entries, at);
    ForkKeepsRecords(h, st, at, f);
    GrownInv(f, hash, State(Ids(p), p, at), ops);
    var now := RunFrom(f, hash, State(Ids(p), p, at), ops);
    InvClean(f, now.prefix, now.entries, PathTo(now.entries, id));
  }
}

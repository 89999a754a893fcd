/** The tree the entries of a session form, and the rules that keep it one:
    parents and convergence references name earlier entries, and a session
    with a base hangs everything it writes from the base. */
module Tree {
  import opened Entries

  ghost function Ids(es: seq<Entry>): set<Id> {
    set i | 0 <= i < |es| :: es[i].id
  }

  lemma IdsSnoc(es: seq<Entry>, e: Entry)
    ensures Ids(es + [e]) == Ids(es) + {e.id}
  {
    var all := es + [e];
    assert all[|es|] == e;
    assert forall i | 0 <= i < |es| :: all[i] == es[i];
    assert forall id | id in Ids(es) :: exists i :: 0 <= i < |es| && all[i].id == id;
  }

  lemma IdsSplit(es: seq<Entry>)
    requires es != []
    ensures Ids(es) == Ids(es[..|es| - 1]) + {es[|es| - 1].id}
  {
    assert es == es[..|es| - 1] + [es[|es| - 1]];
    IdsSnoc(es[..|es| - 1], es[|es| - 1]);
  }

  lemma IdsPrefix(es: seq<Entry>, m: nat, n: nat)
    requires m <= n <= |es|
    ensures Ids(es[..m]) <= Ids(es[..n])
  {
    forall id | id in Ids(es[..m]) ensures id in Ids(es[..n]) {
      var i :| 0 <= i < m && es[..m][i].id == id;
      assert es[..n][i].id == id;
    }
  }

  // ----- convergence references -----

  /** A reference in the session's own terms: its own id is spelled as none. */
  function Local(session: string, r: Ref): Ref {
    if r.session == session then Ref("", r.entry) else r
  }

  ghost predicate RefsOk(parent: Id, session: string, refs: seq<Ref>, ids: set<Id>) {
    && (forall i | 0 <= i < |refs| :: refs[i].entry != "")
    && (forall i, j | 0 <= i < j < |refs| :: Local(session, refs[i]) != Local(session, refs[j]))
    && (forall i | 0 <= i < |refs| && Local(session, refs[i]).session == "" ::
          refs[i].entry != parent && refs[i].entry in ids)
  }

  method CheckRefs(parent: Id, session: string, refs: seq<Ref>, ids: set<Id>) returns (ok: bool)
    ensures ok == RefsOk(parent, session, refs, ids)
  {
    var seen: set<Ref> := {};
    for n := 0 to |refs|
      invariant seen == set i | 0 <= i < n :: Local(session, refs[i])
      invariant RefsOk(parent, session, refs[..n], ids)
    {
      var r := Local(session, refs[n]);
      if r.entry == "" || r in seen || (r.session == "" && (r.entry == parent || r.entry !in ids)) {
        return false;
      }
      seen := seen + {r};
    }
    assert refs[..|refs|] == refs;
    return true;
  }

  // ----- the tree -----

  /** e may follow es: a new id, and every in-session edge points back. */
  ghost predicate Fits(session: string, es: seq<Entry>, e: Entry) {
    && ValidId(e.id)
    && e.id !in Ids(es)
    && (e.parent == ROOT || e.parent in Ids(es))
    && RefsOk(e.parent, session, e.parents, Ids(es))
  }

  /** File order is a topological order of the tree and the convergence edges. */
  ghost predicate Wf(session: string, es: seq<Entry>) {
    forall i | 0 <= i < |es| :: Fits(session, es[..i], es[i])
  }

  lemma WfSnoc(session: string, es: seq<Entry>, e: Entry)
    requires Wf(session, es) && Fits(session, es, e)
    ensures Wf(session, es + [e])
  {
    var all := es + [e];
    forall i | 0 <= i < |all| ensures Fits(session, all[..i], all[i]) {
      if i < |es| {
        assert all[..i] == es[..i];
      } else {
        assert all[..i] == es;
      }
    }
  }

  lemma WfPrefix(session: string, es: seq<Entry>, n: nat)
    requires Wf(session, es) && n <= |es|
    ensures Wf(session, es[..n])
  {
    forall i | 0 <= i < n ensures Fits(session, es[..n][..i], es[..n][i]) {
      assert es[..n][..i] == es[..i];
    }
  }

  lemma WfUnique(session: string, es: seq<Entry>)
    requires Wf(session, es)
    ensures forall i, j | 0 <= i < j < |es| :: es[i].id != es[j].id
  {
    forall i, j | 0 <= i < j < |es| ensures es[i].id != es[j].id {
      assert Fits(session, es[..j], es[j]);
      assert es[..j][i].id in Ids(es[..j]);
    }
  }

  /** The path to id, the first entry first, and nothing for an id the
      entries do not hold. */
  function PathTo(es: seq<Entry>, id: Id): seq<Entry> {
    if es == [] then []
    else
      var n := |es| - 1;
      if es[n].id == id then PathTo(es[..n], es[n].parent) + [es[n]] else PathTo(es[..n], id)
  }

  lemma PathSnoc(es: seq<Entry>, e: Entry, id: Id)
    ensures PathTo(es + [e], id) == if id == e.id then PathTo(es, e.parent) + [e] else PathTo(es, id)
  {
    assert (es + [e])[..|es|] == es;
  }

  lemma {:induction false} PathNowhere(es: seq<Entry>, id: Id)
    requires id !in Ids(es)
    ensures PathTo(es, id) == []
  {
    if es != [] {
      IdsSplit(es);
      PathNowhere(es[..|es| - 1], id);
    }
  }

  lemma {:induction false} PathWithin(es: seq<Entry>, id: Id)
    ensures forall i | 0 <= i < |PathTo(es, id)| :: PathTo(es, id)[i] in es
    ensures Ids(PathTo(es, id)) <= Ids(es)
    ensures |PathTo(es, id)| <= |es|
  {
    if es != [] {
      var n := |es| - 1;
      PathWithin(es[..n], if es[n].id == id then es[n].parent else id);
      forall i | 0 <= i < |PathTo(es, id)| ensures PathTo(es, id)[i] in es {
      }
    }
    var p := PathTo(es, id);
    forall x | x in Ids(p) ensures x in Ids(es) {
      var i :| 0 <= i < |p| && p[i].id == x;
      var k :| 0 <= k < |es| && es[k] == p[i];
    }
  }

  /** A path is a chain from a first entry down to id. */
  ghost predicate IsChain(p: seq<Entry>) {
    && (p != [] ==> p[0].parent == ROOT)
    && forall i | 0 < i < |p| :: p[i].parent == p[i - 1].id
  }

  ghost predicate Distinct(p: seq<Entry>) {
    forall i, j | 0 <= i < j < |p| :: p[i].id != p[j].id
  }

  lemma LastDistinct(p: seq<Entry>)
    requires Distinct(p) && p != []
    ensures Distinct(p[..|p| - 1]) && p[|p| - 1].id !in Ids(p[..|p| - 1])
  {
    var n := |p| - 1;
    forall i | 0 <= i < n ensures p[..n][i].id != p[n].id {
    }
  }

  lemma ChainSnoc(p: seq<Entry>, e: Entry)
    requires IsChain(p) && Distinct(p) && e.id !in Ids(p)
    requires e.parent == if p == [] then ROOT else p[|p| - 1].id
    ensures IsChain(p + [e]) && Distinct(p + [e])
  {
    forall i | 0 <= i < |p| ensures p[i].id != e.id {
      assert p[i].id in Ids(p);
    }
  }

  /** path terminates at the root: every entry hangs, link by link, from a
      first entry, each id once. */
  lemma {:induction false} PathIsChain(session: string, es: seq<Entry>, id: Id)
    requires Wf(session, es)
    ensures IsChain(PathTo(es, id)) && Distinct(PathTo(es, id))
    ensures id in Ids(es) ==> PathTo(es, id) != [] && PathTo(es, id)[|PathTo(es, id)| - 1].id == id
  {
    if es != [] {
      var n := |es| - 1;
      var last := es[n];
      IdsSplit(es);
      WfPrefix(session, es, n);
      assert Fits(session, es[..n], last);
      if last.id == id {
        PathIsChain(session, es[..n], last.parent);
        PathWithin(es[..n], last.parent);
        if last.parent == ROOT {
          ValidIds(session, es[..n]);
          PathNowhere(es[..n], ROOT);
        }
        ChainSnoc(PathTo(es[..n], last.parent), last);
      } else {
        PathIsChain(session, es[..n], id);
      }
    }
  }

  lemma ValidIds(session: string, es: seq<Entry>)
    requires Wf(session, es)
    ensures forall id | id in Ids(es) :: ValidId(id)
  {
    forall id | id in Ids(es) ensures ValidId(id) {
      var i :| 0 <= i < |es| && es[i].id == id;
      assert Fits(session, es[..i], es[i]);
    }
  }

  /** The map a session keeps from id to entry. */
  ghost function Index(es: seq<Entry>): map<Id, Entry> {
    if es == [] then map[] else Index(es[..|es| - 1])[es[|es| - 1].id := es[|es| - 1]]
  }

  lemma IndexSnoc(es: seq<Entry>, e: Entry)
    ensures Index(es + [e]) == Index(es)[e.id := e]
  {
    assert (es + [e])[..|es|] == es;
  }

  lemma {:induction false} IndexKeys(es: seq<Entry>)
    ensures Index(es).Keys == Ids(es)
    ensures forall id | id in Index(es) :: Index(es)[id].id == id && Index(es)[id] in es
  {
    if es != [] {
      IndexKeys(es[..|es| - 1]);
      IdsSplit(es);
    }
  }

  lemma {:induction false} IndexAt(session: string, es: seq<Entry>, i: nat)
    requires Wf(session, es) && i < |es|
    ensures es[i].id in Index(es) && Index(es)[es[i].id] == es[i]
  {
    var n := |es| - 1;
    if i < n {
      WfPrefix(session, es, n);
      WfUnique(session, es);
      IndexAt(session, es[..n], i);
    }
  }

  /** One step up a path, as a walk over the index takes it. */
  lemma {:induction false} PathStep(session: string, es: seq<Entry>, id: Id)
    requires Wf(session, es) && id in Ids(es)
    ensures id in Index(es)
    ensures PathTo(es, id) == PathTo(es, Index(es)[id].parent) + [Index(es)[id]]
    decreases |es|
  {
    var n := |es| - 1;
    var last := es[n];
    IdsSplit(es);
    WfPrefix(session, es, n);
    assert Fits(session, es[..n], last);
    if last.id == id {
      assert last.parent != id;
    } else {
      PathStep(session, es[..n], id);
      IndexKeys(es[..n]);
      var e := Index(es[..n])[id];
      var i :| 0 <= i < n && es[..n][i] == e;
      assert Fits(session, es[..i], es[i]);
      IdsPrefix(es, i, n);
      assert e.parent != last.id;
    }
  }


  // ----- places on a path -----

  /** Places in order, all below n. */
  ghost predicate Rising(at: seq<nat>, n: nat) {
    && (forall i | 0 <= i < |at| :: at[i] < n)
    && (forall i, j | 0 <= i < j < |at| :: at[i] < at[j])
  }

  lemma RisingWithin(at: seq<nat>, n: nat)
    requires Rising(at, n)
    ensures forall i | 0 <= i < |at| :: at[i] < n
    ensures forall i, j | 0 <= i < j < |at| :: at[i] < at[j]
  {}

  lemma RisingSnoc(at: seq<nat>, n: nat)
    requires Rising(at, n)
    ensures Rising(at, n + 1) && Rising(at + [n], n + 1)
  {
    var more := at + [n];
    forall i, j | 0 <= i < j < |more| ensures more[i] < more[j] {
      assert more[i] == at[i];
      assert j < |at| ==> more[j] == at[j];
    }
  }
}

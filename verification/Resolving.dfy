/** Where the lines of a session resolve, told from where its labels and
    entries stand. */
module Resolving {
  import opened Entries
  import opened Tree
  import opened Leaf

  // ----- the mark in force -----

  /** The leaf label at k is in force after n lines: it names what a leaf may
      rest on, and no such label, nor one that clears its target, comes after. */
  ghost predicate MarkAt(base: Id, prefix: set<Id>, all: seq<Entry>, k: nat, n: nat) {
    && k < n <= |all| && InForce(base, prefix, all, all[k])
    && forall j | k < j < n :: !InForce(base, prefix, all, all[j]) && !(IsNullLabel(all[j]) && all[j].body.target == all[k].body.target)
  }

  lemma MarkOn(base: Id, prefix: set<Id>, all: seq<Entry>, k: nat, n: nat)
    requires n < |all|
    ensures MarkAt(base, prefix, all, k, n + 1) <==>
              if k == n then InForce(base, prefix, all, all[n])
              else MarkAt(base, prefix, all, k, n) && !InForce(base, prefix, all, all[n]) && !(IsNullLabel(all[n]) && all[n].body.target == all[k].body.target)
  {
    hide MayRestOn;
  }

  lemma MarkKind(base: Id, prefix: set<Id>, all: seq<Entry>, k: nat, n: nat)
    requires MarkAt(base, prefix, all, k, n)
    ensures k < n <= |all| && IsLeafLabel(all[k]) && MayRestOn(base, prefix, all, all[k].body.target)
  {
    hide MayRestOn;
  }

  ghost predicate NoMark(base: Id, prefix: set<Id>, all: seq<Entry>, n: nat) {
    forall k: nat :: !MarkAt(base, prefix, all, k, n)
  }

  ghost predicate MarkedBy(all: seq<Entry>, k: nat, d: (Id, int)) {
    k < |all| && IsLeafLabel(all[k]) && d == (MarkOf(all[k].body.target), k)
  }

  /** The mark in force, and its line. */
  lemma {:induction false} MarkExactly(session: string, base: Id, prefix: set<Id>, all: seq<Entry>, n: nat)
    requires Wf(session, all) && n <= |all|
    ensures forall k: nat | MarkAt(base, prefix, all, k, n) :: MarkedBy(all, k, Durable(base, prefix, all, n))
    ensures NoMark(base, prefix, all, n) ==> Durable(base, prefix, all, n) == ("", -1)
    decreases n
  {
    if n > 0 {
      hide MayRestOn, MarkAt, NoMark, MarkedBy, Wf, Durable;
      var m := n - 1;
      MarkExactly(session, base, prefix, all, m);
      if NoMark(base, prefix, all, m) {
        NoMarkStep(session, base, prefix, all, m, n);
      } else {
        var k := SomeMark(base, prefix, all, m);
        MarkStep(session, base, prefix, all, m, n, k);
      }
    }
  }

  lemma SomeMark(base: Id, prefix: set<Id>, all: seq<Entry>, n: nat) returns (k: nat)
    requires !NoMark(base, prefix, all, n)
    ensures MarkAt(base, prefix, all, k, n)
  {
    k :| MarkAt(base, prefix, all, k, n);
  }

  lemma OneMark(base: Id, prefix: set<Id>, all: seq<Entry>, n: nat, k: nat)
    requires MarkAt(base, prefix, all, k, n)
    ensures forall j: nat | MarkAt(base, prefix, all, j, n) :: j == k
  {
    hide MayRestOn;
  }

  lemma NewMark(base: Id, prefix: set<Id>, all: seq<Entry>, n: nat, m: nat)
    requires n < |all| && m == n + 1 && InForce(base, prefix, all, all[n])
    ensures MarkAt(base, prefix, all, n, m) && MarkedBy(all, n, Durable(base, prefix, all, m))
  {
    hide MayRestOn;
  }

  lemma NoMarkStep(session: string, base: Id, prefix: set<Id>, all: seq<Entry>, n: nat, m: nat)
    requires Wf(session, all) && n < |all| && m == n + 1
    requires NoMark(base, prefix, all, n) && Durable(base, prefix, all, n) == ("", -1)
    ensures forall k: nat | MarkAt(base, prefix, all, k, m) :: MarkedBy(all, k, Durable(base, prefix, all, m))
    ensures NoMark(base, prefix, all, m) ==> Durable(base, prefix, all, m) == ("", -1)
  {
    hide MayRestOn, MarkAt, MarkedBy, Wf;
    if InForce(base, prefix, all, all[n]) {
      NewMark(base, prefix, all, n, m);
      OneMark(base, prefix, all, m, n);
    } else {
      forall k: nat ensures !MarkAt(base, prefix, all, k, m) {
        MarkOn(base, prefix, all, k, n);
      }
    }
  }

  lemma MarkStep(session: string, base: Id, prefix: set<Id>, all: seq<Entry>, n: nat, m: nat, k: nat)
    requires Wf(session, all) && n < |all| && m == n + 1
    requires MarkAt(base, prefix, all, k, n) && MarkedBy(all, k, Durable(base, prefix, all, n))
    ensures forall j: nat | MarkAt(base, prefix, all, j, m) :: MarkedBy(all, j, Durable(base, prefix, all, m))
    ensures NoMark(base, prefix, all, m) ==> Durable(base, prefix, all, m) == ("", -1)
  {
    hide MayRestOn, MarkAt, Wf;
    MarkKind(base, prefix, all, k, n);
    RestValid(session, base, prefix, all, all[k].body.target);
    OneMark(base, prefix, all, n, k);
    MarkOn(base, prefix, all, k, n);
    if InForce(base, prefix, all, all[n]) {
      NewMark(base, prefix, all, n, m);
      OneMark(base, prefix, all, m, n);
    } else {
      forall j: nat | MarkAt(base, prefix, all, j, m) ensures j == k {
        MarkOn(base, prefix, all, j, n);
      }
    }
  }

  // ----- the tip under it -----

  /** The entry at i is the last line after the mark's that hangs below it. */
  ghost predicate TipAt(all: seq<Entry>, mark: Id, at: int, i: nat, n: nat) {
    && at < i < n <= |all| && Below(all, mark, i)
    && forall j | i < j < n :: !Below(all, mark, j)
  }

  /** The mark is on the path to what the entry at i hangs from; the root is on
      every path. */
  ghost predicate Below(all: seq<Entry>, mark: Id, i: nat) {
    i < |all| && (mark == ROOT_MARK || all[i].parent == mark || mark in Ids(PathTo(all[..i], all[i].parent)))
  }

  lemma {:induction false} RootUnder(session: string, all: seq<Entry>, n: nat)
    requires Wf(session, all) && n <= |all|
    ensures ROOT in Under(all, ROOT_MARK, n) && Ids(all[..n]) <= Under(all, ROOT_MARK, n)
  {
    if n > 0 {
      hide RefsOk;
      RootUnder(session, all, n - 1);
      assert Fits(session, all[..n - 1], all[n - 1]);
      assert all[..n] == all[..n - 1] + [all[n - 1]];
      IdsSnoc(all[..n - 1], all[n - 1]);
    }
  }

  lemma ParentAt(session: string, all: seq<Entry>, i: nat)
    requires Wf(session, all) && i < |all|
    ensures all[i].parent == ROOT || all[i].parent in Ids(all[..i])
  {
    hide RefsOk;
    assert Fits(session, all[..i], all[i]);
  }

  lemma BelowIs(session: string, all: seq<Entry>, mark: Id, i: nat)
    requires Wf(session, all) && i < |all| && (mark == ROOT_MARK || ValidId(mark))
    ensures Below(all, mark, i) <==> all[i].parent in Under(all, mark, i)
  {
    hide Wf, RefsOk, PathTo;
    if mark == ROOT_MARK {
      RootUnder(session, all, i);
      ParentAt(session, all, i);
    } else {
      WfPrefix(session, all, i);
      UnderIsDescent(session, all[..i], mark, all[i].parent);
      UnderPrefix(all, mark, i, i);
    }
  }

  ghost predicate NoTip(all: seq<Entry>, mark: Id, at: int, n: nat) {
    forall i: nat :: !TipAt(all, mark, at, i, n)
  }

  lemma TipOn(all: seq<Entry>, mark: Id, at: int, n: nat, m: nat, i: nat)
    requires n < |all| && m == n + 1
    ensures TipAt(all, mark, at, i, m) <==> if i == n then at < n && Below(all, mark, n) else TipAt(all, mark, at, i, n) && !Below(all, mark, n)
  {
    hide Below;
  }

  /** The tip: the last such line, or the mark itself. */
  lemma {:induction false} TipExactly(session: string, all: seq<Entry>, mark: Id, at: int, n: nat)
    requires Wf(session, all) && n <= |all| && (mark == ROOT_MARK || ValidId(mark))
    ensures forall i: nat | TipAt(all, mark, at, i, n) :: i < |all| && Tip(all, mark, at, n) == all[i].id
    ensures NoTip(all, mark, at, n) ==> Tip(all, mark, at, n) == mark
    decreases n
  {
    if n > 0 {
      hide Wf, Below, Under, TipAt;
      var m := n - 1;
      TipExactly(session, all, mark, at, m);
      BelowIs(session, all, mark, m);
      forall i: nat
        ensures TipAt(all, mark, at, i, n) <==> if i == m then at < m && Below(all, mark, m) else TipAt(all, mark, at, i, m) && !Below(all, mark, m)
      {
        TipOn(all, mark, at, m, n, i);
      }
      assert TipAt(all, mark, at, m, n) <==> at < m && Below(all, mark, m);
      TipAfter(all, mark, at, m);
    }
  }

  lemma TipAfter(all: seq<Entry>, mark: Id, at: int, n: nat)
    ensures forall i: nat | TipAt(all, mark, at, i, n) :: at < i < n
  {}

  // ----- off the labels -----

  /** Of the path to an entry, the entry at i is the last that is no leaf
      label. */
  ghost predicate OffAt(p: seq<Entry>, i: nat) {
    i < |p| && !IsLeafLabel(p[i]) && forall j | i < j < |p| :: IsLeafLabel(p[j])
  }

  /** up is that entry, or the root when every entry is a label. */
  ghost predicate UpFrom(p: seq<Entry>, up: Id) {
    (exists i: nat :: OffIs(p, i, up)) || (up == ROOT && forall i: nat :: !OffAt(p, i))
  }

  ghost predicate OffIs(p: seq<Entry>, i: nat, up: Id) {
    OffAt(p, i) && i < |p| && up == p[i].id
  }

  lemma UpOn(p: seq<Entry>, e: Entry, up: Id)
    requires UpFrom(p, up)
    ensures UpFrom(p + [e], if IsLeafLabel(e) then up else e.id)
  {
    forall i: nat ensures OffAt(p + [e], i) <==> if i == |p| then !IsLeafLabel(e) else OffAt(p, i) && IsLeafLabel(e) {
      OffOn(p, e, i);
    }
    OffWithin(p);
    hide OffAt;
    if !IsLeafLabel(e) {
      assert OffIs(p + [e], |p|, e.id);
    } else if exists i: nat :: OffIs(p, i, up) {
      var i: nat :| OffIs(p, i, up);
      assert OffIs(p + [e], i, up);
    }
  }

  lemma {:induction false} WalkUpExactly(session: string, es: seq<Entry>, id: Id)
    requires Wf(session, es) && id in Ids(es)
    ensures UpFrom(PathTo(es, id), WalkUp(es, id))
  {
    hide RefsOk, UpFrom, OffAt;
    var n := |es| - 1;
    WfPrefix(session, es, n);
    IdsSplit(es);
    assert Fits(session, es[..n], es[n]);
    if es[n].id != id {
      WalkUpExactly(session, es[..n], id);
    } else {
      var p := PathTo(es[..n], es[n].parent);
      if es[n].parent == ROOT {
        ValidIds(session, es[..n]);
        PathNowhere(es[..n], ROOT);
        RootUp(es[..n]);
        NoneOff();
      } else {
        WalkUpExactly(session, es[..n], es[n].parent);
      }
      UpOn(p, es[n], WalkUp(es[..n], es[n].parent));
    }
  }

  lemma OffOn(p: seq<Entry>, e: Entry, i: nat)
    ensures OffAt(p + [e], i) <==> if i == |p| then !IsLeafLabel(e) else OffAt(p, i) && IsLeafLabel(e)
  {
    var more := p + [e];
    assert more[|p|] == e && forall j | 0 <= j < |p| :: more[j] == p[j];
  }

  lemma OffWithin(p: seq<Entry>)
    ensures forall i: nat | OffAt(p, i) :: i < |p|
  {}

  lemma NoneOff()
    ensures UpFrom([], ROOT)
  {}

  lemma {:induction false} RootUp(es: seq<Entry>)
    requires ROOT !in Ids(es)
    ensures WalkUp(es, ROOT) == ROOT
  {
    if es != [] {
      IdsSplit(es);
      RootUp(es[..|es| - 1]);
    }
  }

  // ----- what the lines resolve to -----

  /** Where a path to an entry leaves its labels, with the base standing in for
      what is above it. */
  ghost predicate RestsAt(base: Id, prefix: set<Id>, p: seq<Entry>, x: Id) {
    exists up :: UpFrom(p, up) && x == if base != ROOT && (up == ROOT || (up in prefix && up != base)) then base else up
  }

  lemma OffLabels(session: string, base: Id, prefix: set<Id>, es: seq<Entry>, id: Id)
    requires Wf(session, es) && (id in Ids(es) || id == ROOT)
    ensures RestsAt(base, prefix, PathTo(es, id), NotOnLabel(base, prefix, es, id))
  {
    hide Wf, UpFrom;
    if id == ROOT {
      ValidIds(session, es);
      PathNowhere(es, ROOT);
      RootUp(es);
      NoneOff();
    } else {
      WalkUpExactly(session, es, id);
    }
    assert UpFrom(PathTo(es, id), WalkUp(es, id));
  }

  /** With a mark in force the lines resolve to where the path to the last line
      below it leaves its labels, or to the marked entry when none came since;
      with none, to where the path to the last line does. */
  lemma ResolvesExactly(session: string, base: Id, prefix: set<Id>, es: seq<Entry>)
    requires Wf(session, es) && es != []
    ensures forall k: nat, i: nat | MarkAt(base, prefix, es, k, |es|) && TipAt(es, MarkOf(es[k].body.target), k, i, |es|) ::
              RestsAt(base, prefix, PathTo(es, es[i].id), Resolve(base, prefix, es))
    ensures forall k: nat | MarkAt(base, prefix, es, k, |es|) && NoTip(es, MarkOf(es[k].body.target), k, |es|) ::
              Resolve(base, prefix, es) == es[k].body.target
    ensures NoMark(base, prefix, es, |es|) ==>
              RestsAt(base, prefix, PathTo(es, es[|es| - 1].id), Resolve(base, prefix, es))
  {
    hide Wf, MayRestOn, MarkAt, TipAt, NoTip, NoMark, RestsAt, PathTo, NotOnLabel;
    MarkExactly(session, base, prefix, es, |es|);
    forall k: nat | MarkAt(base, prefix, es, k, |es|)
      ensures k < |es| && es[k].body.LabelBody?
      ensures forall i: nat | TipAt(es, MarkOf(es[k].body.target), k, i, |es|) :: i < |es| && RestsAt(base, prefix, PathTo(es, es[i].id), Resolve(base, prefix, es))
      ensures NoTip(es, MarkOf(es[k].body.target), k, |es|) ==> Resolve(base, prefix, es) == es[k].body.target
    {
      MarkedResolves(session, base, prefix, es, k);
    }
    if NoMark(base, prefix, es, |es|) {
      OffLabels(session, base, prefix, es, es[|es| - 1].id);
    }
  }

  lemma MarkedResolves(session: string, base: Id, prefix: set<Id>, es: seq<Entry>, k: nat)
    requires Wf(session, es) && MarkAt(base, prefix, es, k, |es|)
    ensures k < |es| && es[k].body.LabelBody?
    ensures forall i: nat | TipAt(es, MarkOf(es[k].body.target), k, i, |es|) :: i < |es| && RestsAt(base, prefix, PathTo(es, es[i].id), Resolve(base, prefix, es))
    ensures NoTip(es, MarkOf(es[k].body.target), k, |es|) ==> Resolve(base, prefix, es) == es[k].body.target
  {
    hide Wf, MayRestOn, TipAt, NoTip, RestsAt, PathTo, NotOnLabel;
    MarkKind(base, prefix, es, k, |es|);
    var t := es[k].body.target;
    MarkExactly(session, base, prefix, es, |es|);
    RestValid(session, base, prefix, es, t);
    TipExactly(session, es, MarkOf(t), k, |es|);
    TipWithin(session, es, MarkOf(t), k);
    forall i: nat | TipAt(es, MarkOf(t), k, i, |es|) ensures i < |es| && RestsAt(base, prefix, PathTo(es, es[i].id), Resolve(base, prefix, es)) {
      IsIn(session, es, i);
      OffLabels(session, base, prefix, es, es[i].id);
    }
    if NoTip(es, MarkOf(t), k, |es|) {
      RestStays(session, base, prefix, es, t);
    }
  }

  lemma TipWithin(session: string, es: seq<Entry>, mark: Id, at: int)
    ensures forall i: nat | TipAt(es, mark, at, i, |es|) :: i < |es|
  {}

  lemma IsIn(session: string, es: seq<Entry>, i: nat)
    requires Wf(session, es) && i < |es|
    ensures es[i].id in Ids(es) && ValidId(es[i].id)
  {
    ValidIds(session, es);
  }
}

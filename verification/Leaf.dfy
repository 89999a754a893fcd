/** Where a session continues: the leaf rule over the lines of a file, the
    state that keeps it line by line, and the labels a store of lines writes
    so that a crash never moves the head. */
module Leaf {
  import opened Entries
  import opened Tree

  /** A target as the mark it is kept as, and back. */
  function MarkOf(target: Id): Id {
    if target == ROOT then ROOT_MARK else target
  }

  function Unmark(m: Id): Id {
    if m == ROOT_MARK then ROOT else m
  }

  /** The leaf may rest on the root of a session with no base, and on the
      base or an own entry that is not a leaf label. */
  ghost predicate MayRestOn(base: Id, prefix: set<Id>, es: seq<Entry>, id: Id) {
    if id == ROOT then base == ROOT
    else
      && id in Index(es)
      && !(base != ROOT && id != base && id in prefix)
      && !IsLeafLabel(Index(es)[id])
  }

  /** The nearest ancestor, id itself included, that is no leaf label. */
  ghost function WalkUp(es: seq<Entry>, id: Id): Id {
    if es == [] then id
    else
      var n := |es| - 1;
      if es[n].id == id then (if IsLeafLabel(es[n]) then WalkUp(es[..n], es[n].parent) else id)
      else WalkUp(es[..n], id)
  }

  ghost function NotOnLabel(base: Id, prefix: set<Id>, es: seq<Entry>, id: Id): Id {
    var up := WalkUp(es, id);
    if base != ROOT && (up == ROOT || (up in prefix && up != base)) then base else up
  }

  // ----- the rule over all lines -----

  /** The mark in force after the first n lines of all, and its line. */
  ghost function Durable(base: Id, prefix: set<Id>, all: seq<Entry>, n: nat): (r: (Id, int))
    requires n <= |all|
    ensures -1 <= r.1 < n
    ensures r.0 == "" <==> r.1 == -1
  {
    if n == 0 then ("", -1)
    else
      var (marked, at) := Durable(base, prefix, all, n - 1);
      var e := all[n - 1];
      if IsLeafLabel(e) then
        if MayRestOn(base, prefix, all, e.body.target) then (MarkOf(e.body.target), n - 1) else (marked, at)
      else if IsNullLabel(e) && marked != "" && e.body.target == Unmark(marked) then ("", -1)
      else (marked, at)
  }

  /** The entries under the mark among the first n lines. */
  ghost function Under(all: seq<Entry>, mark: Id, n: nat): set<Id>
    requires n <= |all|
  {
    if n == 0 then {mark} + if mark == ROOT_MARK then {ROOT} else {}
    else
      var u := Under(all, mark, n - 1);
      if all[n - 1].parent in u then u + {all[n - 1].id} else u
  }

  lemma UnderNone(all: seq<Entry>, mark: Id)
    ensures Under(all, mark, 0) == {mark} + if mark == ROOT_MARK then {ROOT} else {}
  {}

  lemma UnderOne(all: seq<Entry>, mark: Id, n: nat)
    requires n < |all|
    ensures var u := Under(all, mark, n); Under(all, mark, n + 1) == if all[n].parent in u then u + {all[n].id} else u
  {}

  /** The last line after at that is under the mark, or the mark itself. */
  ghost function Tip(all: seq<Entry>, mark: Id, at: int, n: nat): Id
    requires n <= |all|
  {
    if n == 0 then mark
    else if n - 1 > at && all[n - 1].parent in Under(all, mark, n - 1) then all[n - 1].id
    else Tip(all, mark, at, n - 1)
  }

  datatype LeafState = LeafState(marked: Id, at: int, under: set<Id>, tip: Id)

  /** The state a mark on target at line at gives over all lines. */
  ghost function Marked(all: seq<Entry>, target: Id, at: int): LeafState {
    if target == "" then LeafState("", at, {}, "")
    else LeafState(target, at, Under(all, target, |all|), Tip(all, target, at, |all|))
  }

  /** The state a fresh pass over the lines gives. */
  ghost function Fresh(base: Id, prefix: set<Id>, es: seq<Entry>): LeafState {
    var (marked, at) := Durable(base, prefix, es, |es|);
    Marked(es, marked, at)
  }

  /** What a state says the lines resolve to. */
  ghost function Resolved(base: Id, prefix: set<Id>, es: seq<Entry>, st: LeafState): Id
    requires es != []
  {
    NotOnLabel(base, prefix, es, if st.marked == "" then es[|es| - 1].id else Unmark(st.tip))
  }

  /** The entry the next append hangs from, as a reader of the lines has it. */
  ghost function Resolve(base: Id, prefix: set<Id>, es: seq<Entry>): Id {
    if es == [] then ROOT else Resolved(base, prefix, es, Fresh(base, prefix, es))
  }

  // ----- line by line -----

  /** The state after line i of all, which holds later lines too when
      several are caught up with at once. */
  ghost function Extended(base: Id, prefix: set<Id>, all: seq<Entry>, st: LeafState, i: nat): LeafState
    requires i < |all|
  {
    var e := all[i];
    if IsLeafLabel(e) && MayRestOn(base, prefix, all, e.body.target) then Marked(all, MarkOf(e.body.target), i)
    else if IsNullLabel(e) && st.marked != "" && e.body.target == Unmark(st.marked) then Marked(all, "", -1)
    else if st.marked != "" && e.parent in st.under then st.(under := st.under + {e.id}, tip := e.id)
    else st
  }

  /** No leaf label names an entry that arrives after it. */
  ghost predicate NoForward(es: seq<Entry>) {
    forall i, j | 0 <= i < j < |es| && IsLeafLabel(es[i]) :: es[i].body.target != es[j].id
  }

  lemma IndexPrefix(session: string, es: seq<Entry>, n: nat, id: Id)
    requires Wf(session, es) && n <= |es|
    requires forall j | n <= j < |es| :: es[j].id != id
    ensures id in Index(es[..n]) <==> id in Index(es)
    ensures id in Index(es) ==> Index(es[..n])[id] == Index(es)[id]
    decreases |es| - n
  {
    hide Wf, Index;
    if n < |es| {
      IndexPrefix(session, es, n + 1, id);
      assert es[..n + 1] == es[..n] + [es[n]];
      IndexSnoc(es[..n], es[n]);
    } else {
      assert es[..n] == es;
    }
  }

  lemma {:induction false} UnderPrefix(all: seq<Entry>, mark: Id, n: nat, m: nat)
    requires m <= n <= |all|
    ensures Under(all[..n], mark, m) == Under(all, mark, m)
    decreases m
  {
    if m > 0 {
      UnderPrefix(all, mark, n, m - 1);
    }
  }

  lemma {:induction false} TipPrefix(all: seq<Entry>, mark: Id, at: int, n: nat, m: nat)
    requires m <= n <= |all|
    ensures Tip(all[..n], mark, at, m) == Tip(all, mark, at, m)
    decreases m
  {
    if m > 0 {
      UnderPrefix(all, mark, n, m - 1);
      TipPrefix(all, mark, at, n, m - 1);
    }
  }

  lemma {:induction false} UnderGrows(all: seq<Entry>, mark: Id, m: nat, n: nat)
    requires m <= n <= |all|
    ensures Under(all, mark, m) <= Under(all, mark, n)
    ensures forall x | x in Under(all, mark, n) && x !in Under(all, mark, m) :: exists j :: m <= j < n && all[j].id == x
    decreases n
  {
    if m < n {
      UnderGrows(all, mark, m, n - 1);
    }
  }

  /** A parent under the mark is under it among the lines before its child. */
  lemma ParentUnder(session: string, all: seq<Entry>, mark: Id, j: nat)
    requires Wf(session, all) && j < |all|
    ensures all[j].parent in Under(all, mark, |all|) <==> all[j].parent in Under(all, mark, j)
  {
    UnderGrows(all, mark, j, |all|);
    assert Fits(session, all[..j], all[j]);
    if all[j].parent in Under(all, mark, |all|) && all[j].parent !in Under(all, mark, j) {
      var k :| j <= k < |all| && all[k].id == all[j].parent;
      assert Fits(session, all[..k], all[k]);
      IdsPrefix(all, j, k);
      assert false;
    }
  }

  /** What holds of the state once the lines up to j of all are caught up
      with: the mark is the lines', and its reach lies between theirs and
      that of all lines. */
  ghost predicate Between(base: Id, prefix: set<Id>, all: seq<Entry>, st: LeafState, j: nat)
    requires j <= |all|
  {
    var m := st.marked;
    && (m, st.at) == Durable(base, prefix, all, j)
    && (m == "" ==> st.under == {} && st.tip == "")
    && (m != "" ==>
          && Under(all, m, j) <= st.under <= Under(all, m, |all|)
          && (st.tip == Tip(all, m, st.at, j)
              || (Tip(all, m, st.at, j) == m && st.tip == Tip(all, m, st.at, |all|))))
  }

  lemma {:induction false} TipBefore(all: seq<Entry>, mark: Id, at: int, n: nat)
    requires n <= |all| && n - 1 <= at
    ensures Tip(all, mark, at, n) == mark
    decreases n
  {
    if n > 0 {
      TipBefore(all, mark, at, n - 1);
    }
  }

  lemma CatchUpStep(session: string, base: Id, prefix: set<Id>, all: seq<Entry>, st: LeafState, j: nat)
    requires Wf(session, all) && j < |all| && Between(base, prefix, all, st, j)
    ensures Between(base, prefix, all, Extended(base, prefix, all, st, j), j + 1)
  {
    var e := all[j];
    if IsLeafLabel(e) && MayRestOn(base, prefix, all, e.body.target) {
      var m := MarkOf(e.body.target);
      UnderGrows(all, m, j + 1, |all|);
      TipBefore(all, m, j, j + 1);
    } else if st.marked != "" {
      ParentUnder(session, all, st.marked, j);
      UnderGrows(all, st.marked, j + 1, |all|);
    }
  }

  lemma CatchUpEnd(base: Id, prefix: set<Id>, all: seq<Entry>, st: LeafState)
    requires Between(base, prefix, all, st, |all|)
    ensures st == Fresh(base, prefix, all)
  {}

  // ----- exactly when the two agree -----

  ghost predicate InForce(base: Id, prefix: set<Id>, es: seq<Entry>, e: Entry) {
    IsLeafLabel(e) && MayRestOn(base, prefix, es, e.body.target)
  }

  /** Line k, a leaf label, is in force only since an entry after line i - 1
      arrived, the one it names. */
  ghost predicate Late(base: Id, prefix: set<Id>, all: seq<Entry>, i: nat, k: nat)
    requires i <= |all| && k < |all|
  {
    InForce(base, prefix, all, all[k]) && LateId(all, i, all[k].body.target)
  }

  ghost predicate LateId(all: seq<Entry>, i: nat, id: Id)
    requires i <= |all|
  {
    id != ROOT && id != ROOT_MARK && id !in Ids(all[..i])
  }

  /** Line k is in force among the first i lines already. */
  ghost predicate Early(base: Id, prefix: set<Id>, all: seq<Entry>, i: nat, k: nat)
    requires i <= |all| && k < |all|
  {
    InForce(base, prefix, all[..i], all[k])
  }

  ghost predicate Replaced(base: Id, prefix: set<Id>, all: seq<Entry>, i: nat)
    requires i <= |all|
  {
    forall k | 0 <= k < i && Late(base, prefix, all, i, k) :: exists j :: k < j < i && Early(base, prefix, all, i, j)
  }

  ghost predicate Cleared(all: seq<Entry>, m: Id, i: nat, n: nat)
    requires i <= n <= |all|
  {
    m == "" || exists j :: i <= j < n && IsNullLabel(all[j]) && all[j].body.target == Unmark(m)
  }

  ghost predicate AnyInForce(base: Id, prefix: set<Id>, all: seq<Entry>, i: nat, n: nat)
    requires i <= n <= |all|
  {
    exists j :: i <= j < n && InForce(base, prefix, all, all[j])
  }

  /** The lines from i on do not bring into force a label before them that
      still counts: one in force already replaced each, or a later one does,
      or no mark is left, neither the one the labels before them put in force
      nor the one they do now. */
  ghost predicate Harmless(base: Id, prefix: set<Id>, all: seq<Entry>, i: nat)
    requires i <= |all|
  {
    || Replaced(base, prefix, all, i)
    || AnyInForce(base, prefix, all, i, |all|)
    || (Cleared(all, Durable(base, prefix, all, i).0, i, |all|) && Cleared(all, Durable(base, prefix, all[..i], i).0, i, |all|))
  }

  /** The state once lines i to j of all are taken in, one by one. */
  ghost function CaughtUp(base: Id, prefix: set<Id>, all: seq<Entry>, st: LeafState, i: nat, j: nat): LeafState
    requires i <= j <= |all|
    decreases j
  {
    if j == i then st else Extended(base, prefix, all, CaughtUp(base, prefix, all, st, i, j - 1), j - 1)
  }

  /** Where a leaf may rest is settled, but for the entries to come. */
  lemma RestSplit(session: string, base: Id, prefix: set<Id>, all: seq<Entry>, i: nat, id: Id)
    requires Wf(session, all) && i <= |all|
    ensures MayRestOn(base, prefix, all[..i], id) <==> MayRestOn(base, prefix, all, id) && !LateId(all, i, id)
  {
    hide Wf;
    WfPrefix(session, all, i);
    IndexKeys(all[..i]);
    IndexKeys(all);
    ValidIds(session, all);
    if id in Ids(all[..i]) {
      var k :| 0 <= k < i && all[..i][k].id == id;
      IndexAt(session, all[..i], k);
      IndexAt(session, all, k);
      assert all[..i][k] == all[k];
    }
  }

  lemma InForceSplit(session: string, base: Id, prefix: set<Id>, all: seq<Entry>, i: nat, k: nat)
    requires Wf(session, all) && i <= |all| && k < |all|
    ensures InForce(base, prefix, all, all[k]) <==> Early(base, prefix, all, i, k) || Late(base, prefix, all, i, k)
    ensures !(Early(base, prefix, all, i, k) && Late(base, prefix, all, i, k))
  {
    if IsLeafLabel(all[k]) {
      RestSplit(session, base, prefix, all, i, all[k].body.target);
    }
  }

  /** A late label among the first k lines that none in force has replaced. */
  ghost predicate Pending(base: Id, prefix: set<Id>, all: seq<Entry>, i: nat, k: nat)
    requires k <= i <= |all|
  {
    exists x :: 0 <= x < k && Late(base, prefix, all, i, x) && forall j | x < j < k :: !Early(base, prefix, all, i, j)
  }

  lemma PendingStep(base: Id, prefix: set<Id>, all: seq<Entry>, i: nat, k: nat)
    requires k < i <= |all|
    ensures Pending(base, prefix, all, i, k + 1)
        <==> Late(base, prefix, all, i, k) || (Pending(base, prefix, all, i, k) && !Early(base, prefix, all, i, k))
  {
    hide Late, Early;
    if Pending(base, prefix, all, i, k) && !Early(base, prefix, all, i, k) {
      var x :| 0 <= x < k && Late(base, prefix, all, i, x) && forall j | x < j < k :: !Early(base, prefix, all, i, j);
      assert forall j | x < j < k + 1 :: !Early(base, prefix, all, i, j);
    }
  }

  /** The mark as all lines have it and as the first i alone had it: the same,
      unless a late label is pending, and then one of its kind or none. */
  lemma {:induction false} MarksSplit(session: string, base: Id, prefix: set<Id>, all: seq<Entry>, i: nat, k: nat)
    requires Wf(session, all) && k <= i <= |all|
    ensures var (now, was) := (Durable(base, prefix, all, k), Durable(base, prefix, all[..i], k));
            if Pending(base, prefix, all, i, k) then now.0 == "" || LateId(all, i, now.0) else now == was
    ensures !LateId(all, i, Durable(base, prefix, all[..i], k).0) || Durable(base, prefix, all[..i], k).0 == ""
    decreases k
  {
    hide Pending, MayRestOn, Wf, LateId;
    NoneLate(all, i);
    if k == 0 {
      NonePending(base, prefix, all, i);
    } else {
      MarksSplit(session, base, prefix, all, i, k - 1);
      PendingStep(base, prefix, all, i, k - 1);
      var e := all[k - 1];
      assert all[..i][k - 1] == e;
      InForceSplit(session, base, prefix, all, i, k - 1);
      if IsLeafLabel(e) {
        RestSplit(session, base, prefix, all, i, e.body.target);
        MarkLate(all, i, e.body.target);
      }
    }
  }

  lemma NoneLate(all: seq<Entry>, i: nat)
    requires i <= |all|
    ensures !LateId(all, i, ROOT) && !LateId(all, i, ROOT_MARK)
  {}

  lemma MarkLate(all: seq<Entry>, i: nat, target: Id)
    requires i <= |all|
    ensures LateId(all, i, MarkOf(target)) <==> LateId(all, i, target)
  {}

  lemma NonePending(base: Id, prefix: set<Id>, all: seq<Entry>, i: nat)
    requires i <= |all|
    ensures !Pending(base, prefix, all, i, 0)
  {}

  lemma PendingIs(base: Id, prefix: set<Id>, all: seq<Entry>, i: nat)
    requires i <= |all|
    ensures Pending(base, prefix, all, i, i) <==> !Replaced(base, prefix, all, i)
  {
    hide Late, Early;
  }

  /** With no label in force from i on, a mark lasts until it is cleared. */
  lemma {:induction false} MarksLast(base: Id, prefix: set<Id>, all: seq<Entry>, st: LeafState, i: nat, j: nat)
    requires i <= j <= |all| && !AnyInForce(base, prefix, all, i, j)
    requires st.marked == "" ==> st == LeafState("", -1, {}, "")
    ensures var c := CaughtUp(base, prefix, all, st, i, j);
            && (Cleared(all, st.marked, i, j) ==> c == LeafState("", -1, {}, ""))
            && (!Cleared(all, st.marked, i, j) ==> c.marked == st.marked != "")
    ensures var m := Durable(base, prefix, all, i).0;
            Durable(base, prefix, all, j).0 == if Cleared(all, m, i, j) then "" else m
    decreases j
  {
    hide MayRestOn, Under, Tip;
    if i < j {
      assert !InForce(base, prefix, all, all[j - 1]);
      assert !AnyInForce(base, prefix, all, i, j - 1);
      MarksLast(base, prefix, all, st, i, j - 1);
      ClearedStep(all, st.marked, i, j);
      ClearedStep(all, Durable(base, prefix, all, i).0, i, j);
    }
  }

  lemma ClearedStep(all: seq<Entry>, m: Id, i: nat, j: nat)
    requires i < j <= |all|
    ensures Cleared(all, m, i, j)
        <==> Cleared(all, m, i, j - 1) || (IsNullLabel(all[j - 1]) && all[j - 1].body.target == Unmark(m))
  {}

  /** A label in force puts any state in step with the lines. */
  lemma InForceBetween(base: Id, prefix: set<Id>, all: seq<Entry>, st: LeafState, j: nat)
    requires j < |all| && InForce(base, prefix, all, all[j])
    ensures Between(base, prefix, all, Extended(base, prefix, all, st, j), j + 1)
  {
    var m := MarkOf(all[j].body.target);
    UnderGrows(all, m, j + 1, |all|);
    TipBefore(all, m, j, j + 1);
  }

  /** Once in step, in step to the end. */
  lemma {:induction false} StaysBetween(session: string, base: Id, prefix: set<Id>, all: seq<Entry>, st: LeafState, i: nat, k: nat, j: nat)
    requires Wf(session, all) && i <= k <= j <= |all| && Between(base, prefix, all, CaughtUp(base, prefix, all, st, i, k), k)
    ensures Between(base, prefix, all, CaughtUp(base, prefix, all, st, i, j), j)
    decreases j
  {
    hide Between, Wf;
    if k < j {
      StaysBetween(session, base, prefix, all, st, i, k, j - 1);
      CatchUpStep(session, base, prefix, all, CaughtUp(base, prefix, all, st, i, j - 1), j - 1);
    }
  }

  lemma StartsBetween(session: string, base: Id, prefix: set<Id>, all: seq<Entry>, i: nat)
    requires Wf(session, all) && i <= |all| && Durable(base, prefix, all, i) == Durable(base, prefix, all[..i], i)
    ensures Between(base, prefix, all, Fresh(base, prefix, all[..i]), i)
  {
    hide Durable;
    var (m, at) := Durable(base, prefix, all, i);
    UnderPrefix(all, m, i, i);
    UnderGrows(all, m, i, |all|);
    TipPrefix(all, m, at, i, i);
  }

  /** Catching up from the first i lines, one line at a time, ends in what a
      fresh pass over all lines gives exactly when the lines from i on are
      harmless to the labels before them. */
  lemma CatchUpExact(session: string, base: Id, prefix: set<Id>, all: seq<Entry>, i: nat)
    requires Wf(session, all) && i <= |all|
    ensures CaughtUp(base, prefix, all, Fresh(base, prefix, all[..i]), i, |all|) == Fresh(base, prefix, all)
        <==> Harmless(base, prefix, all, i)
  {
    hide Between, Extended, Durable, Replaced, Pending, Wf;
    var st := Fresh(base, prefix, all[..i]);
    var n := |all|;
    MarksSplit(session, base, prefix, all, i, i);
    PendingIs(base, prefix, all, i);
    NoneLate(all, i);
    if Replaced(base, prefix, all, i) {
      StartsBetween(session, base, prefix, all, i);
      StaysBetween(session, base, prefix, all, st, i, i, n);
      CatchUpEnd(base, prefix, all, CaughtUp(base, prefix, all, st, i, n));
    } else if AnyInForce(base, prefix, all, i, n) {
      var j :| i <= j < n && InForce(base, prefix, all, all[j]);
      InForceBetween(base, prefix, all, CaughtUp(base, prefix, all, st, i, j), j);
      StaysBetween(session, base, prefix, all, st, i, j + 1, n);
      CatchUpEnd(base, prefix, all, CaughtUp(base, prefix, all, st, i, n));
    } else {
      assert st.marked == Durable(base, prefix, all[..i], i).0;
      MarksLast(base, prefix, all, st, i, n);
      assert Fresh(base, prefix, all).marked == Durable(base, prefix, all, n).0;
    }
  }

  /** A label names only what it follows, in lines a store of this package
      wrote: nothing that arrives is named already. */
  lemma NoForwardHarmless(session: string, base: Id, prefix: set<Id>, all: seq<Entry>, i: nat)
    requires Wf(session, all) && NoForward(all) && i <= |all|
    ensures Harmless(base, prefix, all, i)
  {
    hide Wf;
    IndexKeys(all);
    forall j | 0 <= j < i ensures all[j].id in Ids(all[..i]) {
      assert all[..i][j] == all[j];
    }
    assert forall id | id in Ids(all) && LateId(all, i, id) :: exists j :: i <= j < |all| && all[j].id == id;
    assert forall k | 0 <= k < i :: !Late(base, prefix, all, i, k);
  }

  // ----- the labels a store of lines writes -----

  /** e hangs from the head or below it: every entry does from the root. */
  ghost predicate UnderHead(es: seq<Entry>, parent: Id, head: Id) {
    head == ROOT || parent == head || head in Ids(PathTo(es, parent))
  }

  /** The leaf after e is appended to es, live: under the leaf, e; elsewhere,
      where it was; a leaf label moves it to its target. */
  ghost function MovedLeaf(base: Id, prefix: set<Id>, es: seq<Entry>, leaf: Id, e: Entry): Id {
    if IsLeafLabel(e) then (if MayRestOn(base, prefix, es, e.body.target) then e.body.target else leaf)
    else if e.parent == leaf then e.id
    else leaf
  }

  /** A label after an append, and one ahead of e, as a state has it. */
  ghost predicate MarkNeededBy(base: Id, prefix: set<Id>, es: seq<Entry>, leaf: Id, st: LeafState) {
    es != [] && MayRestOn(base, prefix, es, leaf) && Resolved(base, prefix, es, st) != leaf
  }

  /** Before e the lines are looked at: it hangs off the head's branch. */
  ghost predicate LooksAhead(es: seq<Entry>, leaf: Id, e: Entry) {
    !UnderHead(es, e.parent, leaf) && !IsLeafLabel(e) && es != []
  }

  ghost predicate MarkBeforeBy(base: Id, prefix: set<Id>, es: seq<Entry>, leaf: Id, e: Entry, st: LeafState) {
    && !UnderHead(es, e.parent, leaf)
    && !IsLeafLabel(e)
    && !(es != [] && st.marked != "" && e.parent !in st.under && NotOnLabel(base, prefix, es, Unmark(st.tip)) == leaf)
  }

  ghost predicate MarkNeeded(base: Id, prefix: set<Id>, es: seq<Entry>, leaf: Id) {
    MarkNeededBy(base, prefix, es, leaf, Fresh(base, prefix, es))
  }

  ghost predicate MarkBefore(base: Id, prefix: set<Id>, es: seq<Entry>, leaf: Id, e: Entry) {
    MarkBeforeBy(base, prefix, es, leaf, e, Fresh(base, prefix, es))
  }

  ghost predicate IsMarkOn(e: Entry, leaf: Id) {
    IsLeafLabel(e) && e.body.target == leaf && e.parent == leaf
  }

  /** e clears the mark in force over es. */
  ghost predicate Clears(base: Id, prefix: set<Id>, es: seq<Entry>, e: Entry) {
    var m := Durable(base, prefix, es, |es|).0;
    IsNullLabel(e) && m != "" && e.body.target == Unmark(m)
  }

  /** Descent by the marks' forward pass is descent in the tree. */
  lemma {:induction false} UnderIsDescent(session: string, es: seq<Entry>, mark: Id, id: Id)
    requires Wf(session, es) && ValidId(mark)
    ensures id in Under(es, mark, |es|) <==> id == mark || mark in Ids(PathTo(es, id))
  {
    if es != [] {
      var n := |es| - 1;
      WfPrefix(session, es, n);
      UnderPrefix(es, mark, n, n);
      assert Fits(session, es[..n], es[n]);
      if es[n].id == id {
        var p := PathTo(es[..n], es[n].parent);
        UnderIsDescent(session, es[..n], mark, es[n].parent);
        UnderIsDescent(session, es[..n], mark, id);
        PathNowhere(es[..n], id);
        IdsSnoc(p, es[n]);
        ParentHolds(session, es[..n], mark, es[n].parent);
      } else {
        UnderIsDescent(session, es[..n], mark, id);
      }
    }
  }

  lemma ParentHolds(session: string, es: seq<Entry>, mark: Id, parent: Id)
    requires Wf(session, es) && ValidId(mark)
    ensures parent == mark && mark in Ids(es) ==> mark in Ids(PathTo(es, parent))
    ensures parent == mark ==> mark in Ids(PathTo(es, parent)) || mark !in Ids(es)
  {
    PathIsChain(session, es, parent);
  }

  lemma WalkUpStays(session: string, es: seq<Entry>, id: Id)
    requires Wf(session, es) && (id in Index(es) ==> !IsLeafLabel(Index(es)[id]))
    ensures WalkUp(es, id) == id
  {
    if es != [] {
      var n := |es| - 1;
      WfPrefix(session, es, n);
      assert es == es[..n] + [es[n]];
      IndexSnoc(es[..n], es[n]);
      if es[n].id != id {
        WalkUpStays(session, es[..n], id);
      }
    }
  }

  lemma RestStays(session: string, base: Id, prefix: set<Id>, es: seq<Entry>, id: Id)
    requires Wf(session, es) && MayRestOn(base, prefix, es, id)
    ensures NotOnLabel(base, prefix, es, id) == id
  {
    if id == ROOT {
      ValidIds(session, es);
      IndexKeys(es);
    }
    WalkUpStays(session, es, id);
  }

  lemma RestGrows(base: Id, prefix: set<Id>, es: seq<Entry>, e: Entry, id: Id)
    requires e.id !in Ids(es)
    ensures MayRestOn(base, prefix, es, id) ==> MayRestOn(base, prefix, es + [e], id)
  {
    IndexSnoc(es, e);
    IndexKeys(es);
  }

  /** Lines that end in a leaf label in force resolve to its target. */
  lemma LastLabelResolves(session: string, base: Id, prefix: set<Id>, es: seq<Entry>, b: Entry)
    requires Wf(session, es) && Fits(session, es, b) && IsLeafLabel(b)
    requires MayRestOn(base, prefix, es + [b], b.body.target)
    ensures Resolve(base, prefix, es + [b]) == b.body.target
    ensures Durable(base, prefix, es + [b], |es| + 1) == (MarkOf(b.body.target), |es|)
    ensures Tip(es + [b], MarkOf(b.body.target), |es|, |es| + 1) == MarkOf(b.body.target)
  {
    hide NotOnLabel, MayRestOn, Under;
    var all := es + [b];
    var m := MarkOf(b.body.target);
    WfSnoc(session, es, b);
    assert Durable(base, prefix, all, |all|) == (m, |es|);
    TipBefore(all, m, |es|, |all|);
    assert Unmark(m) == b.body.target by { RestValid(session, base, prefix, all, b.body.target); }
    RestStays(session, base, prefix, all, b.body.target);
  }

  lemma RestValid(session: string, base: Id, prefix: set<Id>, es: seq<Entry>, id: Id)
    requires Wf(session, es) && MayRestOn(base, prefix, es, id)
    ensures id != ROOT_MARK && (id != ROOT ==> id in Ids(es) && ValidId(id))
  {
    IndexKeys(es);
    ValidIds(session, es);
  }

  /** The mark in force, and the tip under it, are lines of the file. */
  lemma {:induction false} MarkHeld(session: string, base: Id, prefix: set<Id>, all: seq<Entry>, n: nat)
    requires Wf(session, all) && n <= |all|
    ensures var m := Durable(base, prefix, all, n).0; m == "" || m == ROOT_MARK || m in Ids(all)
  {
    if n > 0 {
      MarkHeld(session, base, prefix, all, n - 1);
      var e := all[n - 1];
      if IsLeafLabel(e) && MayRestOn(base, prefix, all, e.body.target) {
        RestValid(session, base, prefix, all, e.body.target);
      }
    }
  }

  lemma {:induction false} TipHeld(all: seq<Entry>, mark: Id, at: int, n: nat)
    requires n <= |all|
    ensures Tip(all, mark, at, n) == mark || Tip(all, mark, at, n) in Ids(all)
    decreases n
  {
    if n > 0 {
      TipHeld(all, mark, at, n - 1);
    }
  }

  /** A harmless line that clears nothing leaves the mark before it as it was. */
  lemma HarmlessSameMark(session: string, base: Id, prefix: set<Id>, es: seq<Entry>, e: Entry)
    requires Wf(session, es + [e]) && Harmless(base, prefix, es + [e], |es|)
    requires !InForce(base, prefix, es + [e], e) && !Clears(base, prefix, es, e) && Fresh(base, prefix, es).marked != ""
    ensures Durable(base, prefix, es + [e], |es|) == Durable(base, prefix, es, |es|)
  {
    hide Wf, MayRestOn, Replaced, Pending, Under, Tip;
    var all := es + [e];
    assert all[..|es|] == es && all[|es|] == e;
    MarksSplit(session, base, prefix, all, |es|, |es|);
    PendingIs(base, prefix, all, |es|);
  }

  lemma OffBranchFresh(session: string, base: Id, prefix: set<Id>, es: seq<Entry>, e: Entry)
    requires Wf(session, es + [e]) && Harmless(base, prefix, es + [e], |es|)
    requires !InForce(base, prefix, es + [e], e) && !Clears(base, prefix, es, e)
    requires Fresh(base, prefix, es).marked != "" && e.parent !in Fresh(base, prefix, es).under
    ensures Fresh(base, prefix, es + [e]) == Fresh(base, prefix, es)
  {
    hide MayRestOn, Harmless;
    var all := es + [e];
    assert all[..|es|] == es;
    HarmlessSameMark(session, base, prefix, es, e);
    var (m, at) := Durable(base, prefix, es, |es|);
    UnderPrefix(all, m, |es|, |es|);
    TipPrefix(all, m, at, |es|, |es|);
  }

  lemma TipElsewhere(session: string, base: Id, prefix: set<Id>, es: seq<Entry>, e: Entry)
    requires Wf(session, es) && Fits(session, es, e) && Fresh(base, prefix, es).marked != ""
    ensures Unmark(Fresh(base, prefix, es).tip) != e.id
  {
    hide MayRestOn;
    var (m, at) := Durable(base, prefix, es, |es|);
    MarkHeld(session, base, prefix, es, |es|);
    TipHeld(es, m, at, |es|);
  }

  /** An entry off the marked branch leaves what the lines resolve to. */
  lemma OffBranchKeeps(session: string, base: Id, prefix: set<Id>, es: seq<Entry>, e: Entry)
    requires Wf(session, es) && Fits(session, es, e) && Harmless(base, prefix, es + [e], |es|)
    requires !InForce(base, prefix, es + [e], e) && !Clears(base, prefix, es, e)
    requires es != [] && Fresh(base, prefix, es).marked != "" && e.parent !in Fresh(base, prefix, es).under
    ensures Resolve(base, prefix, es + [e]) == Resolve(base, prefix, es)
  {
    hide Fresh, Clears, Harmless;
    WfSnoc(session, es, e);
    OffBranchFresh(session, base, prefix, es, e);
    TipElsewhere(session, base, prefix, es, e);
    assert (es + [e])[..|es|] == es;
  }

  /** No entry before e hangs from it, so a mark on e has e for its tip. */
  lemma {:induction false} TipAlone(all: seq<Entry>, m: Id, at: int, n: nat)
    requires n <= |all| && m != ROOT_MARK && forall k | 0 <= k < n :: all[k].parent != m
    ensures Under(all, m, n) == {m} && Tip(all, m, at, n) == m
  {
    if n > 0 {
      TipAlone(all, m, at, n - 1);
    }
  }

  lemma NoChildren(session: string, es: seq<Entry>, e: Entry)
    requires Wf(session, es) && Fits(session, es, e)
    ensures e.parent != e.id && forall k | 0 <= k < |es| :: es[k].parent != e.id
  {
    forall k | 0 <= k < |es| ensures es[k].parent != e.id {
      assert Fits(session, es[..k], es[k]);
      IdsPrefix(es, k, |es|);
      assert es[..|es|] == es;
    }
  }

  /** A line that is not harmless is one a label before it names. */
  lemma HarmfulNamed(session: string, base: Id, prefix: set<Id>, es: seq<Entry>, e: Entry)
    requires Wf(session, es + [e]) && !Harmless(base, prefix, es + [e], |es|)
    ensures MayRestOn(base, prefix, es + [e], e.id) && !InForce(base, prefix, es + [e], e)
    ensures var m := Durable(base, prefix, es + [e], |es|).0; m == "" || m == e.id
  {
    hide Wf, Durable;
    var all := es + [e];
    var n := |es|;
    assert all[..n] == es && all[n] == e;
    IdsSnoc(es, e);
    IndexKeys(all);
    var k :| 0 <= k < n && Late(base, prefix, all, n, k) && forall j | k < j < n :: !Early(base, prefix, all, n, j);
    MarksSplit(session, base, prefix, all, n, n);
    MarkHeld(session, base, prefix, all, n);
  }

  /** Such a line is what the lines then resolve to. */
  lemma HarmfulResolves(session: string, base: Id, prefix: set<Id>, es: seq<Entry>, e: Entry)
    requires Wf(session, es) && Fits(session, es, e) && !Harmless(base, prefix, es + [e], |es|)
    ensures Resolve(base, prefix, es + [e]) == e.id
  {
    hide Wf, NotOnLabel, Under, Tip, Fits, Harmless, MayRestOn;
    var all := es + [e];
    var n := |es|;
    assert all[n] == e;
    WfSnoc(session, es, e);
    HarmfulNamed(session, base, prefix, es, e);
    RestStays(session, base, prefix, all, e.id);
    RestValid(session, base, prefix, all, e.id);
    NoChildren(session, es, e);
    var (m, at) := Durable(base, prefix, all, n);
    if m == e.id {
      TipAlone(all, m, at, n + 1);
    }
  }

  /** es1 is es with the label that keeps the head, when marked. */
  ghost predicate Labelled(session: string, es: seq<Entry>, leaf: Id, marked: bool, es1: seq<Entry>) {
    if marked
    then es1 != [] && es1[..|es1| - 1] == es && IsMarkOn(es1[|es1| - 1], leaf) && Fits(session, es, es1[|es1| - 1])
    else es1 == es
  }

  /** The store's write-ahead: a label before e when one can keep the head,
      e, and a label after it when the lines would read back another head. */
  ghost predicate Writes(session: string, base: Id, prefix: set<Id>, es: seq<Entry>, leaf: Id,
                         e: Entry, es1: seq<Entry>, es2: seq<Entry>, es3: seq<Entry>) {
    && Labelled(session, es, leaf, MarkBefore(base, prefix, es, leaf, e), es1)
    && Fits(session, es1, e)
    && es2 == es1 + [e]
    && var leaf2 := MovedLeaf(base, prefix, es2, leaf, e);
       Labelled(session, es2, leaf2, MarkNeeded(base, prefix, es2, leaf2), es3)
  }

  lemma MovedMayRest(session: string, base: Id, prefix: set<Id>, es: seq<Entry>, leaf: Id, e: Entry)
    requires Wf(session, es) && Fits(session, es, e) && MayRestOn(base, prefix, es, leaf)
    requires base != ROOT ==> e.id !in prefix
    ensures MayRestOn(base, prefix, es + [e], MovedLeaf(base, prefix, es + [e], leaf, e))
  {
    RestGrows(base, prefix, es, e, leaf);
    IndexSnoc(es, e);
  }

  lemma LabelBeforeKeeps(session: string, base: Id, prefix: set<Id>, es: seq<Entry>, leaf: Id, b: Entry)
    requires Wf(session, es) && MayRestOn(base, prefix, es, leaf) && Fits(session, es, b) && IsMarkOn(b, leaf)
    ensures Wf(session, es + [b]) && MayRestOn(base, prefix, es + [b], leaf)
    ensures Resolve(base, prefix, es + [b]) == leaf
    ensures MovedLeaf(base, prefix, es + [b], leaf, b) == leaf
  {
    WfSnoc(session, es, b);
    RestGrows(base, prefix, es, b, leaf);
    LastLabelResolves(session, base, prefix, es, b);
  }

  /** Crash safety. The three writes leave the lines resolving to the live
      leaf; and when e is not under the head, nor a label that moves or
      clears a mark, so does every cut of them. */
  lemma WriteAheadSafe(session: string, base: Id, prefix: set<Id>, es: seq<Entry>, leaf: Id,
                       e: Entry, es1: seq<Entry>, es2: seq<Entry>, es3: seq<Entry>)
    requires Wf(session, es) && MayRestOn(base, prefix, es, leaf) && Resolve(base, prefix, es) == leaf
    requires Writes(session, base, prefix, es, leaf, e, es1, es2, es3)
    requires base != ROOT ==> e.id !in prefix
    requires e.parent == ROOT || e.parent in Ids(es)
    ensures Resolve(base, prefix, es1) == leaf
    ensures var leaf2 := MovedLeaf(base, prefix, es2, leaf, e);
            Wf(session, es3) && Resolve(base, prefix, es3) == leaf2 && MayRestOn(base, prefix, es3, leaf2)
    ensures !UnderHead(es, e.parent, leaf) && !IsLeafLabel(e) && !Clears(base, prefix, es1, e)
            ==> Resolve(base, prefix, es3) == leaf && (Resolve(base, prefix, es2) == leaf <==> Harmless(base, prefix, es2, |es1|))
  {
    hide Harmless, Fits, MayRestOn, Resolved, Resolve, UnderHead, Clears;
    if MarkBefore(base, prefix, es, leaf, e) {
      var b := es1[|es1| - 1];
      assert es1 == es + [b];
      LabelBeforeKeeps(session, base, prefix, es, leaf, b);
    }
    MovedMayRest(session, base, prefix, es1, leaf, e);
    WfSnoc(session, es1, e);
    var leaf2 := MovedLeaf(base, prefix, es2, leaf, e);
    if MarkNeeded(base, prefix, es2, leaf2) {
      var c := es3[|es3| - 1];
      assert es3 == es2 + [c];
      LabelBeforeKeeps(session, base, prefix, es2, leaf2, c);
    } else {
      NotNeeded(base, prefix, es2, leaf2);
    }
    if !UnderHead(es, e.parent, leaf) && !IsLeafLabel(e) && !Clears(base, prefix, es1, e) {
      CutSafe(session, base, prefix, es, leaf, e, es1);
      assert leaf2 == leaf by { NotUnder(es, e.parent, leaf); }
    }
  }

  /** What a cut right after an entry reads as, whatever the entry: the head
      there was, the head there now is, or the entry, off a label. */
  lemma CutReads(session: string, base: Id, prefix: set<Id>, es1: seq<Entry>, leaf: Id, e: Entry)
    requires Wf(session, es1) && Fits(session, es1, e) && Resolve(base, prefix, es1) == leaf
    requires Harmless(base, prefix, es1 + [e], |es1|)
    ensures var es2 := es1 + [e];
            Resolve(base, prefix, es2) in {leaf, MovedLeaf(base, prefix, es2, leaf, e), NotOnLabel(base, prefix, es2, e.id)}
  {
    hide Fresh, Harmless, NotOnLabel, MayRestOn, Wf, Fits, Marked;
    var es2 := es1 + [e];
    var st := Fresh(base, prefix, es1);
    WfSnoc(session, es1, e);
    if InForce(base, prefix, es2, e) {
      LastLabelResolves(session, base, prefix, es1, e);
    } else if es1 != [] && st.marked != "" && e.parent !in st.under && !Clears(base, prefix, es1, e) {
      OffBranchKeeps(session, base, prefix, es1, e);
    } else {
      ExtendIsFresh(session, base, prefix, es2);
      assert es2[..|es1|] == es1;
      ReadsEntry(session, base, prefix, es1, e);
    }
  }

  lemma ReadsEntry(session: string, base: Id, prefix: set<Id>, es: seq<Entry>, e: Entry)
    requires Fits(session, es, e) && !InForce(base, prefix, es + [e], e)
    requires var st := Fresh(base, prefix, es); es == [] || st.marked == "" || e.parent in st.under || Clears(base, prefix, es, e)
    requires Fresh(base, prefix, es + [e]) == Extended(base, prefix, es + [e], Fresh(base, prefix, es), |es|)
    ensures Resolve(base, prefix, es + [e]) == NotOnLabel(base, prefix, es + [e], e.id)
  {
    hide MayRestOn, NotOnLabel, Under, Tip;
    assert (es + [e])[|es|] == e;
  }

  lemma NotUnder(es: seq<Entry>, parent: Id, head: Id)
    requires !UnderHead(es, parent, head)
    ensures parent != head && head != ROOT
  {}

  lemma NotNeeded(base: Id, prefix: set<Id>, es: seq<Entry>, leaf: Id)
    requires es != [] && MayRestOn(base, prefix, es, leaf) && !MarkNeeded(base, prefix, es, leaf)
    ensures Resolve(base, prefix, es) == leaf
  {}

  /** A label in force right before a line makes the line harmless. */
  lemma LabelAheadHarmless(session: string, base: Id, prefix: set<Id>, es: seq<Entry>, b: Entry, e: Entry)
    requires Wf(session, es + [b] + [e]) && InForce(base, prefix, es + [b], b)
    ensures Harmless(base, prefix, es + [b] + [e], |es| + 1)
  {
    hide Wf, InForce;
    var all := es + [b] + [e];
    var i := |es| + 1;
    assert all[..i] == es + [b] && all[|es|] == b;
    assert Early(base, prefix, all, i, |es|);
    InForceSplit(session, base, prefix, all, i, |es|);
  }

  /** A cut after e, not under the head, reads as the head exactly when e is
      harmless to the labels before it, as it is after a label written ahead. */
  lemma CutSafe(session: string, base: Id, prefix: set<Id>, es: seq<Entry>, leaf: Id, e: Entry, es1: seq<Entry>)
    requires Wf(session, es) && MayRestOn(base, prefix, es, leaf) && Resolve(base, prefix, es) == leaf
    requires Labelled(session, es, leaf, MarkBefore(base, prefix, es, leaf, e), es1)
    requires Fits(session, es1, e) && (e.parent == ROOT || e.parent in Ids(es))
    requires !UnderHead(es, e.parent, leaf) && !IsLeafLabel(e) && !Clears(base, prefix, es1, e)
    ensures MarkBefore(base, prefix, es, leaf, e) ==> Harmless(base, prefix, es1 + [e], |es1|)
    ensures Resolve(base, prefix, es1 + [e]) == leaf <==> Harmless(base, prefix, es1 + [e], |es1|)
  {
    hide Harmless;
    if MarkBefore(base, prefix, es, leaf, e) {
      assert es1 == es + [es1[|es1| - 1]];
      CutAfterLabel(session, base, prefix, es, leaf, e, es1[|es1| - 1]);
    } else if Harmless(base, prefix, es + [e], |es|) {
      assert es != [] && Fresh(base, prefix, es).marked != "" && e.parent !in Fresh(base, prefix, es).under;
      OffBranchKeeps(session, base, prefix, es, e);
    } else {
      HarmfulResolves(session, base, prefix, es, e);
      RestValid(session, base, prefix, es, leaf);
    }
  }

  lemma CutAfterLabel(session: string, base: Id, prefix: set<Id>, es: seq<Entry>, leaf: Id, e: Entry, b: Entry)
    requires Wf(session, es) && MayRestOn(base, prefix, es, leaf)
    requires Fits(session, es, b) && IsMarkOn(b, leaf) && Fits(session, es + [b], e)
    requires e.parent == ROOT || e.parent in Ids(es)
    requires !UnderHead(es, e.parent, leaf) && !IsLeafLabel(e) && !Clears(base, prefix, es + [b], e)
    ensures Harmless(base, prefix, es + [b] + [e], |es| + 1)
    ensures Resolve(base, prefix, es + [b] + [e]) == leaf
  {
    hide Harmless, Resolve, MayRestOn, Wf, Clears;
    var es1 := es + [b];
    LabelBeforeKeeps(session, base, prefix, es, leaf, b);
    LastLabelResolves(session, base, prefix, es, b);
    RestValid(session, base, prefix, es, leaf);
    UnderIsDescent(session, es1, leaf, e.parent);
    PathSnoc(es, b, e.parent);
    ValidIds(session, es);
    assert e.parent != b.id;
    assert e.parent !in Under(es1, leaf, |es1|);
    WfSnoc(session, es1, e);
    LabelAheadHarmless(session, base, prefix, es, b, e);
    OffBranchKeeps(session, base, prefix, es1, e);
  }

  /** One step of the walk, as the index takes it. */
  lemma {:induction false} WalkUpStep(session: string, es: seq<Entry>, id: Id)
    requires Wf(session, es) && id in Index(es) && IsLeafLabel(Index(es)[id])
    ensures WalkUp(es, id) == WalkUp(es, Index(es)[id].parent)
  {
    var n := |es| - 1;
    WfPrefix(session, es, n);
    assert es == es[..n] + [es[n]];
    IndexSnoc(es[..n], es[n]);
    assert Fits(session, es[..n], es[n]);
    if es[n].id == id {
      assert es[n].parent != es[n].id;
    } else {
      WalkUpStep(session, es[..n], id);
      IndexKeys(es[..n]);
      var i :| 0 <= i < n && es[..n][i] == Index(es[..n])[id];
      assert Fits(session, es[..i], es[i]);
      IdsPrefix(es, i, n);
    }
  }

  /** One line taken in gives what a fresh pass gives exactly when the line is
      harmless to the labels before it. */
  lemma ExtendIsFresh(session: string, base: Id, prefix: set<Id>, all: seq<Entry>)
    requires Wf(session, all) && all != []
    ensures var n := |all| - 1;
            Extended(base, prefix, all, Fresh(base, prefix, all[..n]), n) == Fresh(base, prefix, all)
            <==> Harmless(base, prefix, all, n)
  {
    hide Fresh, Extended, Harmless;
    var n := |all| - 1;
    var st := Fresh(base, prefix, all[..n]);
    assert CaughtUp(base, prefix, all, st, n, n + 1) == Extended(base, prefix, all, CaughtUp(base, prefix, all, st, n, n), n);
    CatchUpExact(session, base, prefix, all, n);
  }

  /** Three lines, the second a label that names the third. */
  const FORWARD: seq<Entry> :=
    [Entry("a", ROOT, [], OtherBody("")), Entry("l", "a", [], LabelBody("b", Some(LEAF_LABEL))), Entry("b", "a", [], OtherBody(""))]

  lemma ForwardFits()
    ensures Wf("s", FORWARD) && "b" in Index(FORWARD) && Index(FORWARD)["b"] == FORWARD[2] && "b" !in Ids(FORWARD[..2])
  {
    var (a, l, b) := (FORWARD[0], FORWARD[1], FORWARD[2]);
    assert [] + [a] == [a] && [a] + [l] == [a, l] && [a, l] + [b] == FORWARD && FORWARD[..2] == [a, l];
    IndexSnoc([a, l], b);
    IdsSnoc([], a);
    IdsSnoc([a], l);
    WfSnoc("s", [], a);
    WfSnoc("s", [a], l);
    WfSnoc("s", [a, l], b);
  }

  /** One way to do harm: a label that names an entry arriving after it. */
  lemma ForwardLabelDiffers()
    ensures Wf("s", FORWARD) && !Harmless(ROOT, {}, FORWARD, 2)
    ensures Extended(ROOT, {}, FORWARD, Fresh(ROOT, {}, FORWARD[..2]), 2) != Fresh(ROOT, {}, FORWARD)
  {
    hide Wf, Index, Ids, Fresh, Extended;
    ForwardFits();
    assert InForce(ROOT, {}, FORWARD, FORWARD[1]);
    assert Late(ROOT, {}, FORWARD, 2, 1);
    assert Durable(ROOT, {}, FORWARD, 2) == ("b", 1);
    ExtendIsFresh("s", ROOT, {}, FORWARD);
  }
}

/** Which leaf of a child a link counts, told from where the entries of the
    counted paths stand. */
module Naming {
  import opened Entries
  import opened Tree
  import C = Calls
  import opened Cost

  // ----- the output of a call -----

  predicate CallsAs(e: Entry, k: string) {
    IsCall(e) && e.body.item.callId == k
  }

  predicate Answers(e: Entry, k: string) {
    e.body.ItemBody? && e.body.item.FunctionCallOutput? && e.body.item.callId == k
  }

  /** The entry at o is the output of the call at t: the first of its call id
      after it, with no call of that id between. */
  ghost predicate Answered(p: seq<Entry>, t: nat, o: nat, k: string) {
    && t < o < |p| && CallsAs(p[t], k) && Answers(p[o], k)
    && forall j | t < j < o :: !CallsAs(p[j], k) && !Answers(p[j], k)
  }

  /** Where the calls of a path stand. */
  ghost function Places(p: seq<Entry>): seq<nat> {
    if p == [] then []
    else Places(p[..|p| - 1]) + if IsCall(p[|p| - 1]) then [|p| - 1] else []
  }

  ghost predicate Newest(p: seq<Entry>, t: nat, k: string) {
    forall j | t < j < |p| :: !CallsAs(p[j], k)
  }

  ghost predicate Unanswered(p: seq<Entry>, t: nat, k: string) {
    forall j | t < j < |p| :: !Answers(p[j], k)
  }

  /** A call of the fold is the one at t, with its output. */
  ghost predicate IsAt(p: seq<Entry>, c: C.Call, t: nat) {
    && t < |p| && CallsAs(p[t], c.callId)
    && (c.output.Some? ==> exists o: nat :: Answered(p, t, o, c.callId))
    && (forall o: nat | Answered(p, t, o, c.callId) :: c.output.Some? && c.output.value.id == p[o].id)
    && (Newest(p, t, c.callId) && c.output.None? ==> Unanswered(p, t, c.callId))
  }

  ghost predicate Tracked(p: seq<Entry>, f: C.Fold, at: seq<nat>) {
    && |f.calls| == |at| && C.FoldOk(f)
    && (forall i | 0 <= i < |at| :: IsAt(p, f.calls[i], at[i]) && f.calls[i].callId in f.byId)
    && (forall k | k in f.byId :: Newest(p, at[f.byId[k]], k))
  }

  lemma {:induction false} PlacesExact(p: seq<Entry>)
    ensures var at := Places(p);
            && Rising(at, |p|)
            && (forall i | 0 <= i < |at| :: IsCall(p[at[i]]))
            && (forall t | 0 <= t < |p| && IsCall(p[t]) :: t in at)
  {
    if p != [] {
      hide IsCall, Rising;
      var last := |p| - 1;
      PlacesExact(p[..last]);
      var (before, at) := (Places(p[..last]), Places(p));
      RisingSnoc(before, last);
      RisingWithin(before, last);
      assert at == if IsCall(p[last]) then before + [last] else before;
      forall i | 0 <= i < |at| ensures at[i] < |p| && IsCall(p[at[i]]) {
        assert i < |before| ==> at[i] == before[i] && p[..last][before[i]] == p[before[i]];
      }
      forall t | 0 <= t < |p| && IsCall(p[t]) ensures t in at {
        assert t < last ==> p[..last][t] == p[t];
      }
    }
  }

  lemma AnsweredOn(p: seq<Entry>, e: Entry, t: nat, o: nat, k: string)
    ensures o < |p| ==> (Answered(p + [e], t, o, k) <==> Answered(p, t, o, k))
    ensures Answered(p + [e], t, |p|, k) <==>
              t < |p| && CallsAs(p[t], k) && Answers(e, k) && Newest(p, t, k) && Unanswered(p, t, k)
  {
    var q := p + [e];
    assert forall j | 0 <= j < |p| :: q[j] == p[j];
  }

  lemma NewestOn(p: seq<Entry>, e: Entry, t: nat, k: string)
    requires t < |p|
    ensures Newest(p + [e], t, k) <==> Newest(p, t, k) && !CallsAs(e, k)
    ensures Unanswered(p + [e], t, k) <==> Unanswered(p, t, k) && !Answers(e, k)
  {
    var q := p + [e];
    assert forall j | 0 <= j < |p| :: q[j] == p[j];
    assert q[|p|] == e;
  }

  lemma IsAtOn(p: seq<Entry>, e: Entry, c: C.Call, d: C.Call, t: nat)
    requires IsAt(p, c, t) && d.callId == c.callId
    requires if Answers(e, c.callId) && Newest(p, t, c.callId) && c.output.None? then d.output.Some? && d.output.value.id == e.id
             else d.output == c.output
    ensures IsAt(p + [e], d, t)
  {
    hide Answered, Newest, Unanswered, CallsAs, Answers;
    var k := c.callId;
    NewestOn(p, e, t, k);
    assert (p + [e])[t] == p[t];
    forall o: nat ensures o < |p| ==> (Answered(p + [e], t, o, k) <==> Answered(p, t, o, k)) {
      AnsweredOn(p, e, t, o, k);
    }
    AnsweredOn(p, e, t, |p|, k);
    SomeAnswer(p, t, k);
    AnswerWithin(p + [e], k);
    forall o: nat | Answered(p + [e], t, o, k) ensures d.output.Some? && d.output.value.id == (p + [e])[o].id {
      if o < |p| {
        assert Answered(p, t, o, k);
      }
    }
    if c.output.Some? {
      var o: nat :| Answered(p, t, o, k);
      AnswerWithin(p, k);
      assert Answered(p + [e], t, o, k);
    }
  }

  lemma AnswerWithin(p: seq<Entry>, k: string)
    ensures forall t: nat, o: nat | Answered(p, t, o, k) :: t < o < |p|
  {}

  /** An answered call stays the answered one: nothing answers it again. */
  lemma SomeAnswer(p: seq<Entry>, t: nat, k: string)
    ensures forall o: nat | Answered(p, t, o, k) :: !Unanswered(p, t, k)
  {}

  lemma IsAtNew(p: seq<Entry>, e: Entry)
    requires IsCall(e)
    ensures IsAt(p + [e], C.NewCall(e), |p|) && Newest(p + [e], |p|, e.body.item.callId)
  {}

  lemma OutputOf(c: C.Call, e: Entry)
    requires !IsCall(e) && C.MentionOf(e) != C.Nothing
    ensures C.OnEvent(c, e).output == if Answers(e, C.MentionOf(e).callId) && c.output.None? then Some(C.At(e.id, e.body.item)) else c.output
  {}

  lemma TrackedStep(p: seq<Entry>, f: C.Fold, at: seq<nat>, e: Entry)
    requires Tracked(p, f, at) && forall i, j | 0 <= i < j < |at| :: at[i] < at[j]
    requires !IsCall(e)
    ensures Tracked(p + [e], C.Step(f, e), at)
  {
    hide Answered, Newest, Unanswered, Answers, C.OnEvent, C.Bears, C.MentionOf, IsAt;
    var g := C.Step(f, e);
    C.EventShape(f, e);
    forall i | 0 <= i < |at| ensures IsAt(p + [e], g.calls[i], at[i]) {
      EventAt(p, f, at, e, i);
      IsAtOn(p, e, f.calls[i], g.calls[i], at[i]);
    }
    forall k | k in g.byId ensures Newest(p + [e], at[g.byId[k]], k) {
      AtWithin(p, f.calls[f.byId[k]], at[f.byId[k]]);
      NewestOn(p, e, at[f.byId[k]], k);
    }
  }

  lemma AtWithin(p: seq<Entry>, c: C.Call, t: nat)
    requires IsAt(p, c, t)
    ensures t < |p| && CallsAs(p[t], c.callId)
  {}

  /** What an entry does to the output of one call. */
  lemma EventAt(p: seq<Entry>, f: C.Fold, at: seq<nat>, e: Entry, i: nat)
    requires Tracked(p, f, at) && (forall i, j | 0 <= i < j < |at| :: at[i] < at[j]) && !IsCall(e) && i < |at|
    ensures var (c, g) := (f.calls[i], C.Step(f, e));
            |g.calls| == |at| && g.calls[i].callId == c.callId
            && g.calls[i].output == if Answers(e, c.callId) && Newest(p, at[i], c.callId) && c.output.None? then Some(C.At(e.id, e.body.item)) else c.output
  {
    hide Answered, Unanswered, C.OnEvent;
    C.EventShape(f, e);
    var c := f.calls[i];
    if C.MentionOf(e) != C.Nothing {
      OutputOf(c, e);
    }
    if Answers(e, c.callId) && Newest(p, at[i], c.callId) {
      var j := f.byId[c.callId];
      AtWithin(p, f.calls[j], at[j]);
      AtWithin(p, c, at[i]);
      assert i == j;
    }
  }

  lemma TrackedCall(p: seq<Entry>, f: C.Fold, at: seq<nat>, e: Entry)
    requires Tracked(p, f, at) && IsCall(e)
    ensures Tracked(p + [e], C.Step(f, e), at + [|p|])
  {
    hide Answered, Newest, Unanswered, Answers, C.NewCall, IsAt;
    C.NewCallIs(e);
    IsAtNew(p, e);
    var (g, k0) := (C.Step(f, e), e.body.item.callId);
    forall i | 0 <= i < |at| ensures IsAt(p + [e], g.calls[i], at[i]) {
      NoOutput(e, f.calls[i].callId);
      IsAtOn(p, e, f.calls[i], f.calls[i], at[i]);
    }
    forall k | k in g.byId && k != k0 ensures Newest(p + [e], (at + [|p|])[g.byId[k]], k) {
      AtWithin(p, f.calls[f.byId[k]], at[f.byId[k]]);
      NewestOn(p, e, at[f.byId[k]], k);
    }
  }

  lemma NoOutput(e: Entry, k: string)
    requires IsCall(e)
    ensures !Answers(e, k)
  {}

  lemma {:induction false} CallsTracked(p: seq<Entry>)
    ensures Tracked(p, C.FoldOf(p), Places(p))
  {
    if p != [] {
      hide C.Step, Tracked;
      var (before, e) := (p[..|p| - 1], p[|p| - 1]);
      CallsTracked(before);
      PlacesExact(before);
      assert p == before + [e];
      C.FoldSnoc(before, e);
      if IsCall(e) {
        TrackedCall(before, C.FoldOf(before), Places(before), e);
      } else {
        assert Places(p) == Places(before);
        TrackedStep(before, C.FoldOf(before), Places(before), e);
      }
    }
  }

  // ----- the references outputs carry -----

  ghost predicate HasOutput(p: seq<Entry>, t: nat, k: string) {
    exists o: nat :: Answered(p, t, o, k)
  }

  /** The last call of the id that has an output, and that output. */
  ghost predicate LastIn(p: seq<Entry>, t: nat, o: nat, k: string) {
    Answered(p, t, o, k) && forall t1: nat | HasOutput(p, t1, k) :: t1 <= t
  }

  ghost predicate HasAnswer(p: seq<Entry>, k: string) {
    exists t: nat :: HasOutput(p, t, k)
  }

  lemma {:induction false} RefsAtIs(p: seq<Entry>, o: nat)
    requires Distinct(p) && o < |p|
    ensures RefsAt(p, p[o].id) == p[o].parents
  {
    if o > 0 {
      assert forall i | 0 <= i < |p[1..]| :: p[1..][i] == p[i + 1];
      RefsAtIs(p[1..], o - 1);
    }
  }

  /** The last call of the list with the id and an output. */
  ghost predicate LastCall(calls: seq<C.Call>, k: string, i: nat) {
    && i < |calls| && calls[i].callId == k && calls[i].output.Some?
    && forall j | i < j < |calls| && calls[j].callId == k :: calls[j].output.None?
  }

  lemma {:induction false} OutputsOfLast(p: seq<Entry>, calls: seq<C.Call>, k: string)
    ensures k in OutputsOf(p, calls) <==> exists i: nat :: LastCall(calls, k, i)
    ensures forall i: nat | LastCall(calls, k, i) :: k in OutputsOf(p, calls) && OutputsOf(p, calls)[k] == RefsAt(p, calls[i].output.value.id)
  {
    if calls != [] {
      var (before, n) := (calls[..|calls| - 1], |calls| - 1);
      OutputsOfLast(p, before, k);
      if calls[n].callId == k && calls[n].output.Some? {
        assert LastCall(calls, k, n);
      } else {
        forall i: nat ensures LastCall(calls, k, i) <==> LastCall(before, k, i) {
        }
      }
    }
  }

  lemma AnsweredOnce(p: seq<Entry>, t: nat, o: nat, o1: nat, k: string)
    requires Answered(p, t, o, k) && Answered(p, t, o1, k)
    ensures o == o1
  {}

  lemma CallHas(p: seq<Entry>, i: nat, k: string)
    requires i < |C.FoldOf(p).calls| && C.FoldOf(p).calls[i].callId == k && C.FoldOf(p).calls[i].output.Some?
    ensures i < |Places(p)| && HasOutput(p, Places(p)[i], k)
  {
    hide Answered, Newest, Unanswered, C.FoldOf;
    CallsTracked(p);
    assert IsAt(p, C.FoldOf(p).calls[i], Places(p)[i]);
  }

  lemma CallOf(p: seq<Entry>, t: nat, o: nat, k: string) returns (i: nat)
    requires Answered(p, t, o, k)
    ensures i < |Places(p)| && Places(p)[i] == t && i < |C.FoldOf(p).calls| && C.FoldOf(p).calls[i].callId == k
    ensures C.FoldOf(p).calls[i].output.Some? && C.FoldOf(p).calls[i].output.value.id == p[o].id
  {
    hide Newest, Unanswered, C.FoldOf;
    CallsTracked(p);
    PlacesExact(p);
    i :| 0 <= i < |Places(p)| && Places(p)[i] == t;
    assert IsAt(p, C.FoldOf(p).calls[i], t);
  }

  lemma LastIs(p: seq<Entry>, t: nat, o: nat, k: string) returns (i: nat)
    requires LastIn(p, t, o, k)
    ensures LastCall(C.FoldOf(p).calls, k, i) && C.FoldOf(p).calls[i].output.value.id == p[o].id
  {
    hide C.FoldOf, Answered, Places;
    i := CallOf(p, t, o, k);
    var calls := C.FoldOf(p).calls;
    forall j | i < j < |calls| && calls[j].callId == k ensures calls[j].output.None? {
      if calls[j].output.Some? {
        CallHas(p, j, k);
        PlacesExact(p);
      }
    }
  }

  lemma {:induction false} SomeLast(p: seq<Entry>, k: string, t0: nat, n: nat) returns (t: nat)
    requires t0 < n && HasOutput(p, t0, k)
    ensures HasOutput(p, t, k) && forall t1 | t < t1 < n :: !HasOutput(p, t1, k)
  {
    hide HasOutput;
    if HasOutput(p, n - 1, k) {
      t := n - 1;
    } else {
      t := SomeLast(p, k, t0, n - 1);
    }
  }

  lemma LastExists(p: seq<Entry>, k: string)
    requires HasAnswer(p, k)
    ensures exists t: nat, o: nat :: LastIn(p, t, o, k)
  {
    hide Answered;
    AnswerWithin(p, k);
    var t0: nat :| HasOutput(p, t0, k);
    var t := SomeLast(p, k, t0, |p|);
    var o: nat :| Answered(p, t, o, k);
    assert LastIn(p, t, o, k);
  }

  /** The references one path gives a call id. */
  lemma PathOutputs(p: seq<Entry>, k: string)
    requires Distinct(p)
    ensures var outputs := OutputsOf(p, C.FoldOf(p).calls);
            && (k in outputs <==> HasAnswer(p, k))
            && forall t: nat, o: nat | LastIn(p, t, o, k) :: o < |p| && k in outputs && outputs[k] == p[o].parents
  {
    hide Answered, C.FoldOf, OutputsOf, RefsAt, Places;
    var calls := C.FoldOf(p).calls;
    OutputsOfLast(p, calls, k);
    forall t: nat, o: nat | LastIn(p, t, o, k)
      ensures o < |p| && k in OutputsOf(p, calls) && OutputsOf(p, calls)[k] == p[o].parents
    {
      AnswerWithin(p, k);
      var i := LastIs(p, t, o, k);
      RefsAtIs(p, o);
    }
    if HasAnswer(p, k) {
      LastExists(p, k);
    }
    if k in OutputsOf(p, calls) {
      var i: nat :| LastCall(calls, k, i);
      CallHas(p, i, k);
    }
  }

  /** The output of a call id on the paths: on the last path that has one. */
  ghost predicate LastAnswer(ps: seq<seq<Entry>>, n: nat, t: nat, o: nat, k: string) {
    n < |ps| && LastIn(ps[n], t, o, k) && forall m | n < m < |ps| :: !HasAnswer(ps[m], k)
  }

  ghost predicate EachDistinct(ps: seq<seq<Entry>>) {
    forall n | 0 <= n < |ps| :: Distinct(ps[n])
  }

  /** The references a call id's output carries on the paths. */
  lemma {:induction false} OutputsExactly(ps: seq<seq<Entry>>, k: string)
    requires EachDistinct(ps)
    ensures k in Outputs(ps) <==> exists n :: 0 <= n < |ps| && HasAnswer(ps[n], k)
    ensures forall n: nat, t: nat, o: nat | LastAnswer(ps, n, t, o, k) :: o < |ps[n]| && k in Outputs(ps) && Outputs(ps)[k] == ps[n][o].parents
  {
    if ps != [] {
      hide HasAnswer, LastAnswer, Outputs, Distinct;
      var before := ps[..|ps| - 1];
      assert forall n | 0 <= n < |before| :: before[n] == ps[n];
      OutputsExactly(before, k);
      OutputsLast(ps, k);
      forall n: nat, t: nat, o: nat | LastAnswer(ps, n, t, o, k)
        ensures o < |ps[n]| && k in Outputs(ps) && Outputs(ps)[k] == ps[n][o].parents
      {
        LastAnswerOn(ps, n, t, o, k);
      }
    }
  }

  /** The last path decides, when it has an output of the call. */
  lemma OutputsLast(ps: seq<seq<Entry>>, k: string)
    requires ps != [] && EachDistinct(ps)
    ensures var (before, p) := (Outputs(ps[..|ps| - 1]), ps[|ps| - 1]);
            && (k in Outputs(ps) <==> k in before || HasAnswer(p, k))
            && (!HasAnswer(p, k) && k in before ==> Outputs(ps)[k] == before[k])
            && (forall t: nat, o: nat | LastIn(p, t, o, k) :: o < |p| && k in Outputs(ps) && Outputs(ps)[k] == p[o].parents)
  {
    hide HasAnswer, LastIn, C.FoldOf, OutputsOf, Distinct;
    PathOutputs(ps[|ps| - 1], k);
  }

  lemma LastAnswerOn(ps: seq<seq<Entry>>, n: nat, t: nat, o: nat, k: string)
    requires LastAnswer(ps, n, t, o, k)
    ensures n < |ps|
    ensures if n == |ps| - 1 then LastIn(ps[n], t, o, k) else !HasAnswer(ps[|ps| - 1], k) && LastAnswer(ps[..|ps| - 1], n, t, o, k)
  {
    hide HasAnswer, LastIn;
  }

  lemma {:induction false} LastAnswerExists(ps: seq<seq<Entry>>, k: string)
    requires exists n :: 0 <= n < |ps| && HasAnswer(ps[n], k)
    ensures exists n: nat, t: nat, o: nat :: LastAnswer(ps, n, t, o, k)
  {
    hide HasAnswer, LastIn;
    var (before, last) := (ps[..|ps| - 1], |ps| - 1);
    if HasAnswer(ps[last], k) {
      LastExists(ps[last], k);
      var t: nat, o: nat :| LastIn(ps[last], t, o, k);
      assert LastAnswer(ps, last, t, o, k);
    } else {
      var n :| 0 <= n < |ps| && HasAnswer(ps[n], k);
      assert before[n] == ps[n];
      LastAnswerExists(before, k);
      var m: nat, t: nat, o: nat :| LastAnswer(before, m, t, o, k);
      assert LastAnswer(ps, m, t, o, k);
    }
  }

  // ----- the leaf a link counts -----

  /** The first reference of the list to the session. */
  ghost predicate FirstRef(refs: seq<Ref>, session: string, r: nat) {
    r < |refs| && refs[r].session == session && forall q | 0 <= q < r :: refs[q].session != session
  }

  ghost predicate RefersTo(refs: seq<Ref>, session: string, x: Id) {
    exists r: nat :: FirstRef(refs, session, r) && refs[r].entry == x
  }

  lemma {:induction false} NamedInExactly(refs: seq<Ref>, session: string)
    ensures forall x :: NamedIn(refs, session) == Some(x) <==> RefersTo(refs, session, x)
  {
    if refs != [] {
      var rest := refs[1..];
      NamedInExactly(rest, session);
      if refs[0].session == session {
        assert FirstRef(refs, session, 0);
      } else {
        forall x ensures RefersTo(refs, session, x) <==> RefersTo(rest, session, x) {
          if RefersTo(rest, session, x) {
            var r: nat :| FirstRef(rest, session, r) && rest[r].entry == x;
            assert FirstRef(refs, session, r + 1);
          }
          if RefersTo(refs, session, x) {
            var r: nat :| FirstRef(refs, session, r) && refs[r].entry == x;
            assert FirstRef(rest, session, r - 1);
          }
        }
      }
    }
  }

  ghost predicate Refers(refs: seq<Ref>, session: string) {
    exists r :: 0 <= r < |refs| && refs[r].session == session
  }

  /** j is the first entry after i that names the session. */
  ghost predicate FirstLater(p: seq<Entry>, i: nat, j: nat, session: string) {
    i < j < |p| && Refers(p[j].parents, session) && forall m | i < m < j :: !Refers(p[m].parents, session)
  }

  /** A link names x: in the output of its call, or, with no call, in the first
      entry after it that names its session at all. */
  ghost predicate Names(ps: seq<seq<Entry>>, k: nat, i: nat, x: Id)
    requires k < |ps| && i < |ps[k]| && Delegates(ps[k][i])
  {
    var l := ps[k][i].body.link;
    if l.callId != "" then
      exists n: nat, t: nat, o: nat :: LastAnswer(ps, n, t, o, l.callId) && RefersTo(ps[n][o].parents, l.session, x)
    else
      exists j: nat :: FirstLater(ps[k], i, j, l.session) && RefersTo(ps[k][j].parents, l.session, x)
  }

  lemma RefersOnce(refs: seq<Ref>, session: string, x: Id, y: Id)
    requires RefersTo(refs, session, x) && RefersTo(refs, session, y)
    ensures x == y
  {}

  lemma {:induction false} RefersSome(refs: seq<Ref>, session: string)
    ensures NamedIn(refs, session).Some? <==> Refers(refs, session)
  {
    if refs != [] {
      assert forall q | 0 <= q < |refs| - 1 :: refs[1..][q] == refs[q + 1];
      RefersSome(refs[1..], session);
      if Refers(refs, session) && refs[0].session != session {
        var q :| 0 <= q < |refs| && refs[q].session == session;
        assert refs[1..][q - 1].session == session;
      }
    }
  }

  lemma {:induction false} FirstNamingIs(later: seq<Entry>, session: string)
    ensures (forall j | 0 <= j < |later| :: !Refers(later[j].parents, session)) ==> FirstNaming(later, session) == []
    ensures forall j | 0 <= j < |later| && Refers(later[j].parents, session) && (forall m | 0 <= m < j :: !Refers(later[m].parents, session)) ::
              FirstNaming(later, session) == later[j].parents
  {
    if later != [] {
      hide Refers;
      RefersSome(later[0].parents, session);
      FirstNamingIs(later[1..], session);
      forall j | 0 <= j < |later| && Refers(later[j].parents, session) && (forall m | 0 <= m < j :: !Refers(later[m].parents, session))
        ensures FirstNaming(later, session) == later[j].parents
      {
        if j > 0 {
          assert !Refers(later[0].parents, session);
          assert later[1..][j - 1] == later[j];
        }
      }
    }
  }

  lemma FirstLaterIs(p: seq<Entry>, i: nat, session: string)
    requires i < |p|
    ensures forall j: nat | FirstLater(p, i, j, session) :: FirstNaming(p[i + 1..], session) == p[j].parents
    ensures FirstNaming(p[i + 1..], session) == [] || exists j: nat :: FirstLater(p, i, j, session)
  {
    hide Refers;
    var later := p[i + 1..];
    FirstNamingIs(later, session);
    forall j: nat | FirstLater(p, i, j, session) ensures FirstNaming(later, session) == p[j].parents {
      assert later[j - i - 1] == p[j];
      assert forall m | 0 <= m < j - i - 1 :: later[m] == p[m + i + 1];
    }
    if exists j :: 0 <= j < |later| && Refers(later[j].parents, session) {
      var j :| 0 <= j < |later| && Refers(later[j].parents, session);
      var first := LeastRefers(later, session, j);
      assert forall m | i < m < first + i + 1 :: p[m] == later[m - i - 1];
      assert FirstLater(p, i, first + i + 1, session);
    }
  }

  lemma {:induction false} LeastRefers(later: seq<Entry>, session: string, j: nat) returns (first: nat)
    requires j < |later| && Refers(later[j].parents, session)
    ensures first <= j && Refers(later[first].parents, session) && forall m | 0 <= m < first :: !Refers(later[m].parents, session)
    decreases j
  {
    hide Refers;
    if exists m | 0 <= m < j :: Refers(later[m].parents, session) {
      var m :| 0 <= m < j && Refers(later[m].parents, session);
      first := LeastRefers(later, session, m);
    } else {
      first := j;
    }
  }

  /** The leaf a link takes, told by the entries on the paths: by the output of
      its call, or by the first later entry that names its session. */
  lemma NamedExactly(ps: seq<seq<Entry>>, k: nat, i: nat, x: Id)
    requires EachDistinct(ps) && k < |ps| && i < |ps[k]| && Delegates(ps[k][i])
    ensures Named(Outputs(ps), ps[k], i) == Some(x) <==> Names(ps, k, i, x)
  {
    hide Outputs, LastAnswer, RefersTo, FirstLater, HasAnswer, NamedIn, FirstNaming;
    var l := ps[k][i].body.link;
    if l.callId != "" {
      OutputsExactly(ps, l.callId);
      if l.callId in Outputs(ps) {
        LastAnswerExists(ps, l.callId);
        NamedInExactly(Outputs(ps)[l.callId], l.session);
      } else {
        forall n: nat, t: nat, o: nat ensures !LastAnswer(ps, n, t, o, l.callId) {
          if LastAnswer(ps, n, t, o, l.callId) {
            LastAnswerIn(ps, n, t, o, l.callId);
          }
        }
      }
    } else {
      var refs := FirstNaming(ps[k][i + 1..], l.session);
      FirstLaterIs(ps[k], i, l.session);
      NamedInExactly(refs, l.session);
      NamedInNothing(l.session);
    }
  }

  lemma LastAnswerIn(ps: seq<seq<Entry>>, n: nat, t: nat, o: nat, k: string)
    requires LastAnswer(ps, n, t, o, k)
    ensures n < |ps| && HasAnswer(ps[n], k)
  {
    hide Answered;
    assert HasOutput(ps[n], t, k);
  }

  lemma NamedInNothing(session: string)
    ensures NamedIn([], session) == None
  {}

  /** The paths whose links the result counts: the path asked about, or those
      to all the leaves a session counts. */
  ghost predicate Counts(g: Graph, path: seq<Entry>, w: Work, from: string, ps: seq<seq<Entry>>) {
    if from == "" then ps == [path]
    else from in w.nodes && from in g && ps == PathsOf(g, from, EntriesOf(w.nodes[from].leaves))
  }

  ghost predicate HasLeaf(w: Work, s: string, x: Id, named: bool) {
    s in w.nodes && exists j :: 0 <= j < |w.nodes[s].leaves| && w.nodes[s].leaves[j].entry == x && (named ==> w.nodes[s].leaves[j].named)
  }

  /** x is counted as a leaf of s, or reported when s holds no such entry. */
  ghost predicate Takes(g: Graph, w: Work, s: string, x: Id, named: bool)
    requires s in g
  {
    if PathTo(g[s].entries, x) != [] then HasLeaf(w, s, x, named)
    else exists u :: 0 <= u < |w.unread| && w.unread[u].session == s && w.unread[u].why == NoEntry(x)
  }

  ghost predicate Unnamed(ps: seq<seq<Entry>>, k: nat, i: nat)
    requires k < |ps| && i < |ps[k]| && Delegates(ps[k][i])
  {
    forall x :: !Names(ps, k, i, x)
  }

  /** Every session is a tree of entries, and no id is on the path twice. */
  ghost predicate Trees(g: Graph, path: seq<Entry>) {
    Distinct(path) && forall s | s in g :: Wf(s, g[s].entries)
  }

  lemma PathsDistinct(g: Graph, path: seq<Entry>, s: string, ids: seq<Id>)
    requires Trees(g, path) && s in g
    ensures EachDistinct(PathsOf(g, s, ids))
  {
    hide Wf;
    forall n | 0 <= n < |ids| ensures Distinct(PathsOf(g, s, ids)[n]) {
      PathIsChain(s, g[s].entries, ids[n]);
    }
  }

  lemma ScansDistinct(g: Graph, path: seq<Entry>, w: Work, from: string, ps: seq<seq<Entry>>)
    requires Trees(g, path) && (Scans(g, path, w, from, ps) || Counts(g, path, w, from, ps))
    ensures EachDistinct(ps)
  {
    hide Trees, PathsOf, EntriesOf;
    if from == "" {
      RootDistinct(g, path);
    } else if Counts(g, path, w, from, ps) {
      PathsDistinct(g, path, from, EntriesOf(w.nodes[from].leaves));
    } else {
      var m: nat :| m <= |w.nodes[from].leaves| && ps == PathsOf(g, from, EntriesOf(w.nodes[from].leaves)[..m]);
      PathsDistinct(g, path, from, EntriesOf(w.nodes[from].leaves)[..m]);
    }
  }

  lemma RootDistinct(g: Graph, path: seq<Entry>)
    requires Trees(g, path)
    ensures EachDistinct([path])
  {}

  lemma {:induction false} FirstMeeting(ps: seq<seq<Entry>>, k: nat, i: nat) returns (m: nat, j: nat)
    requires k < |ps| && i < |ps[k]| && Delegates(ps[k][i])
    ensures FirstMet(ps, m, j) && ps[m][j].id == ps[k][i].id && !Earlier(k, i, m, j)
    decreases k, i
  {
    if MetBefore(ps, k, i, ps[k][i].id) {
      var m1: nat, j1: nat :| LinkAt(ps, m1, j1, ps[k][i].id) && Earlier(m1, j1, k, i);
      m, j := FirstMeeting(ps, m1, j1);
    } else {
      m, j := k, i;
    }
  }

  /** Every link of a counted path, where it is first met, counts the leaf the
      entries about it name, and else the child's own; a session that cannot be
      read is reported. */
  lemma CountsExactly(g: Graph, path: seq<Entry>, w: Work, from: string, ps: seq<seq<Entry>>, k: nat, i: nat)
    requires Fixpoint(g, path, w) && Counts(g, path, w, from, ps) && Trees(g, path) && FirstMet(ps, k, i)
    ensures var s := ps[k][i].body.link.session;
            if s in g then
              && (forall x | Names(ps, k, i, x) :: Takes(g, w, s, x, true))
              && (Unnamed(ps, k, i) ==> Takes(g, w, s, g[s].leaf, false))
            else exists u :: 0 <= u < |w.unread| && w.unread[u].session == s && !w.unread[u].why.NoEntry?
  {
    hide Named, Outputs, Names, PathTo, NodeOk, OrderOk, NodeJustified, LeafJustified, UnreadJustified, MetBefore, Trees, PathsOf;
    ScansDistinct(g, path, w, from, ps);
    var s := ps[k][i].body.link.session;
    assert Covered(g, w, ps);
    assert SettledAt(g, w, Outputs(ps), ps, k, i);
    forall x ensures Named(Outputs(ps), ps[k], i) == Some(x) <==> Names(ps, k, i, x) {
      NamedExactly(ps, k, i, x);
    }
    if s in g {
      SettledTakes(g, w, s, Named(Outputs(ps), ps[k], i));
    } else {
      NotRead(g, w, s, Named(Outputs(ps), ps[k], i));
    }
  }

  lemma SettledTakes(g: Graph, w: Work, s: string, named: Option<Id>)
    requires Settled(g, w, s, named) && Inv(g, w) && Reported(w) && s in g
    ensures Takes(g, w, s, LeafOf(g[s], named).entry, named.Some?)
  {
    hide OrderOk, PathTo, Reports, SameReport;
    var leaf := LeafOf(g[s], named);
    if CountsLeaf(w.nodes[s].leaves, leaf) {
      var i :| 0 <= i < |w.nodes[s].leaves| && CountsAt(w.nodes[s].leaves, leaf, i);
      assert NodeOk(g, s, w.nodes[s]);
    }
  }

  lemma NotRead(g: Graph, w: Work, s: string, named: Option<Id>)
    requires Settled(g, w, s, named) && Reported(w) && s !in g
    ensures exists u :: 0 <= u < |w.unread| && w.unread[u].session == s && !w.unread[u].why.NoEntry?
  {
    hide Reports, SameReport;
  }

  /** The leaf at j is one a link on paths a scan read takes, named if it is
      marked so. */
  ghost predicate TakenBy(g: Graph, path: seq<Entry>, w: Work, s: string, leaf: Leaf, from: string, ps: seq<seq<Entry>>, k: nat, i: nat) {
    && s in g && LinkOn(g, path, w, s, from, ps, k, i)
    && if leaf.named then Names(ps, k, i, leaf.entry) else Unnamed(ps, k, i) && leaf.entry == g[s].leaf
  }

  /** No leaf is counted but one a link takes so. */
  lemma LeavesExactly(g: Graph, path: seq<Entry>, w: Work, s: string, j: nat)
    requires Fixpoint(g, path, w) && Trees(g, path) && s in w.nodes && j < |w.nodes[s].leaves|
    ensures exists from, ps, k: nat, i: nat :: TakenBy(g, path, w, s, w.nodes[s].leaves[j], from, ps, k, i)
  {
    hide Inv, Covered, Reported, NodeJustified, UnreadJustified, Named, Outputs, Names, Trees, Scans;
    var leaf := w.nodes[s].leaves[j];
    assert LeafJustified(g, path, w, s, leaf);
    var from, ps, k: nat, i: nat :| LeafBy(g, path, w, s, leaf, from, ps, k, i);
    ScansDistinct(g, path, w, from, ps);
    forall x ensures Named(Outputs(ps), ps[k], i) == Some(x) <==> Names(ps, k, i, x) {
      NamedExactly(ps, k, i, x);
    }
    assert TakenBy(g, path, w, s, leaf, from, ps, k, i);
  }

  /** What one report says is so, of a link on paths a scan read. */
  ghost predicate ReportIs(g: Graph, path: seq<Entry>, w: Work, u: Unread, from: string, ps: seq<seq<Entry>>, k: nat, i: nat) {
    && LinkOn(g, path, w, u.session, from, ps, k, i) && ps[k][i].id == u.link
    && match u.why
       case Elsewhere => u.session !in g && ps[k][i].body.link.url != ""
       case NotFound => u.session !in g && ps[k][i].body.link.url == ""
       case NoEntry(leaf) =>
         && u.session in g && PathTo(g[u.session].entries, leaf) == []
         && (Names(ps, k, i, leaf) || (Unnamed(ps, k, i) && leaf == g[u.session].leaf))
  }

  /** Nothing is reported twice, or without cause. */
  lemma ReportsExactly(g: Graph, path: seq<Entry>, w: Work, j: nat)
    requires Fixpoint(g, path, w) && Trees(g, path) && j < |w.unread|
    ensures exists from, ps, k: nat, i: nat :: ReportIs(g, path, w, w.unread[j], from, ps, k, i)
    ensures forall l | 0 <= l < |w.unread| && l != j :: !SameReport(w.unread[l], w.unread[j])
  {
    hide Inv, Covered, Reports, NodeJustified, LeafJustified, Named, Outputs, Names, Trees, Scans, PathTo;
    var u := w.unread[j];
    assert UnreadJustified(g, path, w, u);
    var from, ps, k: nat, i: nat :| UnreadBy(g, path, w, u, from, ps, k, i);
    ScansDistinct(g, path, w, from, ps);
    forall x ensures Named(Outputs(ps), ps[k], i) == Some(x) <==> Names(ps, k, i, x) {
      NamedExactly(ps, k, i, x);
    }
    assert ReportIs(g, path, w, u, from, ps, k, i);
  }
}

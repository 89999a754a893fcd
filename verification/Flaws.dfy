/** What the fold of a path records of a call, told from where its entries
    stand: what bears on it, in order, and which of those break a rule. */
module Flaws {
  import opened Entries
  import opened Tree
  import opened Calls
  import opened CallRules
  import opened CallSafety

  // ----- what bears on a call -----

  /** No call with the id stands between. */
  ghost predicate NoneSince(path: seq<Entry>, t: nat, n: nat, k: string)
    requires n <= |path|
  {
    forall j | t < j < n && IsCall(path[j]) :: path[j].body.item.callId != k
  }

  /** The entry at i is about the call at t: it targets it, or is an output of
      its call id with no other call of that id between. */
  ghost predicate BearsAt(path: seq<Entry>, t: nat, i: nat)
    requires t < |path| && IsCall(path[t]) && i < |path|
  {
    t < i &&
    match path[i].body
    case ItemBody(FunctionCallOutput(k, _), _, _) => k == path[t].body.item.callId && NoneSince(path, t, i, k)
    case DecisionBody(d) => d.target == path[t].id
    case DispatchBody(d) => d.target == path[t].id
    case ResultBody(r) => r.target == path[t].id
    case _ => false
  }

  ghost function Events(path: seq<Entry>, t: nat, n: nat): seq<Entry>
    requires t < n <= |path| && IsCall(path[t])
  {
    if n == t + 1 then []
    else Events(path, t, n - 1) + if BearsAt(path, t, n - 1) then [path[n - 1]] else []
  }

  function After(c: Call, evs: seq<Entry>): Call {
    if evs == [] then c else OnEvent(After(c, evs[..|evs| - 1]), evs[|evs| - 1])
  }

  lemma AfterSnoc(c: Call, evs: seq<Entry>, e: Entry)
    ensures After(c, evs + [e]) == OnEvent(After(c, evs), e)
  {
    assert (evs + [e])[..|evs|] == evs;
  }

  lemma CallPlaced(path: seq<Entry>, t: nat)
    requires Distinct(path) && t < |path| && IsCall(path[t])
    ensures var (f, k) := (FoldOf(path), path[t].body.item.callId);
            path[t].id in f.byEntry && k in f.byId && f.calls[f.byEntry[path[t].id]].callId == k
  {
    hide FoldOf;
    FoldHolds(path);
    assert Holds(FoldOf(path), path[t]);
  }

  /** The newest call of an id, in a fold and on its path. */
  lemma {:induction false} NewestCall(path: seq<Entry>, t: nat, n: nat)
    requires Distinct(path) && t < n <= |path| && IsCall(path[t])
    ensures var (f, k) := (FoldOf(path[..n]), path[t].body.item.callId);
            path[t].id in f.byEntry && k in f.byId && (f.byId[k] == f.byEntry[path[t].id] <==> NoneSince(path, t, n, k))
    decreases n
  {
    hide FoldOf, Step;
    var (before, e) := (path[..n - 1], path[n - 1]);
    assert path[..n] == before + [e];
    FoldSnoc(before, e);
    if n == t + 1 {
      NewCallNewest(FoldOf(before), e);
    } else {
      NewestCall(path, t, n - 1);
      NewestStep(FoldOf(before), e, path[t].id, path[t].body.item.callId);
    }
  }

  lemma NewCallNewest(f: Fold, e: Entry)
    requires FoldOk(f) && IsCall(e)
    ensures var (g, k) := (Step(f, e), e.body.item.callId); e.id in g.byEntry && k in g.byId && g.byId[k] == g.byEntry[e.id]
  {}

  lemma NewestStep(f: Fold, e: Entry, t: Id, k: string)
    requires FoldOk(f) && t in f.byEntry && k in f.byId && e.id != t
    ensures var g := Step(f, e);
            t in g.byEntry && k in g.byId
            && (g.byId[k] == g.byEntry[t] <==> f.byId[k] == f.byEntry[t] && !(IsCall(e) && e.body.item.callId == k))
  {
    if !IsCall(e) {
      EventShape(f, e);
    }
  }

  /** The fold's mention of an entry leads to the call it is about. */
  lemma BearsOn(path: seq<Entry>, t: nat, n: nat)
    requires Distinct(path) && TargetsOk(path) && t < n < |path| && IsCall(path[t]) && !IsCall(path[n])
    ensures var f := FoldOf(path[..n]);
            path[t].id in f.byEntry && (Bears(f, MentionOf(path[n])) == Some(f.byEntry[path[t].id]) <==> BearsAt(path, t, n))
  {
    hide FoldOf, HoldsCall, NoneSince;
    NewestCall(path, t, n);
    DistinctOn(path, n);
    match MentionOf(path[n])
    case Names(k, target) =>
      assert HoldsCall(path[..n], target, k);
      TargetPlaced(path[..n], target, k);
    case Output(k) =>
      CallPlaced(path[..n], t);
    case _ =>
  }

  lemma TargetPlaced(path: seq<Entry>, target: Id, k: string)
    requires Distinct(path) && HoldsCall(path, target, k)
    ensures target in FoldOf(path).byEntry
  {
    hide FoldOf;
    var i :| 0 <= i < |path| && IsCall(path[i]) && path[i].id == target && path[i].body.item.callId == k;
    CallPlaced(path, i);
  }

  /** One entry more, as the call at t has it. */
  lemma CallOn(path: seq<Entry>, t: nat, n: nat)
    requires Distinct(path) && TargetsOk(path) && t < n < |path| && IsCall(path[t])
    ensures var (f, g, id) := (FoldOf(path[..n]), FoldOf(path[..n + 1]), path[t].id);
            id in f.byEntry && id in g.byEntry
            && g.calls[g.byEntry[id]] == if BearsAt(path, t, n) then OnEvent(f.calls[f.byEntry[id]], path[n]) else f.calls[f.byEntry[id]]
  {
    hide OnEvent, NewCall, BearsAt, TargetsOk, FoldOf;
    var f := FoldOf(path[..n]);
    assert path[..n + 1] == path[..n] + [path[n]];
    FoldSnoc(path[..n], path[n]);
    CallPlaced(path[..n], t);
    if IsCall(path[n]) {
      NoEvent(path, t, n);
      assert path[n].id != path[t].id;
    } else {
      EventShape(f, path[n]);
      BearsOn(path, t, n);
    }
  }

  lemma CallBegins(path: seq<Entry>, t: nat)
    requires t < |path| && IsCall(path[t])
    ensures var f := FoldOf(path[..t + 1]); path[t].id in f.byEntry && f.calls[f.byEntry[path[t].id]] == NewCall(path[t])
  {
    hide NewCall, FoldOf;
    assert path[..t + 1] == path[..t] + [path[t]];
    FoldSnoc(path[..t], path[t]);
  }

  lemma EventsOn(path: seq<Entry>, t: nat, n: nat)
    requires t < n < |path| && IsCall(path[t])
    ensures var evs := Events(path, t, n); Events(path, t, n + 1) == if BearsAt(path, t, n) then evs + [path[n]] else evs
  {
    hide BearsAt;
    assert Events(path, t, n) + [] == Events(path, t, n);
  }

  lemma NoEvents(path: seq<Entry>, t: nat)
    requires t < |path| && IsCall(path[t])
    ensures After(NewCall(path[t]), Events(path, t, t + 1)) == NewCall(path[t])
  {}

  /** A call of the fold is what those entries make of it, in order. */
  lemma {:induction false} CallOfEvents(path: seq<Entry>, t: nat, n: nat)
    requires Distinct(path) && TargetsOk(path) && t < n <= |path| && IsCall(path[t])
    ensures var f := FoldOf(path[..n]);
            path[t].id in f.byEntry && f.calls[f.byEntry[path[t].id]] == After(NewCall(path[t]), Events(path, t, n))
    decreases n
  {
    hide OnEvent, NewCall, BearsAt, TargetsOk, FoldOf, After, Events;
    if n == t + 1 {
      CallBegins(path, t);
      NoEvents(path, t);
    } else {
      CallOfEvents(path, t, n - 1);
      CallOn(path, t, n - 1);
      EventsOn(path, t, n - 1);
      AfterSnoc(NewCall(path[t]), Events(path, t, n - 1), path[n - 1]);
    }
  }

  lemma DistinctOn(path: seq<Entry>, n: nat)
    requires Distinct(path) && TargetsOk(path) && n <= |path|
    ensures Distinct(path[..n]) && TargetsOk(path[..n])
    ensures n > 0 ==> forall i | 0 <= i < n - 1 :: path[i].id != path[n - 1].id
  {
    hide HoldsCall;
    assert forall i | 0 <= i < n :: path[..n][..i] == path[..i] && path[..n][i] == path[i];
  }

  lemma NoEvent(path: seq<Entry>, t: nat, i: nat)
    requires t < i < |path| && IsCall(path[t]) && IsCall(path[i])
    ensures !BearsAt(path, t, i)
  {}

  // ----- where the events stand -----

  predicate IsOutput(e: Entry) {
    e.body.ItemBody? && e.body.item.FunctionCallOutput?
  }

  predicate Decides(e: Entry, v: Verdict) {
    e.body.DecisionBody? && e.body.decision.verdict == v
  }

  predicate Ends(e: Entry) {
    Decides(e, Answer) || Decides(e, Reject)
  }

  ghost predicate HadOutput(evs: seq<Entry>, n: nat)
    requires n <= |evs|
  {
    exists i :: 0 <= i < n && IsOutput(evs[i])
  }

  /** A rejection that takes back the dispatch right before it, the call still
      without an output. */
  ghost predicate WithdrawsAt(evs: seq<Entry>, i: nat)
    requires i < |evs|
  {
    && Decides(evs[i], Reject) && evs[i].body.decision.withdrawn
    && i > 0 && evs[i - 1].body.DispatchBody? && !HadOutput(evs, i)
  }

  ghost predicate StandsAt(evs: seq<Entry>, p: nat, n: nat)
    requires p < n <= |evs|
  {
    evs[p].body.DispatchBody? && !(p + 1 < n && WithdrawsAt(evs, p + 1))
  }

  /** Some dispatch among the first n was not taken back. */
  ghost predicate HandedOff(evs: seq<Entry>, n: nat)
    requires n <= |evs|
  {
    exists p :: 0 <= p < n && StandsAt(evs, p, n)
  }

  ghost predicate WasAnswered(evs: seq<Entry>, n: nat)
    requires n <= |evs|
  {
    exists i :: 0 <= i < n && Decides(evs[i], Answer)
  }

  ghost predicate RejectsAt(evs: seq<Entry>, i: nat)
    requires i < |evs|
  {
    Decides(evs[i], Reject) && !WithdrawsAt(evs, i)
  }

  ghost predicate WasRejected(evs: seq<Entry>, n: nat)
    requires n <= |evs|
  {
    exists i :: 0 <= i < n && RejectsAt(evs, i)
  }

  ghost predicate LastResult(evs: seq<Entry>, r: nat, n: nat)
    requires r < n <= |evs|
  {
    evs[r].body.ResultBody? && forall i | r < i < n :: !evs[i].body.ResultBody?
  }

  ghost predicate AnswersAt(evs: seq<Entry>, r: nat, n: nat)
    requires r < n <= |evs|
  {
    LastResult(evs, r, n) && HandedOff(evs, r) && forall p | r < p < n :: !evs[p].body.DispatchBody?
  }

  /** The last result came after a hand-off, and no dispatch since. */
  ghost predicate ResultSince(evs: seq<Entry>, n: nat)
    requires n <= |evs|
  {
    exists r :: 0 <= r < n && AnswersAt(evs, r, n)
  }

  ghost predicate HasReturned(evs: seq<Entry>, n: nat)
    requires n <= |evs|
  {
    !HadOutput(evs, n) && ResultSince(evs, n)
  }

  ghost predicate AnswerStands(evs: seq<Entry>, a: nat, n: nat)
    requires a < n <= |evs|
  {
    Decides(evs[a], Answer) && HasReturned(evs, a) && forall r | a < r < n :: !evs[r].body.ResultBody?
  }

  /** An answer overruled the result in hand, which no newer one replaced. */
  ghost predicate AnsweredSince(evs: seq<Entry>, n: nat)
    requires n <= |evs|
  {
    exists a :: 0 <= a < n && AnswerStands(evs, a, n)
  }

  // ----- the broken rules -----

  ghost predicate DecidesAt(evs: seq<Entry>, i: nat)
    requires i < |evs|
  {
    evs[i].body.DecisionBody? && !WithdrawsAt(evs, i)
  }

  ghost predicate BadResultAt(evs: seq<Entry>, i: nat)
    requires i < |evs|
  {
    && evs[i].body.ResultBody?
    && (!HandedOff(evs, i) || HadOutput(evs, i) || ResultSince(evs, i) || WasAnswered(evs, i) || WasRejected(evs, i))
  }

  ghost predicate AfterAnswerAt(evs: seq<Entry>, i: nat)
    requires i < |evs|
  {
    DecidesAt(evs, i) && WasAnswered(evs, i)
  }

  ghost predicate AfterRejectAt(evs: seq<Entry>, i: nat)
    requires i < |evs|
  {
    DecidesAt(evs, i) && WasRejected(evs, i)
  }

  ghost predicate AfterResultAt(evs: seq<Entry>, i: nat)
    requires i < |evs|
  {
    HasReturned(evs, i) && (evs[i].body.DispatchBody? || (DecidesAt(evs, i) && !Decides(evs[i], Answer)))
  }

  ghost predicate MismatchAt(evs: seq<Entry>, i: nat)
    requires i < |evs|
  {
    && IsOutput(evs[i]) && HasReturned(evs, i) && !AnsweredSince(evs, i)
    && exists r :: 0 <= r < i && LastResult(evs, r, i) && evs[r].body.result.item != evs[i].body.item
  }

  ghost predicate RejectDispatchedAt(evs: seq<Entry>, i: nat)
    requires i < |evs|
  {
    RejectsAt(evs, i) && HandedOff(evs, i)
  }

  ghost predicate DispatchCompletedAt(evs: seq<Entry>, i: nat)
    requires i < |evs|
  {
    evs[i].body.DispatchBody? && HadOutput(evs, i)
  }

  ghost predicate EndCompletedAt(evs: seq<Entry>, i: nat)
    requires i < |evs|
  {
    DecidesAt(evs, i) && Ends(evs[i]) && HadOutput(evs, i)
  }

  ghost predicate DispatchEndedAt(evs: seq<Entry>, i: nat)
    requires i < |evs|
  {
    evs[i].body.DispatchBody? && (WasAnswered(evs, i) || WasRejected(evs, i))
  }

  // ----- the fold records exactly that -----

  ghost predicate ResultIs(c: Call, e: Entry) {
    e.body.ResultBody? && c.result == Some(At(e.id, e.body.result))
  }

  /** What a call holds after its first n events. */
  ghost predicate Tracks(c: Call, evs: seq<Entry>, n: nat)
    requires n <= |evs|
  {
    && (c.output.Some? <==> HadOutput(evs, n))
    && (c.dispatches != [] <==> HandedOff(evs, n))
    && (c.dispatch.Some? <==> HandedOff(evs, n))
    && (c.Answered() <==> WasAnswered(evs, n))
    && (c.Rejected() <==> WasRejected(evs, n))
    && (c.resultAfterLast <==> ResultSince(evs, n))
    && (c.answeredSinceResult <==> AnsweredSince(evs, n))
    && (c.lastIsDispatch <==> n > 0 && evs[n - 1].body.DispatchBody? && !HadOutput(evs, n))
    && (c.lastIsDispatch ==> (|c.dispatches| > 1 <==> HandedOff(evs, n - 1)))
    && (ResultSince(evs, n) ==> c.result.Some?)
    && (EndingDecision(c.decisions).Some? <==> WasAnswered(evs, n) || WasRejected(evs, n))
  }

  /** And the last of its results. */
  ghost predicate HasLast(c: Call, evs: seq<Entry>, n: nat)
    requires n <= |evs|
  {
    forall r | 0 <= r < n && LastResult(evs, r, n) :: ResultIs(c, evs[r])
  }

  ghost predicate Marked(c: Call, evs: seq<Entry>, n: nat)
    requires n <= |evs|
  {
    && (c.badResult.Some? <==> exists i :: 0 <= i < n && BadResultAt(evs, i))
    && (c.afterAnswer.Some? <==> exists i :: 0 <= i < n && AfterAnswerAt(evs, i))
    && (c.afterReject.Some? <==> exists i :: 0 <= i < n && AfterRejectAt(evs, i))
    && (c.afterResult.Some? <==> exists i :: 0 <= i < n && AfterResultAt(evs, i))
    && (c.outputMismatch.Some? <==> exists i :: 0 <= i < n && MismatchAt(evs, i))
    && (c.rejectAfterDispatch.Some? <==> exists i :: 0 <= i < n && RejectDispatchedAt(evs, i))
    && (c.dispatchAfterOutput.Some? <==> exists i :: 0 <= i < n && DispatchCompletedAt(evs, i))
    && (c.endAfterOutput.Some? <==> exists i :: 0 <= i < n && EndCompletedAt(evs, i))
    && (c.ended.Some? <==> exists i :: 0 <= i < n && DispatchEndedAt(evs, i))
  }

  /** One event more, of each kind. */
  lemma OutputsOn(evs: seq<Entry>, n: nat)
    requires n < |evs|
    ensures HadOutput(evs, n + 1) <==> HadOutput(evs, n) || IsOutput(evs[n])
    ensures WasAnswered(evs, n + 1) <==> WasAnswered(evs, n) || Decides(evs[n], Answer)
    ensures WasRejected(evs, n + 1) <==> WasRejected(evs, n) || RejectsAt(evs, n)
  {}

  lemma HandedOn(evs: seq<Entry>, n: nat)
    requires n < |evs|
    ensures HandedOff(evs, n + 1) <==>
              if WithdrawsAt(evs, n) then HandedOff(evs, n - 1) else HandedOff(evs, n) || evs[n].body.DispatchBody?
  {
    hide HadOutput;
    if WithdrawsAt(evs, n) {
      if HandedOff(evs, n - 1) {
        var p :| 0 <= p < n - 1 && StandsAt(evs, p, n - 1);
        assert StandsAt(evs, p, n + 1);
      }
      if HandedOff(evs, n + 1) {
        var p :| 0 <= p < n + 1 && StandsAt(evs, p, n + 1);
        assert StandsAt(evs, p, n - 1);
      }
    } else {
      if HandedOff(evs, n) {
        var p :| 0 <= p < n && StandsAt(evs, p, n);
        assert StandsAt(evs, p, n + 1);
      }
      if evs[n].body.DispatchBody? {
        assert StandsAt(evs, n, n + 1);
      }
      if HandedOff(evs, n + 1) {
        var p :| 0 <= p < n + 1 && StandsAt(evs, p, n + 1);
        assert p < n ==> StandsAt(evs, p, n);
      }
    }
  }

  lemma ResultOn(evs: seq<Entry>, n: nat)
    requires n < |evs|
    ensures ResultSince(evs, n + 1) <==>
              if evs[n].body.ResultBody? then HandedOff(evs, n)
              else ResultSince(evs, n) && !evs[n].body.DispatchBody?
  {
    hide HandedOff;
    if evs[n].body.ResultBody? && HandedOff(evs, n) {
      assert AnswersAt(evs, n, n + 1);
    }
    if !evs[n].body.ResultBody? && ResultSince(evs, n) && !evs[n].body.DispatchBody? {
      var r :| 0 <= r < n && AnswersAt(evs, r, n);
      assert AnswersAt(evs, r, n + 1);
    }
    if ResultSince(evs, n + 1) {
      var r :| 0 <= r < n + 1 && AnswersAt(evs, r, n + 1);
      if r < n {
        assert AnswersAt(evs, r, n);
      }
    }
  }

  lemma LastOn(evs: seq<Entry>, r: nat, n: nat)
    requires r <= n < |evs|
    ensures LastResult(evs, r, n + 1) <==> if r < n then LastResult(evs, r, n) && !evs[n].body.ResultBody? else evs[n].body.ResultBody?
  {
    assert r < n && LastResult(evs, r, n + 1) ==> !evs[n].body.ResultBody?;
  }

  lemma AnsweredOn(evs: seq<Entry>, n: nat)
    requires n < |evs|
    ensures AnsweredSince(evs, n + 1) <==>
              !evs[n].body.ResultBody? && (AnsweredSince(evs, n) || (Decides(evs[n], Answer) && HasReturned(evs, n)))
  {
    hide HasReturned;
    if !evs[n].body.ResultBody? && AnsweredSince(evs, n) {
      var a :| 0 <= a < n && AnswerStands(evs, a, n);
      assert AnswerStands(evs, a, n + 1);
    }
    if Decides(evs[n], Answer) && HasReturned(evs, n) {
      assert AnswerStands(evs, n, n + 1);
    }
    if AnsweredSince(evs, n + 1) {
      var a :| 0 <= a < n + 1 && AnswerStands(evs, a, n + 1);
      if a < n {
        assert AnswerStands(evs, a, n);
      }
    }
  }

  lemma TracksNew(e: Entry, evs: seq<Entry>)
    requires IsCall(e)
    ensures Tracks(NewCall(e), evs, 0) && HasLast(NewCall(e), evs, 0) && Marked(NewCall(e), evs, 0)
  {}

  predicate IsEvent(e: Entry) {
    IsOutput(e) || e.body.DecisionBody? || e.body.DispatchBody? || e.body.ResultBody?
  }

  lemma VerdictsKept(c: Call, e: Entry)
    requires !e.body.DecisionBody?
    ensures OnEvent(c, e).decisions == c.decisions && forall v :: OnEvent(c, e).HasVerdict(v) == c.HasVerdict(v)
  {}

  lemma LastKept(c: Call, evs: seq<Entry>, n: nat)
    requires n < |evs| && HasLast(c, evs, n)
    ensures HasLast(OnEvent(c, evs[n]), evs, n + 1)
  {
    hide LastResult;
    var e := evs[n];
    assert e.body.ResultBody? ==> OnEvent(c, e).result == Some(At(e.id, e.body.result));
    assert !e.body.ResultBody? ==> OnEvent(c, e).result == c.result;
    forall r: nat | r < n + 1 && LastResult(evs, r, n + 1) ensures ResultIs(OnEvent(c, e), evs[r]) {
      LastOn(evs, r, n);
    }
  }

  lemma TracksOutput(c: Call, evs: seq<Entry>, n: nat)
    requires n < |evs| && IsOutput(evs[n]) && Tracks(c, evs, n)
    ensures Tracks(OnEvent(c, evs[n]), evs, n + 1)
  {
    hide HadOutput, HandedOff, WasAnswered, WasRejected, ResultSince, AnsweredSince, EndingDecision, Calls.Call.HasVerdict;
    OutputsOn(evs, n);
    HandedOn(evs, n);
    ResultOn(evs, n);
    AnsweredOn(evs, n);
    VerdictsKept(c, evs[n]);
  }

  lemma TracksResult(c: Call, evs: seq<Entry>, n: nat)
    requires n < |evs| && evs[n].body.ResultBody? && Tracks(c, evs, n)
    ensures Tracks(OnEvent(c, evs[n]), evs, n + 1)
  {
    hide HadOutput, HandedOff, WasAnswered, WasRejected, ResultSince, AnsweredSince, EndingDecision, Calls.Call.HasVerdict;
    OutputsOn(evs, n);
    HandedOn(evs, n);
    ResultOn(evs, n);
    AnsweredOn(evs, n);
    VerdictsKept(c, evs[n]);
  }

  lemma TracksDispatch(c: Call, evs: seq<Entry>, n: nat)
    requires n < |evs| && evs[n].body.DispatchBody? && Tracks(c, evs, n)
    ensures Tracks(OnEvent(c, evs[n]), evs, n + 1)
  {
    hide HadOutput, HandedOff, WasAnswered, WasRejected, ResultSince, AnsweredSince, EndingDecision, Calls.Call.HasVerdict;
    OutputsOn(evs, n);
    HandedOn(evs, n);
    ResultOn(evs, n);
    AnsweredOn(evs, n);
    VerdictsKept(c, evs[n]);
  }

  lemma WithdrawsIs(c: Call, evs: seq<Entry>, n: nat)
    requires n < |evs| && evs[n].body.DecisionBody? && Tracks(c, evs, n)
    ensures c.Withdraws(evs[n].body.decision) <==> WithdrawsAt(evs, n)
  {
    hide HadOutput, WasAnswered, WasRejected, ResultSince, AnsweredSince, LastResult, StandsAt;
    if n > 0 && evs[n - 1].body.DispatchBody? {
      HandedOn(evs, n - 1);
    }
  }

  lemma {:induction false} EndingOn(ds: seq<At<Decision>>, d: At<Decision>)
    ensures EndingDecision(ds + [d]) ==
              if EndingDecision(ds).Some? then EndingDecision(ds)
              else if d.it.verdict == Reject || d.it.verdict == Answer then Some(d) else None
  {
    if ds != [] {
      assert (ds + [d])[1..] == ds[1..] + [d];
      EndingOn(ds[1..], d);
    } else {
      assert [d][1..] == [];
    }
  }

  lemma VerdictsOn(c: Call, id: Id, d: Decision, v: Verdict)
    ensures !c.Withdraws(d) ==> (OnDecision(c, id, d).HasVerdict(v) <==> c.HasVerdict(v) || d.verdict == v)
    ensures c.Withdraws(d) ==> (OnDecision(c, id, d).HasVerdict(v) <==> c.HasVerdict(v))
  {
    var e := OnDecision(c, id, d);
    if !c.Withdraws(d) {
      assert e.decisions[|c.decisions|].it == d;
      assert forall i | 0 <= i < |c.decisions| :: e.decisions[i] == c.decisions[i];
    }
  }

  lemma TracksDecision(c: Call, evs: seq<Entry>, n: nat)
    requires n < |evs| && evs[n].body.DecisionBody? && Tracks(c, evs, n)
    ensures Tracks(OnEvent(c, evs[n]), evs, n + 1)
  {
    WithdrawsIs(c, evs, n);
    hide HadOutput, HandedOff, WasAnswered, WasRejected, ResultSince, AnsweredSince, LastResult, EndingDecision, WithdrawsAt;
    hide Calls.Call.HasVerdict, Calls.Call.Withdraws;
    var (e, d) := (evs[n], evs[n].body.decision);
    OutputsOn(evs, n);
    HandedOn(evs, n);
    ResultOn(evs, n);
    AnsweredOn(evs, n);
    VerdictsOn(c, e.id, d, Answer);
    VerdictsOn(c, e.id, d, Reject);
    EndingOn(c.decisions, At(e.id, d));
    WithdrawalIs(evs, n);
  }

  lemma WithdrawalIs(evs: seq<Entry>, n: nat)
    requires n < |evs|
    ensures WithdrawsAt(evs, n) ==> Decides(evs[n], Reject) && n > 0 && evs[n - 1].body.DispatchBody? && !HadOutput(evs, n)
  {}

  /** An event sets the marks it earns, and no mark is ever taken back. */
  ghost predicate MarksGrow(c: Call, d: Call, evs: seq<Entry>, n: nat)
    requires n < |evs|
  {
    && (d.badResult.Some? <==> c.badResult.Some? || BadResultAt(evs, n))
    && (d.afterAnswer.Some? <==> c.afterAnswer.Some? || AfterAnswerAt(evs, n))
    && (d.afterReject.Some? <==> c.afterReject.Some? || AfterRejectAt(evs, n))
    && (d.afterResult.Some? <==> c.afterResult.Some? || AfterResultAt(evs, n))
    && (d.outputMismatch.Some? <==> c.outputMismatch.Some? || MismatchAt(evs, n))
    && (d.rejectAfterDispatch.Some? <==> c.rejectAfterDispatch.Some? || RejectDispatchedAt(evs, n))
    && (d.dispatchAfterOutput.Some? <==> c.dispatchAfterOutput.Some? || DispatchCompletedAt(evs, n))
    && (d.endAfterOutput.Some? <==> c.endAfterOutput.Some? || EndCompletedAt(evs, n))
    && (d.ended.Some? <==> c.ended.Some? || DispatchEndedAt(evs, n))
  }

  lemma LastIs(c: Call, evs: seq<Entry>, n: nat)
    requires n <= |evs| && HasLast(c, evs, n) && ResultSince(evs, n)
    ensures c.result.Some? && exists r :: 0 <= r < n && LastResult(evs, r, n)
    ensures forall r | 0 <= r < n && LastResult(evs, r, n) :: c.result.value.it == evs[r].body.result
  {
    hide HandedOff;
    var r :| 0 <= r < n && AnswersAt(evs, r, n);
    assert LastResult(evs, r, n);
  }

  lemma MarksOutput(c: Call, evs: seq<Entry>, n: nat)
    requires n < |evs| && IsOutput(evs[n]) && Tracks(c, evs, n) && HasLast(c, evs, n)
    ensures MarksGrow(c, OnEvent(c, evs[n]), evs, n)
  {
    hide HadOutput, HandedOff, WasAnswered, WasRejected, ResultSince, AnsweredSince, EndingDecision, LastResult;
    if ResultSince(evs, n) {
      LastIs(c, evs, n);
    }
  }

  lemma MarksResult(c: Call, evs: seq<Entry>, n: nat)
    requires n < |evs| && evs[n].body.ResultBody? && Tracks(c, evs, n) && HasLast(c, evs, n)
    ensures MarksGrow(c, OnEvent(c, evs[n]), evs, n)
  {
    hide HadOutput, HandedOff, WasAnswered, WasRejected, ResultSince, AnsweredSince, EndingDecision, LastResult;
  }

  lemma MarksDispatch(c: Call, evs: seq<Entry>, n: nat)
    requires n < |evs| && evs[n].body.DispatchBody? && Tracks(c, evs, n) && HasLast(c, evs, n)
    ensures MarksGrow(c, OnEvent(c, evs[n]), evs, n)
  {
    hide HadOutput, HandedOff, WasAnswered, WasRejected, ResultSince, AnsweredSince, EndingDecision, LastResult;
  }

  lemma MarksDecision(c: Call, evs: seq<Entry>, n: nat)
    requires n < |evs| && evs[n].body.DecisionBody? && Tracks(c, evs, n) && HasLast(c, evs, n)
    ensures MarksGrow(c, OnEvent(c, evs[n]), evs, n)
  {
    hide HadOutput, HandedOff, WasAnswered, WasRejected, ResultSince, AnsweredSince, EndingDecision, LastResult;
    hide WithdrawsAt, Calls.Call.Withdraws, Calls.Call.HasVerdict;
    WithdrawsIs(c, evs, n);
    WithdrawalIs(evs, n);
  }

  lemma MarkedOn(c: Call, d: Call, evs: seq<Entry>, n: nat)
    requires n < |evs| && Marked(c, evs, n) && MarksGrow(c, d, evs, n)
    ensures Marked(d, evs, n + 1)
  {
    hide BadResultAt, AfterAnswerAt, AfterRejectAt, AfterResultAt, MismatchAt, RejectDispatchedAt, DispatchCompletedAt, EndCompletedAt, DispatchEndedAt;
  }

  /** The state of a call after n of the events that bear on it. */
  lemma {:induction false} EventsTracked(e: Entry, evs: seq<Entry>, n: nat)
    requires IsCall(e) && n <= |evs| && forall i | 0 <= i < |evs| :: IsEvent(evs[i])
    ensures var c := After(NewCall(e), evs[..n]); Tracks(c, evs, n) && HasLast(c, evs, n) && Marked(c, evs, n)
  {
    hide Tracks, HasLast, Marked, MarksGrow, OnEvent, NewCall;
    if n == 0 {
      TracksNew(e, evs);
    } else {
      EventsTracked(e, evs, n - 1);
      var c := After(NewCall(e), evs[..n - 1]);
      assert evs[..n] == evs[..n - 1] + [evs[n - 1]];
      AfterSnoc(NewCall(e), evs[..n - 1], evs[n - 1]);
      EventTracked(c, evs, n - 1);
    }
  }

  lemma EventTracked(c: Call, evs: seq<Entry>, n: nat)
    requires n < |evs| && IsEvent(evs[n]) && Tracks(c, evs, n) && HasLast(c, evs, n) && Marked(c, evs, n)
    ensures var d := OnEvent(c, evs[n]); Tracks(d, evs, n + 1) && HasLast(d, evs, n + 1) && Marked(d, evs, n + 1)
  {
    hide Tracks, HasLast, Marked, MarksGrow, OnEvent;
    if IsOutput(evs[n]) {
      TracksOutput(c, evs, n);
      MarksOutput(c, evs, n);
    } else if evs[n].body.ResultBody? {
      TracksResult(c, evs, n);
      MarksResult(c, evs, n);
    } else if evs[n].body.DispatchBody? {
      TracksDispatch(c, evs, n);
      MarksDispatch(c, evs, n);
    } else {
      TracksDecision(c, evs, n);
      MarksDecision(c, evs, n);
    }
    LastKept(c, evs, n);
    MarkedOn(c, OnEvent(c, evs[n]), evs, n);
  }

  // ----- which ending, and which output -----

  ghost predicate EndsAt(evs: seq<Entry>, q: nat)
    requires q < |evs|
  {
    Decides(evs[q], Answer) || RejectsAt(evs, q)
  }

  ghost predicate FirstEnd(evs: seq<Entry>, q: nat, n: nat)
    requires q < n <= |evs|
  {
    EndsAt(evs, q) && forall i | 0 <= i < q :: !EndsAt(evs, i)
  }

  ghost predicate FirstOutput(evs: seq<Entry>, o: nat, n: nat)
    requires o < n <= |evs|
  {
    IsOutput(evs[o]) && forall i | 0 <= i < o :: !IsOutput(evs[i])
  }

  ghost predicate HasFirsts(c: Call, evs: seq<Entry>, n: nat)
    requires n <= |evs|
  {
    && (forall q | 0 <= q < n && FirstEnd(evs, q, n) :: EndingIs(c, evs[q]))
    && (c.ended.Some? ==> c.ended == EndingDecision(c.decisions))
    && (forall o | 0 <= o < n && FirstOutput(evs, o, n) :: OutputIs(c, evs[o]))
  }

  ghost predicate EndingIs(c: Call, e: Entry) {
    e.body.DecisionBody? && EndingDecision(c.decisions) == Some(At(e.id, e.body.decision))
  }

  ghost predicate OutputIs(c: Call, e: Entry) {
    e.body.ItemBody? && c.output == Some(At(e.id, e.body.item))
  }

  /** The first ending decision stays the first, and the first output. */
  ghost predicate Keeps(c: Call, d: Call, evs: seq<Entry>, n: nat)
    requires n < |evs|
  {
    && (EndingDecision(c.decisions).Some? ==> EndingDecision(d.decisions) == EndingDecision(c.decisions))
    && (EndingDecision(c.decisions).None? && EndsAt(evs, n) ==> EndingIs(d, evs[n]))
    && (c.ended.Some? ==> d.ended == c.ended)
    && (c.ended.None? && d.ended.Some? ==> d.ended == EndingDecision(c.decisions) == EndingDecision(d.decisions))
    && (c.output.Some? ==> d.output == c.output)
    && (c.output.None? && IsOutput(evs[n]) ==> OutputIs(d, evs[n]))
  }

  lemma DecisionKeepsFirsts(c: Call, evs: seq<Entry>, n: nat)
    requires n < |evs| && evs[n].body.DecisionBody? && Tracks(c, evs, n)
    ensures Keeps(c, OnEvent(c, evs[n]), evs, n)
  {
    WithdrawsIs(c, evs, n);
    hide Tracks, WithdrawsAt, EndingDecision, HadOutput, Calls.Call.Withdraws, Calls.Call.HasVerdict;
    WithdrawalIs(evs, n);
    EndingOn(c.decisions, At(evs[n].id, evs[n].body.decision));
  }

  lemma EventKeepsFirsts(c: Call, evs: seq<Entry>, n: nat)
    requires n < |evs| && IsEvent(evs[n]) && Tracks(c, evs, n)
    ensures Keeps(c, OnEvent(c, evs[n]), evs, n)
  {
    hide Tracks, EndingDecision, HadOutput, Calls.Call.Withdraws, Calls.Call.HasVerdict;
    if evs[n].body.DecisionBody? {
      DecisionKeepsFirsts(c, evs, n);
    }
  }

  lemma FirstEndOn(c: Call, d: Call, evs: seq<Entry>, n: nat, q: nat)
    requires n < |evs| && q < n + 1 && FirstEnd(evs, q, n + 1) && Keeps(c, d, evs, n) && HasFirsts(c, evs, n)
    requires EndingDecision(c.decisions).Some? <==> exists i :: 0 <= i < n && EndsAt(evs, i)
    ensures EndingIs(d, evs[q])
  {
    hide EndingDecision, EndsAt, FirstOutput, IsOutput;
    if q < n {
      assert FirstEnd(evs, q, n);
    }
  }

  lemma FirstOutputOn(c: Call, d: Call, evs: seq<Entry>, n: nat, o: nat)
    requires n < |evs| && o < n + 1 && FirstOutput(evs, o, n + 1) && Keeps(c, d, evs, n) && HasFirsts(c, evs, n)
    requires c.output.Some? <==> exists i :: 0 <= i < n && IsOutput(evs[i])
    ensures OutputIs(d, evs[o])
  {
    hide EndingDecision, EndsAt, FirstEnd, IsOutput;
    if o < n {
      assert FirstOutput(evs, o, n);
    }
  }

  lemma EndedOn(c: Call, d: Call, evs: seq<Entry>, n: nat)
    requires n < |evs| && Keeps(c, d, evs, n) && HasFirsts(c, evs, n)
    ensures d.ended.Some? ==> d.ended == EndingDecision(d.decisions)
  {
    hide EndingDecision, EndsAt, FirstEnd, FirstOutput, IsOutput;
  }

  lemma FirstsOn(c: Call, evs: seq<Entry>, n: nat)
    requires n < |evs| && IsEvent(evs[n]) && Tracks(c, evs, n) && HasFirsts(c, evs, n)
    ensures HasFirsts(OnEvent(c, evs[n]), evs, n + 1)
  {
    EventKeepsFirsts(c, evs, n);
    EndsTracked(c, evs, n);
    var d := OnEvent(c, evs[n]);
    EndedOn(c, d, evs, n);
    forall q: nat | q < n + 1 && FirstEnd(evs, q, n + 1) ensures EndingIs(d, evs[q]) {
      FirstEndOn(c, d, evs, n, q);
    }
    forall o: nat | o < n + 1 && FirstOutput(evs, o, n + 1) ensures OutputIs(d, evs[o]) {
      FirstOutputOn(c, d, evs, n, o);
    }
    hide OnEvent, Tracks, EndingDecision, EndsAt, IsOutput, FirstEnd, FirstOutput, EndingIs, OutputIs, Keeps;
  }

  lemma EndsTracked(c: Call, evs: seq<Entry>, n: nat)
    requires n <= |evs| && Tracks(c, evs, n)
    ensures EndingDecision(c.decisions).Some? <==> exists i :: 0 <= i < n && EndsAt(evs, i)
    ensures c.output.Some? <==> exists i :: 0 <= i < n && IsOutput(evs[i])
  {
    hide EndingDecision, HandedOff, ResultSince, AnsweredSince;
    if WasAnswered(evs, n) {
      var i :| 0 <= i < n && Decides(evs[i], Answer);
      assert EndsAt(evs, i);
    }
    if WasRejected(evs, n) {
      var i :| 0 <= i < n && RejectsAt(evs, i);
      assert EndsAt(evs, i);
    }
  }

  lemma {:induction false} SomeFirst(evs: seq<Entry>, n: nat)
    requires n <= |evs|
    ensures (exists i :: 0 <= i < n && EndsAt(evs, i)) ==> exists q :: 0 <= q < n && FirstEnd(evs, q, n)
    ensures HadOutput(evs, n) ==> exists o :: 0 <= o < n && FirstOutput(evs, o, n)
  {
    if n > 0 {
      hide EndsAt, IsOutput;
      SomeFirst(evs, n - 1);
      if exists i :: 0 <= i < n - 1 && EndsAt(evs, i) {
        var q :| 0 <= q < n - 1 && FirstEnd(evs, q, n - 1);
        assert FirstEnd(evs, q, n);
      } else if EndsAt(evs, n - 1) {
        assert FirstEnd(evs, n - 1, n);
      }
      if HadOutput(evs, n - 1) {
        var o :| 0 <= o < n - 1 && FirstOutput(evs, o, n - 1);
        assert FirstOutput(evs, o, n);
      } else if IsOutput(evs[n - 1]) {
        assert FirstOutput(evs, n - 1, n);
      }
    }
  }

  lemma {:induction false} FirstsTracked(e: Entry, evs: seq<Entry>, n: nat)
    requires IsCall(e) && n <= |evs| && forall i | 0 <= i < |evs| :: IsEvent(evs[i])
    ensures HasFirsts(After(NewCall(e), evs[..n]), evs, n)
  {
    hide Tracks, HasLast, Marked, HasFirsts, OnEvent, NewCall, After, IsEvent;
    if n == 0 {
      NoFirsts(After(NewCall(e), evs[..0]), evs);
      assert evs[..0] == [];
      NewEnding(e);
    } else {
      FirstsTracked(e, evs, n - 1);
      EventsTracked(e, evs, n - 1);
      assert evs[..n] == evs[..n - 1] + [evs[n - 1]];
      AfterSnoc(NewCall(e), evs[..n - 1], evs[n - 1]);
      FirstsOn(After(NewCall(e), evs[..n - 1]), evs, n - 1);
    }
  }

  lemma NewEnding(e: Entry)
    requires IsCall(e)
    ensures After(NewCall(e), []).ended == None
  {}

  lemma NoFirsts(c: Call, evs: seq<Entry>)
    ensures c.ended.None? ==> HasFirsts(c, evs, 0)
  {}

  // ----- what the record check says of a call -----

  /** The first rule broken, in the order they are reported. owed says what an
      answer and an output of the call owe its record. */
  ghost function FlawAt(evs: seq<Entry>, answerOwed: bool, promised: bool, prefix: set<Id>): Option<CallError> {
    var n := |evs|;
    if exists i :: 0 <= i < n && DispatchEndedAt(evs, i) then
      if exists q :: 0 <= q < n && FirstEnd(evs, q, n) && Decides(evs[q], Answer) then Some(CallAnswered) else Some(CallRejected)
    else if exists i :: 0 <= i < n && AfterAnswerAt(evs, i) then Some(CallAnswered)
    else if exists i :: 0 <= i < n && AfterRejectAt(evs, i) then Some(CallRejected)
    else if exists i :: 0 <= i < n && BadResultAt(evs, i) then Some(BadResultEntry)
    else if exists i :: 0 <= i < n && AfterResultAt(evs, i) then Some(CallReturned)
    else if exists i :: 0 <= i < n && MismatchAt(evs, i) then Some(ResultMismatch)
    else if exists i :: 0 <= i < n && RejectDispatchedAt(evs, i) then Some(RejectDispatched)
    else if exists i :: 0 <= i < n && DispatchCompletedAt(evs, i) then Some(CallCompleted)
    else if exists i :: 0 <= i < n && EndCompletedAt(evs, i) then Some(CallCompleted)
    else if WasAnswered(evs, n) && !HandedOff(evs, n) && answerOwed then Some(AnswerNotDispatched)
    else if !HandedOff(evs, n) && !WasRejected(evs, n) && !WasAnswered(evs, n) && promised
            && exists o :: 0 <= o < n && FirstOutput(evs, o, n) && evs[o].id !in prefix then Some(RecordMissing)
    else None
  }

  lemma {:induction false} EventsAre(path: seq<Entry>, t: nat, n: nat)
    requires t < n <= |path| && IsCall(path[t])
    ensures forall i | 0 <= i < |Events(path, t, n)| :: IsEvent(Events(path, t, n)[i])
    decreases n
  {
    if n > t + 1 {
      hide NoneSince;
      EventsAre(path, t, n - 1);
    }
  }

  lemma EndVerdict(c: Call, evs: seq<Entry>)
    requires Tracks(c, evs, |evs|) && HasFirsts(c, evs, |evs|) && c.ended.Some?
    ensures c.ended.value.it.verdict == Answer <==> exists q :: 0 <= q < |evs| && FirstEnd(evs, q, |evs|) && Decides(evs[q], Answer)
  {
    EndsTracked(c, evs, |evs|);
    SomeFirst(evs, |evs|);
    hide Tracks, EndingDecision, EndsAt, HadOutput;
    var q :| 0 <= q < |evs| && FirstEnd(evs, q, |evs|);
    assert EndingIs(c, evs[q]);
    forall p: nat | p < |evs| && FirstEnd(evs, p, |evs|) ensures p == q {
      assert EndsAt(evs, p) && EndsAt(evs, q);
    }
  }

  lemma OutputId(c: Call, evs: seq<Entry>, prefix: set<Id>)
    requires Tracks(c, evs, |evs|) && HasFirsts(c, evs, |evs|)
    ensures (c.output.Some? && c.output.value.id !in prefix) <==> exists o :: 0 <= o < |evs| && FirstOutput(evs, o, |evs|) && evs[o].id !in prefix
  {
    EndsTracked(c, evs, |evs|);
    SomeFirst(evs, |evs|);
    hide Tracks, EndingDecision, EndsAt, IsOutput;
    if c.output.Some? {
      var o :| 0 <= o < |evs| && FirstOutput(evs, o, |evs|);
      assert OutputIs(c, evs[o]);
      forall p: nat | p < |evs| && FirstOutput(evs, p, |evs|) ensures p == o {
        assert IsOutput(evs[p]) && IsOutput(evs[o]);
      }
    }
  }

  /** The check of a call is told by its events alone. */
  lemma FlawOfEvents(c: Call, evs: seq<Entry>, owed: bool, promised: bool, prefix: set<Id>)
    requires Tracks(c, evs, |evs|) && HasFirsts(c, evs, |evs|) && Marked(c, evs, |evs|) && !c.copied
    ensures CallFlaw(c, owed, promised && c.output.Some? && c.output.value.id !in prefix) == FlawAt(evs, owed, promised, prefix)
  {
    if c.ended.Some? {
      EndVerdict(c, evs);
    }
    OutputId(c, evs, prefix);
    hide HasFirsts, HadOutput, HandedOff, WasAnswered, WasRejected, ResultSince, AnsweredSince, EndingDecision;
    hide BadResultAt, AfterAnswerAt, AfterRejectAt, AfterResultAt, MismatchAt, RejectDispatchedAt, DispatchCompletedAt, EndCompletedAt, DispatchEndedAt;
    hide FirstEnd, FirstOutput, Calls.Call.HasVerdict;
  }

  /** What the record check says of the call at t, from where the entries
      about it stand. */
  lemma FlawExactly(h: Header, prefix: set<Id>, es: seq<Entry>, path: seq<Entry>, t: nat)
    requires Distinct(path) && TargetsOk(path) && t < |path| && IsCall(path[t])
    ensures var f := FoldOf(path);
            path[t].id in f.byEntry
            && CallFlawIn(h, prefix, es, path, f.calls[f.byEntry[path[t].id]])
               == if path[t].body.copiedFrom.Some? then None
                  else FlawAt(Events(path, t, |path|), Owed(h, prefix, es, path, path[t].id), h.promised, prefix)
  {
    var evs := Events(path, t, |path|);
    CallOfEvents(path, t, |path|);
    EventsAre(path, t, |path|);
    EventsTracked(path[t], evs, |evs|);
    FirstsTracked(path[t], evs, |evs|);
    assert evs[..|evs|] == evs && path[..|path|] == path;
    AfterSame(NewCall(path[t]), evs);
    hide Tracks, HasLast, Marked, HasFirsts, OnEvent, After, Events, FoldOf, TargetsOk, Owed, CallFlaw, FlawAt;
    if path[t].body.copiedFrom.None? {
      FlawOfEvents(After(NewCall(path[t]), evs), evs, Owed(h, prefix, es, path, path[t].id), h.promised, prefix);
    } else {
      CopiedNone(h, prefix, es, path, After(NewCall(path[t]), evs));
    }
  }

  lemma CopiedNone(h: Header, prefix: set<Id>, es: seq<Entry>, path: seq<Entry>, c: Call)
    requires c.copied
    ensures CallFlawIn(h, prefix, es, path, c) == None
  {}

  lemma {:induction false} AfterSame(c: Call, evs: seq<Entry>)
    ensures After(c, evs).entry == c.entry && After(c, evs).callId == c.callId && After(c, evs).copied == c.copied
  {
    if evs != [] {
      hide OnEvent;
      AfterSame(c, evs[..|evs| - 1]);
    }
  }

  // ----- what the whole check says of a path -----

  /** No item is copied from this session or beside a response; of a copied
      call there is nothing but outputs, copied too. */
  ghost predicate CopiesRight(self: string, path: seq<Entry>) {
    forall i | 0 <= i < |path| :: CopyRight(self, path, i)
  }

  ghost predicate CopyRight(self: string, path: seq<Entry>, i: nat)
    requires i < |path|
  {
    && (path[i].body.ItemBody? && path[i].body.copiedFrom.Some? ==>
          path[i].body.copiedFrom.value.session != self && path[i].body.responseId == "")
    && forall t | 0 <= t < i && IsCall(path[t]) && path[t].body.copiedFrom.Some? && BearsAt(path, t, i) ::
         IsOutput(path[i]) && path[i].body.copiedFrom.Some?
  }

  /** The fold has as copied just the calls that are. */
  lemma CopiedIs(path: seq<Entry>, t: nat)
    requires Distinct(path) && t < |path| && IsCall(path[t])
    ensures var f := FoldOf(path); path[t].id in f.byEntry && f.calls[f.byEntry[path[t].id]].copied == path[t].body.copiedFrom.Some?
  {
    hide FoldOf;
    FoldHolds(path);
    assert Holds(FoldOf(path), path[t]);
  }

  lemma CopyAt(self: string, path: seq<Entry>, i: nat)
    requires Distinct(path) && TargetsOk(path) && i < |path|
    ensures CopiedAt(self, FoldOf(path[..i]), path[i]) <==> CopyRight(self, path, i)
  {
    hide FoldOf, BearsAt, TargetsOk;
    DistinctOn(path, i);
    var (f, e) := (FoldOf(path[..i]), path[i]);
    if IsCall(e) {
      forall t: nat | t < i && IsCall(path[t]) ensures !BearsAt(path, t, i) {
        NoEvent(path, t, i);
      }
    } else {
      forall t: nat | t < i && IsCall(path[t])
        ensures path[t].id in f.byEntry && f.calls[f.byEntry[path[t].id]].copied == path[t].body.copiedFrom.Some?
        ensures BearsAt(path, t, i) <==> Bears(f, MentionOf(e)) == Some(f.byEntry[path[t].id])
      {
        BearsOn(path, t, i);
        CopiedIs(path[..i], t);
      }
      if Bears(f, MentionOf(e)).Some? {
        BearsWithin(f, MentionOf(e));
        var t := FoldFrom(path[..i], Bears(f, MentionOf(e)).value);
        FoldPlaced(path[..i]);
        CopyOf(self, path, i, t);
      } else {
        NotCopied(self, path, i);
      }
    }
  }

  lemma BearsWithin(f: Fold, m: Mention)
    requires FoldOk(f) && Bears(f, m).Some?
    ensures Bears(f, m).value < |f.calls|
  {}

  /** An entry about a call at t, and about no other. */
  lemma CopyOf(self: string, path: seq<Entry>, i: nat, t: nat)
    requires Distinct(path) && TargetsOk(path) && t < i < |path| && IsCall(path[t]) && !IsCall(path[i])
    requires var f := FoldOf(path[..i]);
             && (forall x | 0 <= x < i && IsCall(path[x]) ::
                   && path[x].id in f.byEntry && f.calls[f.byEntry[path[x].id]].copied == path[x].body.copiedFrom.Some?
                   && (BearsAt(path, x, i) <==> Bears(f, MentionOf(path[i])) == Some(f.byEntry[path[x].id])))
             && Bears(f, MentionOf(path[i])) == Some(f.byEntry[path[t].id])
    ensures CopiedAt(self, FoldOf(path[..i]), path[i]) <==> CopyRight(self, path, i)
  {
    hide FoldOf, BearsAt, TargetsOk;
    var (f, e) := (FoldOf(path[..i]), path[i]);
    assert forall x | 0 <= x < i && IsCall(path[x]) && BearsAt(path, x, i) :: path[x].id == path[t].id;
    if MentionOf(e).Names? {
      NamedThere(path, i);
    }
  }

  lemma NamedThere(path: seq<Entry>, i: nat)
    requires Distinct(path) && TargetsOk(path) && i < |path| && MentionOf(path[i]).Names?
    ensures MentionOf(path[i]).target in FoldOf(path[..i]).byEntry
  {
    hide FoldOf, HoldsCall;
    DistinctOn(path, i);
    TargetPlaced(path[..i], MentionOf(path[i]).target, MentionOf(path[i]).callId);
  }

  lemma NotCopied(self: string, path: seq<Entry>, i: nat)
    requires Distinct(path) && TargetsOk(path) && i < |path| && !IsCall(path[i])
    requires Bears(FoldOf(path[..i]), MentionOf(path[i])) == None
    requires forall t | 0 <= t < i && IsCall(path[t]) :: !BearsAt(path, t, i)
    ensures CopiedAt(self, FoldOf(path[..i]), path[i]) <==> CopyRight(self, path, i)
  {
    hide FoldOf, BearsAt, TargetsOk;
    if MentionOf(path[i]).Names? {
      NamedThere(path, i);
    }
  }

  /** The record check passes a path exactly when every target stands above,
      copies are right, and no call made here breaks a rule by the order of
      what bears on it; an output short of its record aside. */
  lemma CleanExactly(h: Header, prefix: set<Id>, es: seq<Entry>, path: seq<Entry>)
    requires Distinct(path)
    ensures PathClean(h, prefix, es, path) <==>
              && TargetsOk(path) && CopiesRight(h.id, path)
              && forall t | 0 <= t < |path| && IsCall(path[t]) && path[t].body.copiedFrom.None? ::
                   FlawAt(Events(path, t, |path|), Owed(h, prefix, es, path, path[t].id), h.promised, prefix) in {None, Some(RecordMissing)}
  {
    hide FoldOf, TargetsOk, CopiedAt, CopyRight, CallFlawIn, FlawAt, Events, Owed;
    if TargetsOk(path) {
      forall i | 0 <= i < |path| ensures CopiedAt(h.id, FoldOf(path[..i]), path[i]) <==> CopyRight(h.id, path, i) {
        CopyAt(h.id, path, i);
      }
      forall t | 0 <= t < |path| && IsCall(path[t])
        ensures var f := FoldOf(path);
                path[t].id in f.byEntry
                && CallFlawIn(h, prefix, es, path, f.calls[f.byEntry[path[t].id]])
                   == if path[t].body.copiedFrom.Some? then None
                      else FlawAt(Events(path, t, |path|), Owed(h, prefix, es, path, path[t].id), h.promised, prefix)
      {
        FlawExactly(h, prefix, es, path, t);
      }
      FoldPlaced(path);
      forall c | c in FoldOf(path).calls ensures exists t :: 0 <= t < |path| && IsCall(path[t]) && path[t].id in FoldOf(path).byEntry && c == FoldOf(path).calls[FoldOf(path).byEntry[path[t].id]] {
        var i :| 0 <= i < |FoldOf(path).calls| && FoldOf(path).calls[i] == c;
        var t := FoldFrom(path, i);
      }
    }
  }

  // ----- what an append may add -----

  /** The rule a decision, dispatch or result added now would break, from what
      bears on its call already. */
  ghost function RuleAt(evs: seq<Entry>, e: Entry, copied: bool, owed: bool): Option<CallError>
    requires e.body.DecisionBody? || e.body.DispatchBody? || e.body.ResultBody?
  {
    var n := |evs|;
    if copied then Some(CopiedCall)
    else if e.body.ResultBody? then
      if HadOutput(evs, n) then Some(CallCompleted)
      else if !HandedOff(evs, n) || ResultSince(evs, n) || WasAnswered(evs, n) || WasRejected(evs, n) then Some(BadResultEntry)
      else None
    else if HasReturned(evs, n) && !Decides(e, Answer) then Some(CallReturned)
    else if e.body.DispatchBody? then
      if WasRejected(evs, n) then Some(CallRejected)
      else if WasAnswered(evs, n) then Some(CallAnswered)
      else if HadOutput(evs, n) then Some(CallCompleted)
      else None
    else if WasAnswered(evs, n) then Some(CallAnswered)
    else if WasRejected(evs, n) then Some(CallRejected)
    else if Decides(e, Reject) && e.body.decision.withdrawn then
      if n > 0 && evs[n - 1].body.DispatchBody? && !HadOutput(evs, n) then None else Some(BadWithdrawal)
    else if Decides(e, Reject) && HandedOff(evs, n) then Some(RejectDispatched)
    else if !Ends(e) then None
    else if HadOutput(evs, n) then Some(CallCompleted)
    else if Decides(e, Answer) && !HandedOff(evs, n) && owed then Some(AnswerNotDispatched)
    else None
  }

  function TargetOf(e: Entry): (string, Id)
    requires e.body.DecisionBody? || e.body.DispatchBody? || e.body.ResultBody?
  {
    match e.body
    case DecisionBody(d) => (d.callId, d.target)
    case DispatchBody(d) => (d.callId, d.target)
    case ResultBody(r) => (r.callId, r.target)
  }

  lemma CallTracked(path: seq<Entry>, t: nat)
    requires Distinct(path) && TargetsOk(path) && t < |path| && IsCall(path[t])
    ensures var (f, evs) := (FoldOf(path), Events(path, t, |path|));
            && path[t].id in f.byEntry
            && var c := f.calls[f.byEntry[path[t].id]];
               && Tracks(c, evs, |evs|) && HasLast(c, evs, |evs|)
               && c.entry == path[t].id && c.callId == path[t].body.item.callId && c.copied == path[t].body.copiedFrom.Some?
  {
    hide Tracks, HasLast, Marked, OnEvent, After, Events, FoldOf, TargetsOk;
    var evs := Events(path, t, |path|);
    CallOfEvents(path, t, |path|);
    EventsAre(path, t, |path|);
    EventsTracked(path[t], evs, |evs|);
    assert evs[..|evs|] == evs && path[..|path|] == path;
    AfterSame(NewCall(path[t]), evs);
  }

  /** The extended call, were the entry added, tells a withdrawal. */
  lemma RuleOfEvents(c: Call, evs: seq<Entry>, e: Entry, owed: bool)
    requires Tracks(c, evs, |evs|) && (e.body.DecisionBody? || e.body.DispatchBody? || e.body.ResultBody?)
    ensures match e.body
            case DecisionBody(d) => DecisionRule(c, d, owed) == RuleAt(evs, e, c.copied, owed)
            case DispatchBody(_) => DispatchRule(c) == RuleAt(evs, e, c.copied, owed)
            case ResultBody(_) => ResultRule(c) == RuleAt(evs, e, c.copied, owed)
  {
    hide HadOutput, HandedOff, WasAnswered, WasRejected, ResultSince, AnsweredSince, EndingDecision, Calls.Call.HasVerdict;
    var n := |evs|;
    if n > 0 && evs[n - 1].body.DispatchBody? && !HadOutput(evs, n) {
      HandedLast(evs);
    }
  }

  lemma HandedLast(evs: seq<Entry>)
    requires evs != [] && evs[|evs| - 1].body.DispatchBody?
    ensures HandedOff(evs, |evs|)
  {
    assert StandsAt(evs, |evs| - 1, |evs|);
  }

  /** An append of a decision, dispatch or result is refused just by the rule
      it breaks where it would stand, and a second dispatch by none of its own. */
  lemma RuleExactly(h: Header, prefix: set<Id>, es: seq<Entry>, e: Entry, path: seq<Entry>, t: nat)
    requires Distinct(path) && TargetsOk(path) && t < |path| && IsCall(path[t])
    requires (e.body.DecisionBody? || e.body.DispatchBody? || e.body.ResultBody?) && TargetOf(e).1 == path[t].id
    ensures CheckCallRules(h, prefix, es, e, path)
         == if TargetOf(e).0 != path[t].body.item.callId then Some(BadTarget)
            else RuleAt(Events(path, t, |path|), e, path[t].body.copiedFrom.Some?, Owed(h, prefix, es, path, path[t].id))
  {
    hide Tracks, HasLast, Events, FoldOf, TargetsOk, Owed, RuleAt, DecisionRule, DispatchRule, ResultRule;
    CallTracked(path, t);
    var c := FoldOf(path).calls[FoldOf(path).byEntry[path[t].id]];
    RuleOfEvents(c, Events(path, t, |path|), e, Owed(h, prefix, es, path, path[t].id));
  }

  lemma NoTarget(h: Header, prefix: set<Id>, es: seq<Entry>, e: Entry, path: seq<Entry>)
    requires Distinct(path) && (e.body.DecisionBody? || e.body.DispatchBody? || e.body.ResultBody?)
    requires forall t | 0 <= t < |path| && IsCall(path[t]) :: path[t].id != TargetOf(e).1
    ensures CheckCallRules(h, prefix, es, e, path) == Some(BadTarget)
  {
    hide FoldOf;
    FoldPlaced(path);
  }

  /** An output not of a copied call is refused just when it is another item
      than the result in hand, which no answer overruled. */
  lemma OutputExactly(h: Header, prefix: set<Id>, es: seq<Entry>, e: Entry, path: seq<Entry>, t: nat)
    requires Distinct(path) && TargetsOk(path) && CallIdsDistinct(path) && t < |path| && IsCall(path[t])
    requires IsOutput(e) && e.body.copiedFrom.None? && e.body.item.callId == path[t].body.item.callId && !CopiedHeld(es, e.body.item.callId)
    ensures var evs := Events(path, t, |path|);
            CheckCallRules(h, prefix, es, e, path) ==
              if ResultHeld(es, e.body.item.callId) && HasReturned(evs, |evs|) && !AnsweredSince(evs, |evs|)
                 && exists r :: 0 <= r < |evs| && LastResult(evs, r, |evs|) && evs[r].body.result.item != e.body.item
              then Some(ResultMismatch) else None
  {
    hide Events, FoldOf, TargetsOk, AboutId, ResultHeld, CopiedHeld, HandedOff, WasAnswered, WasRejected, EndingDecision, Calls.Call.HasVerdict;
    var evs := Events(path, t, |path|);
    CallTracked(path, t);
    CallForExact(path, e.body.item.callId);
    OnlyCall(path, t);
    if ResultSince(evs, |evs|) {
      LastIs(FoldOf(path).calls[FoldOf(path).byEntry[path[t].id]], evs, |evs|);
    }
  }

  /** An output of no call on the path is taken. */
  lemma OutputOfNone(h: Header, prefix: set<Id>, es: seq<Entry>, e: Entry, path: seq<Entry>)
    requires Distinct(path) && TargetsOk(path) && CallIdsDistinct(path)
    requires IsOutput(e) && e.body.copiedFrom.None? && !CopiedHeld(es, e.body.item.callId)
    requires forall t | 0 <= t < |path| && IsCall(path[t]) :: path[t].body.item.callId != e.body.item.callId
    ensures CheckCallRules(h, prefix, es, e, path) == None
  {
    hide FoldOf, AboutId, TargetsOk, CopiedHeld, ResultHeld;
    var k := e.body.item.callId;
    CallForExact(path, k);
    if k in FoldOf(path).byId {
      FoldPlaced(path);
      CallAmong(path, FoldOf(path).byId[k]);
    }
  }

  lemma CallAmong(path: seq<Entry>, i: nat)
    requires Distinct(path) && i < |FoldOf(path).calls|
    ensures exists t :: 0 <= t < |path| && IsCall(path[t]) && path[t].body.item.callId == FoldOf(path).calls[i].callId
  {
    hide FoldOf;
    var t := FoldFrom(path, i);
  }

  /** Any other entry is refused only for an item copied from here or beside a
      response, a call id that is empty or in use, or a spawn id in use. */
  lemma OthersExactly(h: Header, prefix: set<Id>, es: seq<Entry>, e: Entry, path: seq<Entry>)
    requires !IsOutput(e) && !e.body.DecisionBody? && !e.body.DispatchBody? && !e.body.ResultBody? && CallIdsOk(es)
    ensures CheckCallRules(h, prefix, es, e, path) == None <==>
              && (e.body.ItemBody? && e.body.copiedFrom.Some? ==> e.body.copiedFrom.value.session != h.id && e.body.responseId == "")
              && CallIdsOk(es + [e])
              && forall i | 0 <= i < |es| && IsSpawn(es[i]) && IsSpawn(e) :: es[i].body.link.spawnId != e.body.link.spawnId
  {
    var all := es + [e];
    assert all[|es|] == e && forall i | 0 <= i < |es| :: all[i] == es[i];
    if IsCall(e) && CallIdHeld(es, e.body.item.callId) {
      var i :| 0 <= i < |es| && IsCall(es[i]) && es[i].body.item.callId == e.body.item.callId;
      assert IsCall(all[i]) && IsCall(all[|es|]);
    }
  }

  lemma OnlyCall(path: seq<Entry>, t: nat)
    requires Distinct(path) && CallIdsDistinct(path) && t < |path| && IsCall(path[t])
    ensures var f := FoldOf(path); path[t].id in f.byEntry && path[t].body.item.callId in f.byId && f.byId[path[t].body.item.callId] == f.byEntry[path[t].id]
  {
    hide FoldOf;
    NewestCall(path, t, |path|);
    assert path[..|path|] == path;
  }

  /** A dispatch taken back leaves the hand-offs, the decisions and the
      arguments as they were, and itself among those taken back. */
  lemma WithdrawalUndoes(c: Call, i: Id, d: Dispatch, j: Id, w: Decision)
    requires c.output.None? && w.verdict == Reject && w.withdrawn && (c.dispatch.Some? <==> c.dispatches != [])
    ensures var x := OnDecision(OnDispatch(c, i, d), j, w);
            && x.dispatches == c.dispatches && x.dispatch == c.dispatch && x.decisions == c.decisions && x.output == c.output
            && x.sinceDecision == c.sinceDecision && x.dispatchedArgs == c.dispatchedArgs
            && x.withdrawn == c.withdrawn + [(At(i, d), At(j, w))]
  {
    hide EndingDecision, ArgsOf;
    assert (c.dispatches + [At(i, d)])[..|c.dispatches|] == c.dispatches;
  }
}

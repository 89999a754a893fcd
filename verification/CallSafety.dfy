/** What append allows, a whole-path check never complains about: the call
    rules of checkCallRules keep every path they extend clean. */
module CallSafety {
  import opened Entries
  import opened Tree
  import opened Calls
  import opened CallRules

  // ----- what an append is held to -----

  /** A decision on c; owed says an answer to c is owed a dispatch that the
      session does not hold. */
  function DecisionRule(c: Call, d: Decision, owed: bool): Option<CallError> {
    if c.copied then Some(CopiedCall)
    else if c.Returned() && d.verdict != Answer then Some(CallReturned)
    else if c.Answered() then Some(CallAnswered)
    else if c.Rejected() then Some(CallRejected)
    else if d.withdrawn && d.verdict == Reject then
      (if !c.Withdraws(d) then Some(BadWithdrawal) else None)
    else if d.verdict == Reject && c.dispatch.Some? then Some(RejectDispatched)
    else if d.verdict != Answer && d.verdict != Reject then None
    else if c.output.Some? then Some(CallCompleted)
    else if d.verdict == Answer && c.dispatch.None? && owed then Some(AnswerNotDispatched)
    else None
  }

  function ResultRule(c: Call): Option<CallError> {
    if c.copied then Some(CopiedCall)
    else if c.output.Some? then Some(CallCompleted)
    else if c.dispatches == [] || c.resultAfterLast || c.Answered() || c.Rejected() then Some(BadResultEntry)
    else None
  }

  function DispatchRule(c: Call): Option<CallError> {
    if c.copied then Some(CopiedCall)
    else if c.Returned() then Some(CallReturned)
    else if c.Rejected() then Some(CallRejected)
    else if c.Answered() then Some(CallAnswered)
    else if c.output.Some? then Some(CallCompleted)
    else None
  }

  /** The call already has a result and was not answered since, and this output
      is another item than the result gave. */
  predicate Mismatched(c: Call, item: Item) {
    c.Returned() && !c.answeredSinceResult && c.result.value.it.item != item
  }

  /** The session promised its dispatches, made the call itself, and holds
      no dispatch of it off the path. */
  ghost predicate Owed(h: Header, prefix: set<Id>, es: seq<Entry>, path: seq<Entry>, call: Id) {
    h.promised && call !in prefix && !DispatchedOff(es, call, path)
  }

  /** checkCallRules for e about to hang from the end of path. */
  ghost function CheckCallRules(h: Header, prefix: set<Id>, es: seq<Entry>, e: Entry, path: seq<Entry>): Option<CallError> {
    match e.body
    case LinkBody(l) =>
      if IsSpawn(e) && SpawnIdHeld(es, l.spawnId) then Some(SpawnIdRepeated) else None
    case ItemBody(item, responseId, copiedFrom) =>
      if copiedFrom.Some? && copiedFrom.value.session == h.id then Some(BadCopiedFrom)
      else if copiedFrom.Some? && responseId != "" then Some(BadCopiedFrom)
      else if item.FunctionCallOutput? && copiedFrom.None? && CopiedHeld(es, item.callId) then Some(BadCopiedFrom)
      else if item.FunctionCallOutput? && ResultHeld(es, item.callId) && LateMismatch(path, item) then Some(ResultMismatch)
      else if item.FunctionCall? && item.callId == "" then Some(CallIdEmpty)
      else if item.FunctionCall? && CallIdHeld(es, item.callId) then Some(CallIdRepeated)
      else None
    case DecisionBody(d) =>
      (match TargetCallOf(path, d.callId, d.target)
       case Err(x) => Some(x)
       case Ok(c) => DecisionRule(c, d, Owed(h, prefix, es, path, c.entry)))
    case ResultBody(r) =>
      (match TargetCallOf(path, r.callId, r.target)
       case Err(x) => Some(x)
       case Ok(c) => ResultRule(c))
    case DispatchBody(d) =>
      (match TargetCallOf(path, d.callId, d.target)
       case Err(x) => Some(x)
       case Ok(c) => DispatchRule(c))
    case _ => None
  }

  ghost predicate LateMismatch(path: seq<Entry>, item: Item)
    requires item.FunctionCallOutput?
  {
    var c := Latest(FoldOf(AboutId(path, item.callId)), item.callId);
    c.Some? && Mismatched(c.value, item)
  }

  // ----- what a whole path is verified against -----

  /** The per-call checks of VerifyRecords, in its order. */
  function CallFlaw(c: Call, answerOwed: bool, outputOwed: bool): Option<CallError> {
    if c.copied then None
    else if c.ended.Some? then Some(if c.ended.value.it.verdict == Answer then CallAnswered else CallRejected)
    else if c.afterAnswer.Some? then Some(CallAnswered)
    else if c.afterReject.Some? then Some(CallRejected)
    else if c.badResult.Some? then Some(BadResultEntry)
    else if c.afterResult.Some? then Some(CallReturned)
    else if c.outputMismatch.Some? then Some(ResultMismatch)
    else if c.rejectAfterDispatch.Some? then Some(RejectDispatched)
    else if c.dispatchAfterOutput.Some? then Some(CallCompleted)
    else if c.endAfterOutput.Some? then Some(CallCompleted)
    else if c.Answered() && c.dispatch.None? && answerOwed then Some(AnswerNotDispatched)
    else if c.output.Some? && c.dispatch.None? && !c.Rejected() && !c.Answered() && outputOwed then Some(RecordMissing)
    else None
  }

  ghost function CallFlawIn(h: Header, prefix: set<Id>, es: seq<Entry>, path: seq<Entry>, c: Call): Option<CallError> {
    CallFlaw(c, Owed(h, prefix, es, path, c.entry),
             h.promised && c.output.Some? && c.output.value.id !in prefix)
  }

  ghost predicate CopiedAt(self: string, f: Fold, e: Entry)
    requires FoldOk(f)
  {
    && (e.body.ItemBody? && e.body.copiedFrom.Some? ==>
          e.body.copiedFrom.value.session != self && e.body.responseId == "")
    && (match MentionOf(e)
        case Nothing => true
        case Output(k) => k in f.byId && f.calls[f.byId[k]].copied ==> e.body.copiedFrom.Some?
        case Names(_, t) => t in f.byEntry ==> !f.calls[f.byEntry[t]].copied)
  }

  /** The rules on copied items, entry by entry: not from this very session, a
      copied call left alone, and its outputs marked as copies too. */
  ghost predicate CopiedOk(self: string, path: seq<Entry>) {
    forall i | 0 <= i < |path| :: CopiedAt(self, FoldOf(path[..i]), path[i])
  }

  ghost predicate CallIdsOk(es: seq<Entry>) {
    CallIdsDistinct(es) && forall i | 0 <= i < |es| && IsCall(es[i]) :: es[i].body.item.callId != ""
  }

  ghost predicate SpawnIdsOk(es: seq<Entry>) {
    && (forall i | 0 <= i < |es| && es[i].body.LinkBody? && es[i].body.link.rel.Subsession? && es[i].body.link.spawnId != "" ::
          es[i].body.link.callId == "")
    && (forall i, j | 0 <= i < j < |es| && IsSpawn(es[i]) && IsSpawn(es[j]) ::
          es[i].body.link.spawnId != es[j].body.link.spawnId)
  }

  /** What VerifyRecords finds wrong with no call of the path, an output with
      no dispatch aside, which append does not check. */
  ghost predicate PathClean(h: Header, prefix: set<Id>, es: seq<Entry>, path: seq<Entry>) {
    && TargetsOk(path)
    && CopiedOk(h.id, path)
    && forall c | c in FoldOf(path).calls :: CallFlawIn(h, prefix, es, path, c) in {None, Some(RecordMissing)}
  }

  // ----- one call -----

  /** No decision, dispatch, result or output of c broke a rule. */
  predicate NoFlaw(c: Call) {
    && c.ended.None? && c.afterAnswer.None? && c.afterReject.None? && c.badResult.None? && c.afterResult.None?
    && c.outputMismatch.None? && c.rejectAfterDispatch.None? && c.dispatchAfterOutput.None? && c.endAfterOutput.None?
  }

  lemma {:induction false} EndingNone(ds: seq<At<Decision>>)
    requires forall i | 0 <= i < |ds| :: ds[i].it.verdict != Reject && ds[i].it.verdict != Answer
    ensures EndingDecision(ds) == None
  {
    if ds != [] {
      EndingNone(ds[1..]);
    }
  }

  lemma DecisionKeeps(c: Call, id: Id, d: Decision, owed: bool)
    requires NoFlaw(c) && DecisionRule(c, d, owed) == None
    ensures var c' := OnDecision(c, id, d); NoFlaw(c') && (c'.Answered() && c'.dispatch.None? ==> !owed)
    ensures OnDecision(c, id, d).result == c.result
  {
    var c' := OnDecision(c, id, d);
    if !c.Withdraws(d) {
      assert c'.decisions[..|c.decisions|] == c.decisions;
    }
  }

  lemma ResultKeeps(c: Call, id: Id, r: Return)
    requires NoFlaw(c) && ResultRule(c) == None
    ensures NoFlaw(OnResult(c, id, r)) && !OnResult(c, id, r).Answered()
  {}

  lemma DispatchKeeps(c: Call, id: Id, d: Dispatch)
    requires NoFlaw(c) && DispatchRule(c) == None
    ensures NoFlaw(OnDispatch(c, id, d)) && !OnDispatch(c, id, d).Answered()
    ensures OnDispatch(c, id, d).result == c.result
  {
    EndingNone(c.decisions);
  }

  lemma OutputKeeps(c: Call, id: Id, item: Item)
    requires NoFlaw(c) && !Mismatched(c, item)
    ensures var c' := OnOutput(c, id, item);
            NoFlaw(c') && c'.Answered() == c.Answered() && c'.dispatch == c.dispatch && c'.result == c.result
  {}

  // ----- the calls of a clean path -----

  /** Each call of the fold is a function call entry of the path. */
  lemma FoldFrom(path: seq<Entry>, i: nat) returns (j: nat)
    requires Distinct(path) && i < |FoldOf(path).calls|
    ensures j < |path| && IsCall(path[j])
    ensures var c := FoldOf(path).calls[i];
            path[j].id == c.entry && path[j].body.item.callId == c.callId && path[j].body.copiedFrom.Some? == c.copied
  {
    hide FoldOf;
    FoldPlaced(path);
    FoldHolds(path);
    var c := FoldOf(path).calls[i];
    assert c.entry in CallEntries(path);
    j :| 0 <= j < |path| && IsCall(path[j]) && path[j].id == c.entry;
    assert Holds(FoldOf(path), path[j]);
  }

  lemma SelectsExact(path: seq<Entry>, m: nat, k: string, t: Id)
    requires CallIdsDistinct(path) && TargetsOk(path) && Distinct(path) && 0 < m <= |path| && HoldsCall(path, t, k)
    ensures Selects(CallEntries(path[..m - 1]), k, t, path[m - 1]) == NamesId(path[m - 1], k)
  {
    var e := path[m - 1];
    var j :| 0 <= j < |path| && IsCall(path[j]) && path[j].id == t && path[j].body.item.callId == k;
    if MentionOf(e).Names? {
      var n := MentionOf(e);
      assert HoldsCall(path[..m - 1], n.target, n.callId);
      var i :| 0 <= i < m - 1 && IsCall(path[..m - 1][i]) && path[..m - 1][i].id == n.target && path[..m - 1][i].body.item.callId == n.callId;
      assert n.target in CallEntries(path[..m - 1]);
      assert path[i].id == n.target && IsCall(path[i]);
      assert n.callId == k <==> i == j;
    }
  }

  lemma {:induction false} AboutIdExact(path: seq<Entry>, m: nat, k: string, t: Id)
    requires Distinct(path) && TargetsOk(path) && CallIdsDistinct(path) && m <= |path| && HoldsCall(path, t, k)
    ensures AboutId(path[..m], k) == About(path[..m], k, t)
  {
    hide HoldsCall, TargetsOk, CallIdsDistinct, Distinct, Selects, NamesId;
    if m > 0 {
      var e := path[m - 1];
      AboutIdExact(path, m - 1, k, t);
      assert path[..m] == path[..m - 1] + [e];
      AboutIdSnoc(path[..m - 1], e, k);
      AboutSnoc(path[..m - 1], e, k, t);
      SelectsExact(path, m, k, t);
    }
  }

  lemma {:induction false} AboutIdNone(path: seq<Entry>, k: string)
    requires !CallIdHeld(path, k)
    ensures !CallIdHeld(AboutId(path, k), k)
  {
    if path != [] {
      var n := |path| - 1;
      assert path == path[..n] + [path[n]];
      CallIdHeldSnoc(path[..n], path[n], k);
      AboutIdNone(path[..n], k);
      CallIdHeldSnoc(AboutId(path[..n], k), path[n], k);
      assert AboutId(path[..n], k) + [] == AboutId(path[..n], k);
    }
  }

  lemma {:induction false} AboutIdDistinct(path: seq<Entry>, k: string)
    requires Distinct(path)
    ensures Distinct(AboutId(path, k))
    ensures Ids(AboutId(path, k)) <= Ids(path)
  {
    if path != [] {
      var n := |path| - 1;
      AboutIdDistinct(path[..n], k);
      LastDistinct(path);
      IdsSplit(path);
      var a := AboutId(path[..n], k);
      IdsSnoc(a, path[n]);
      forall i | 0 <= i < |a| ensures a[i].id != path[n].id {
        assert a[i].id in Ids(a);
      }
    }
  }

  /** The slice callFor reads by call id alone gives the path's latest call,
      on a path whose targets hold. */
  lemma CallForExact(path: seq<Entry>, k: string)
    requires Distinct(path) && TargetsOk(path) && CallIdsDistinct(path)
    ensures Latest(FoldOf(AboutId(path, k)), k) == Latest(FoldOf(path), k)
  {
    hide FoldOf, About, AboutId, CallIdHeld;
    FoldHolds(path);
    if k in FoldOf(path).byId {
      var j := FoldFrom(path, FoldOf(path).byId[k]);
      var t := path[j].id;
      AboutIdExact(path, |path|, k, t);
      assert path[..|path|] == path;
      SliceAgrees(path, k, t);
      AboutDistinct(path, k, t);
      FoldPlaced(path);
      FoldPlaced(About(path, k, t));
    } else {
      AboutIdNone(path, k);
      AboutIdDistinct(path, k);
      FoldHolds(AboutId(path, k));
    }
  }

  // ----- the append keeps every path clean -----

  ghost predicate CallInv(h: Header, prefix: set<Id>, es: seq<Entry>, path: seq<Entry>, c: Call) {
    && (c.result.Some? ==> c.result.value.it.callId == c.callId && ResultHeld(es, c.callId))
    && (!c.copied ==> NoFlaw(c) && (c.Answered() && c.dispatch.None? ==> !Owed(h, prefix, es, path, c.entry)))
  }

  ghost predicate PathInv(h: Header, prefix: set<Id>, es: seq<Entry>, path: seq<Entry>) {
    && TargetsOk(path)
    && CopiedOk(h.id, path)
    && forall i | 0 <= i < |FoldOf(path).calls| :: CallInv(h, prefix, es, path, FoldOf(path).calls[i])
  }

  lemma InvClean(h: Header, prefix: set<Id>, es: seq<Entry>, path: seq<Entry>)
    requires PathInv(h, prefix, es, path)
    ensures PathClean(h, prefix, es, path)
  {
    forall c | c in FoldOf(path).calls
      ensures CallFlawIn(h, prefix, es, path, c) in {None, Some(RecordMissing)}
    {
      var i :| 0 <= i < |FoldOf(path).calls| && FoldOf(path).calls[i] == c;
      assert CallInv(h, prefix, es, path, c);
    }
  }

  lemma OffSnoc(es: seq<Entry>, e: Entry, target: Id, path: seq<Entry>)
    requires DispatchedOff(es, target, path) && e.id !in Ids(es)
    ensures DispatchedOff(es + [e], target, path) && DispatchedOff(es + [e], target, path + [e])
  {
    var n: nat :| DispatchAt(es, n, target) && es[n].id !in Ids(path);
    assert (es + [e])[..n] == es[..n];
    assert DispatchAt(es + [e], n, target);
    IdsSnoc(path, e);
    assert es[n].id in Ids(es);
  }

  lemma ResultHeldSnoc(es: seq<Entry>, e: Entry, k: string)
    ensures ResultHeld(es, k) ==> ResultHeld(es + [e], k)
    ensures e.body.ResultBody? && e.body.result.callId == k ==> ResultHeld(es + [e], k)
  {
    var all := es + [e];
    assert all[|es|] == e;
    if ResultHeld(es, k) {
      var i :| 0 <= i < |es| && es[i].body.ResultBody? && es[i].body.result.callId == k;
      assert all[i].body.ResultBody?;
    }
  }

  /** A later entry elsewhere, or at the end of the path, takes nothing from
      what a call is owed. */
  lemma CallInvGrows(h: Header, prefix: set<Id>, es: seq<Entry>, e: Entry, path: seq<Entry>, c: Call)
    requires CallInv(h, prefix, es, path, c) && e.id !in Ids(es)
    ensures CallInv(h, prefix, es + [e], path, c) && CallInv(h, prefix, es + [e], path + [e], c)
  {
    hide DispatchedOff, ResultHeld;
    ResultHeldSnoc(es, e, c.callId);
    if DispatchedOff(es, c.entry, path) {
      OffSnoc(es, e, c.entry, path);
    }
  }

  lemma PathInvGrows(h: Header, prefix: set<Id>, es: seq<Entry>, e: Entry, path: seq<Entry>)
    requires PathInv(h, prefix, es, path) && e.id !in Ids(es)
    ensures PathInv(h, prefix, es + [e], path)
  {
    hide FoldOf, CallInv;
    forall i | 0 <= i < |FoldOf(path).calls| ensures CallInv(h, prefix, es + [e], path, FoldOf(path).calls[i]) {
      CallInvGrows(h, prefix, es, e, path, FoldOf(path).calls[i]);
    }
  }

  lemma CopiedWithin(path: seq<Entry>, es: seq<Entry>, i: nat)
    requires Distinct(path) && (forall x | x in path :: x in es) && i < |FoldOf(path).calls|
    ensures FoldOf(path).calls[i].copied ==> CopiedHeld(es, FoldOf(path).calls[i].callId)
  {
    var j := FoldFrom(path, i);
    assert path[j] in es;
  }

  lemma TargetFound(path: seq<Entry>, k: string, t: Id)
    requires Distinct(path) && TargetCallOf(path, k, t).Ok?
    ensures HoldsCall(path, t, k)
    ensures t in FoldOf(path).byEntry
    ensures Bears(FoldOf(path), Names(k, t)) == Some(FoldOf(path).byEntry[t])
    ensures TargetCallOf(path, k, t).value == FoldOf(path).calls[FoldOf(path).byEntry[t]]
    ensures TargetCallOf(path, k, t).value.entry == t && TargetCallOf(path, k, t).value.callId == k
  {
    hide FoldOf;
    var j := FoldFrom(path, FoldOf(path).byEntry[t]);
  }

  /** The one call e bears on keeps its invariant. */
  lemma EventKeeps(h: Header, prefix: set<Id>, es: seq<Entry>, e: Entry, path: seq<Entry>, i: nat)
    requires Distinct(path) && PathInv(h, prefix, es, path) && CallIdsDistinct(path)
    requires e.id !in Ids(es) && !IsCall(e)
    requires CheckCallRules(h, prefix, es, e, path) == None
    requires Bears(FoldOf(path), MentionOf(e)) == Some(i)
    ensures CallInv(h, prefix, es + [e], path + [e], OnEvent(FoldOf(path).calls[i], e))
  {
    hide FoldOf, ResultHeld, DispatchedOff, Latest, AboutId, OnDecision, OnDispatch, OnResult, OnOutput;
    var c := FoldOf(path).calls[i];
    assert CallInv(h, prefix, es, path, c);
    CallInvGrows(h, prefix, es, e, path, c);
    ResultHeldSnoc(es, e, c.callId);
    var owed := Owed(h, prefix, es, path, c.entry);
    if DispatchedOff(es, c.entry, path) {
      OffSnoc(es, e, c.entry, path);
    }
    match e.body
    case ItemBody(item, _, _) =>
      OutputEvent(path, es, c, e, i);
    case DecisionBody(d) =>
      TargetFound(path, d.callId, d.target);
      DecisionKeeps(c, e.id, d, owed);
    case DispatchBody(d) =>
      TargetFound(path, d.callId, d.target);
      DispatchKeeps(c, e.id, d);
    case ResultBody(r) =>
      TargetFound(path, r.callId, r.target);
      ResultKeeps(c, e.id, r);
      ResultIs(c, e.id, r);
  }

  lemma ResultIs(c: Call, id: Id, r: Return)
    ensures OnResult(c, id, r).result == Some(At(id, r))
  {}

  lemma OutputEvent(path: seq<Entry>, es: seq<Entry>, c: Call, e: Entry, i: nat)
    requires Distinct(path) && TargetsOk(path) && CallIdsDistinct(path)
    requires MentionOf(e).Output? && Bears(FoldOf(path), MentionOf(e)) == Some(i) && c == FoldOf(path).calls[i]
    requires c.result.Some? ==> ResultHeld(es, c.callId)
    requires ResultHeld(es, e.body.item.callId) ==> !LateMismatch(path, e.body.item)
    requires !c.copied ==> NoFlaw(c)
    ensures var c' := OnOutput(c, e.id, e.body.item);
            (!c.copied ==> NoFlaw(c')) && c'.Answered() == c.Answered() && c'.dispatch == c.dispatch && c'.result == c.result
  {
    CallForExact(path, e.body.item.callId);
    assert !Mismatched(c, e.body.item);
    if !c.copied {
      OutputKeeps(c, e.id, e.body.item);
    }
  }

  /** One append: what checkCallRules lets through leaves the longer path as
      clean as the one it extends. */
  lemma AppendKeepsPath(h: Header, prefix: set<Id>, es: seq<Entry>, e: Entry, path: seq<Entry>)
    requires Distinct(path + [e]) && PathInv(h, prefix, es, path) && CallIdsDistinct(path)
    requires forall x | x in path :: x in es
    requires e.id !in Ids(es)
    requires CheckCallRules(h, prefix, es, e, path) == None
    ensures PathInv(h, prefix, es + [e], path + [e])
  {
    hide FoldOf, CallInv, OnEvent, CheckCallRules, HoldsCall, CopiedAt;
    assert Distinct(path) by { LastDistinct(path + [e]); assert (path + [e])[..|path|] == path; }
    var f := FoldOf(path);
    FoldSnoc(path, e);
    AppendKeepsRules(h, prefix, es, e, path);
    forall i | 0 <= i < |Step(f, e).calls| ensures CallInv(h, prefix, es + [e], path + [e], Step(f, e).calls[i]) {
      if i < |f.calls| {
        CallInvGrows(h, prefix, es, e, path, f.calls[i]);
      }
      if IsCall(e) {
        NewCallInv(h, prefix, es + [e], path + [e], e);
      } else {
        EventShape(f, e);
        if Bears(f, MentionOf(e)) == Some(i) {
          EventKeeps(h, prefix, es, e, path, i);
        }
      }
    }
  }

  lemma NewCallInv(h: Header, prefix: set<Id>, es: seq<Entry>, path: seq<Entry>, e: Entry)
    requires IsCall(e)
    ensures CallInv(h, prefix, es, path, NewCall(e))
  {}

  lemma AppendKeepsRules(h: Header, prefix: set<Id>, es: seq<Entry>, e: Entry, path: seq<Entry>)
    requires Distinct(path) && TargetsOk(path) && CopiedOk(h.id, path)
    requires forall x | x in path :: x in es
    requires CheckCallRules(h, prefix, es, e, path) == None
    ensures TargetsOk(path + [e]) && CopiedOk(h.id, path + [e])
  {
    hide FoldOf, HoldsCall, LateMismatch, CopiedHeld;
    var f := FoldOf(path);
    var p := path + [e];
    var m := MentionOf(e);
    if m.Names? {
      TargetFound(path, m.callId, m.target);
    } else if m.Output? && m.callId in f.byId {
      CopiedWithin(path, es, f.byId[m.callId]);
    }
    assert CopiedAt(h.id, f, e);
    forall i | 0 <= i < |p| ensures CopiedAt(h.id, FoldOf(p[..i]), p[i]) {
      assert i < |path| ==> p[..i] == path[..i];
      assert p[..|path|] == path;
    }
    forall i | 0 <= i < |p| && MentionOf(p[i]).Names? ensures HoldsCall(p[..i], MentionOf(p[i]).target, MentionOf(p[i]).callId) {
      assert i < |path| ==> p[..i] == path[..i];
      assert p[..|path|] == path;
    }
  }
}

/** The rules on calls: what an append is held to, reading a slice of the
    path, and what a whole path is verified against. */
module CallRules {
  import opened Entries
  import opened Tree
  import opened Calls

  datatype Header = Header(id: string, base: Id, promised: bool)

  datatype CallError =
    | SpawnIdRepeated | SpawnLink | CalleeLink | Superseded
    | BadCopiedFrom | ResultMismatch | CallIdEmpty | CallIdRepeated
    | BadTarget | CopiedCall | CallReturned | CallAnswered | CallRejected
    | BadWithdrawal | RejectDispatched | CallCompleted | AnswerNotDispatched | BadResultEntry
    | RecordMissing

  // ----- what a session keeps of its entries, on every branch -----

  predicate IsSpawn(e: Entry) {
    e.body.LinkBody? && e.body.link.rel.Subsession? && e.body.link.spawnId != "" && !e.body.link.cancel
  }

  ghost predicate CallIdHeld(es: seq<Entry>, k: string) {
    exists i :: 0 <= i < |es| && IsCall(es[i]) && es[i].body.item.callId == k
  }

  ghost predicate SpawnIdHeld(es: seq<Entry>, k: string) {
    exists i :: 0 <= i < |es| && IsSpawn(es[i]) && es[i].body.link.spawnId == k
  }

  ghost predicate CopiedHeld(es: seq<Entry>, k: string) {
    exists i :: 0 <= i < |es| && IsCall(es[i]) && es[i].body.item.callId == k && es[i].body.copiedFrom.Some?
  }

  ghost predicate ResultHeld(es: seq<Entry>, k: string) {
    exists i :: 0 <= i < |es| && es[i].body.ResultBody? && es[i].body.result.callId == k
  }

  /** A function call entry target with the call id k. */
  ghost predicate HoldsCall(es: seq<Entry>, target: Id, k: string) {
    exists i :: 0 <= i < |es| && IsCall(es[i]) && es[i].id == target && es[i].body.item.callId == k
  }

  /** The entry at n is a dispatch that stands for the call at target. */
  ghost predicate DispatchAt(es: seq<Entry>, n: nat, target: Id) {
    && n < |es| && es[n].body.DispatchBody? && es[n].body.dispatch.target == target
    && HoldsCall(es[..n], target, es[n].body.dispatch.callId)
  }

  ghost predicate DispatchHeld(es: seq<Entry>, target: Id, d: Id) {
    exists n: nat :: DispatchAt(es, n, target) && es[n].id == d
  }

  /** The log holds a dispatch of that call elsewhere than on this path, so the
      call may already have run under another branch. */
  ghost predicate DispatchedOff(es: seq<Entry>, target: Id, path: seq<Entry>) {
    exists n: nat :: DispatchAt(es, n, target) && es[n].id !in Ids(path)
  }

  /** The successor the last continued_in link names. */
  function SupersededBy(es: seq<Entry>): string {
    if es == [] then ""
    else
      var e := es[|es| - 1];
      if e.body.LinkBody? && e.body.link.rel.ContinuedIn? && e.body.link.session != "" then e.body.link.session
      else SupersededBy(es[..|es| - 1])
  }

  // ----- the call an append names -----

  ghost function TargetCallOf(path: seq<Entry>, k: string, target: Id): Result<Call, CallError> {
    var f := FoldOf(path);
    if target !in f.byEntry then Err(BadTarget)
    else if f.calls[f.byEntry[target]].callId != k then Err(BadTarget)
    else Ok(f.calls[f.byEntry[target]])
  }

  method Slice(path: seq<Entry>, k: string, target: Id) returns (about: seq<Entry>)
    ensures about == About(path, k, target)
  {
    hide About, Selects, CallEntries;
    about := [];
    var calls: set<Id> := {};
    assert about == About([], k, target) by { AboutNil(k, target); }
    assert calls == CallEntries([]) by { CallEntriesNil(); }
    for n := 0 to |path|
      invariant calls == CallEntries(path[..n])
      invariant about == About(path[..n], k, target)
    {
      assert path[..n + 1] == path[..n] + [path[n]];
      AboutSnoc(path[..n], path[n], k, target);
      CallEntriesSnoc(path[..n], path[n]);
      about := about + if Selects(calls, k, target, path[n]) then [path[n]] else [];
      calls := calls + if IsCall(path[n]) then {path[n].id} else {};
    }
    assert path[..|path|] == path;
  }

  /** Looks the call up in the slice taken for it, and answers as a look through
      the whole path would. */
  method TargetCall(path: seq<Entry>, k: string, target: Id) returns (r: Result<Call, CallError>)
    requires Distinct(path)
    ensures r == TargetCallOf(path, k, target)
  {
    hide FoldOf, About, Ids;
    var about := Slice(path, k, target);
    var out := CallsOn(about);
    SliceAgrees(path, k, target);
    AboutDistinct(path, k, target);
    FoldPlaced(about);
    ghost var s := FoldOf(about);
    for i := 0 to |out|
      invariant forall j | 0 <= j < i :: out[j].entry != target
    {
      if out[i].entry == target {
        assert s.byEntry[target] == i;
        return if out[i].callId != k then Err(BadTarget) else Ok(out[i]);
      }
    }
    assert target !in s.byEntry;
    return Err(BadTarget);
  }

  // ----- the latest call with an id -----

  predicate NamesId(e: Entry, k: string) {
    if IsCall(e) then e.body.item.callId == k
    else
      match MentionOf(e)
      case Nothing => false
      case Output(k') => k' == k
      case Names(k', _) => k' == k
  }

  ghost function AboutId(path: seq<Entry>, k: string): seq<Entry> {
    if path == [] then []
    else AboutId(path[..|path| - 1], k) + if NamesId(path[|path| - 1], k) then [path[|path| - 1]] else []
  }

  lemma AboutIdSnoc(path: seq<Entry>, e: Entry, k: string)
    ensures AboutId(path + [e], k) == AboutId(path, k) + if NamesId(e, k) then [e] else []
  {
    assert (path + [e])[..|path|] == path;
  }

  ghost function Latest(f: Fold, k: string): Option<Call>
    requires FoldOk(f)
  {
    if k in f.byId then Some(f.calls[f.byId[k]]) else None
  }

  ghost predicate IsLatest(f: Fold)
    requires FoldOk(f)
  {
    forall i | 0 <= i < |f.calls| :: f.calls[i].callId in f.byId && i <= f.byId[f.calls[i].callId]
  }

  lemma {:induction false} FoldLatest(path: seq<Entry>)
    ensures IsLatest(FoldOf(path))
  {
    if path != [] {
      var n := |path| - 1;
      FoldLatest(path[..n]);
      if !IsCall(path[n]) {
        hide Step;
        EventShape(FoldOf(path[..n]), path[n]);
      }
    }
  }

  method SliceId(path: seq<Entry>, k: string) returns (about: seq<Entry>)
    ensures about == AboutId(path, k)
  {
    hide NamesId;
    about := [];
    for n := 0 to |path|
      invariant about == AboutId(path[..n], k)
    {
      assert path[..n + 1] == path[..n] + [path[n]];
      AboutIdSnoc(path[..n], path[n], k);
      about := about + if NamesId(path[n], k) then [path[n]] else [];
    }
    assert path[..|path|] == path;
  }

  method CallFor(path: seq<Entry>, k: string) returns (r: Option<Call>)
    ensures r == Latest(FoldOf(AboutId(path, k)), k)
  {
    var about := SliceId(path, k);
    hide FoldOf, AboutId, NamesId;
    var out := CallsOn(about);
    FoldLatest(about);
    ghost var f := FoldOf(about);
    var i := |out|;
    while i > 0
      invariant 0 <= i <= |out|
      invariant forall j | i <= j < |out| :: out[j].callId != k
    {
      i := i - 1;
      if out[i].callId == k {
        return Some(out[i]);
      }
    }
    return None;
  }

  // ----- whole-path rules -----

  /** Whatever decides, dispatches or answers a call stands below that very call,
      under the same call id. */
  ghost predicate TargetsOk(path: seq<Entry>) {
    forall i | 0 <= i < |path| && MentionOf(path[i]).Names? ::
      HoldsCall(path[..i], MentionOf(path[i]).target, MentionOf(path[i]).callId)
  }

  ghost predicate CallIdsDistinct(es: seq<Entry>) {
    forall i, j | 0 <= i < j < |es| && IsCall(es[i]) && IsCall(es[j]) ::
      es[i].body.item.callId != es[j].body.item.callId
  }

  /** The fold holds each function call of the path under its entry. */
  ghost predicate Holds(f: Fold, e: Entry)
    requires FoldOk(f)
  {
    IsCall(e) ==>
      && e.id in f.byEntry && e.body.item.callId in f.byId
      && f.calls[f.byEntry[e.id]].callId == e.body.item.callId
      && f.calls[f.byEntry[e.id]].copied == e.body.copiedFrom.Some?
  }

  lemma HoldsStep(f: Fold, e: Entry, x: Entry)
    requires FoldOk(f) && Holds(f, x) && x.id != e.id
    ensures Holds(Step(f, e), x)
    ensures Step(f, e).byId.Keys == f.byId.Keys + if IsCall(e) then {e.body.item.callId} else {}
  {
    if !IsCall(e) {
      EventShape(f, e);
    }
  }

  lemma HoldsLast(f: Fold, e: Entry)
    requires FoldOk(f)
    ensures Holds(Step(f, e), e)
    ensures Step(f, e).byId.Keys == f.byId.Keys + if IsCall(e) then {e.body.item.callId} else {}
  {
    if !IsCall(e) {
      EventShape(f, e);
    }
  }

  lemma CallIdHeldSnoc(path: seq<Entry>, e: Entry, k: string)
    ensures CallIdHeld(path + [e], k) <==> CallIdHeld(path, k) || (IsCall(e) && e.body.item.callId == k)
  {
    var all := path + [e];
    assert all[|path|] == e;
    if CallIdHeld(path, k) {
      var i :| 0 <= i < |path| && IsCall(path[i]) && path[i].body.item.callId == k;
      assert IsCall(all[i]);
    }
  }

  lemma NothingHeld()
    ensures forall k :: !CallIdHeld([], k)
  {}

  lemma {:induction false} FoldHolds(path: seq<Entry>)
    requires Distinct(path)
    ensures forall i | 0 <= i < |path| :: Holds(FoldOf(path), path[i])
    ensures forall k :: k in FoldOf(path).byId <==> CallIdHeld(path, k)
  {
    hide Step, Holds, CallIdHeld, IsCall;
    if path == [] {
      NothingHeld();
    } else {
      var n := |path| - 1;
      var f := FoldOf(path[..n]);
      FoldHolds(path[..n]);
      HoldsLast(f, path[n]);
      forall i | 0 <= i < n ensures Holds(FoldOf(path), path[i]) {
        assert path[..n][i] == path[i];
        HoldsStep(f, path[n], path[i]);
      }
      assert path == path[..n] + [path[n]];
      forall k ensures k in FoldOf(path).byId <==> CallIdHeld(path, k) {
        CallIdHeldSnoc(path[..n], path[n], k);
      }
    }
  }
}

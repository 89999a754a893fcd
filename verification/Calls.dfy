/** The state of each function call along a path: the
    fold of run.go, and the proof that the slice of a path an append reads
    gives the same call as the whole path does. */
module Calls {
  import opened Entries
  import opened Tree

  /** A member of an entry, with the id of the entry that holds it. */
  datatype At<+T> = At(id: Id, it: T)

  datatype Call = Call(
    entry: Id,
    callId: string,
    arguments: string,
    copied: bool,
    decisions: seq<At<Decision>>,
    dispatch: Option<At<Dispatch>>,
    dispatches: seq<At<Dispatch>>,
    output: Option<At<Item>>,
    withdrawn: seq<(At<Dispatch>, At<Decision>)>,
    result: Option<At<Return>>,
    ended: Option<At<Decision>>,
    endedBy: Option<Id>,
    sinceDecision: bool,
    dispatchedArgs: string,
    lastIsDispatch: bool,
    beforeSince: bool,
    beforeArgs: string,
    dispatchAfterOutput: Option<Id>,
    afterAnswer: Option<Id>,
    afterReject: Option<Id>,
    endAfterOutput: Option<Id>,
    rejectAfterDispatch: Option<Id>,
    resultAfterLast: bool,
    answeredSinceResult: bool,
    badResult: Option<Id>,
    afterResult: Option<Id>,
    outputMismatch: Option<Id>)
  {
    predicate HasVerdict(v: Verdict) {
      exists i :: 0 <= i < |decisions| && decisions[i].it.verdict == v
    }

    predicate Rejected() { HasVerdict(Reject) }

    predicate Answered() { HasVerdict(Answer) }

    predicate Returned() {
      output.None? && result.Some? && resultAfterLast
    }

    /** Decided so last of all, and not handed off since. */
    predicate LatestIs(v: Verdict) {
      !sinceDecision && decisions != [] && decisions[|decisions| - 1].it.verdict == v
    }

    predicate Held() { LatestIs(Hold) }

    /** The arguments the tool runs with. */
    function Args(): string { ArgsOf(decisions, arguments) }

    /** d withdraws the last dispatch: it directly follows it. */
    predicate Withdraws(d: Decision) {
      d.verdict == Reject && d.withdrawn && lastIsDispatch && output.None? && dispatches != []
    }
  }

  function ArgsOf(ds: seq<At<Decision>>, arguments: string): string {
    if ds == [] then arguments
    else
      var d := ds[|ds| - 1].it;
      if d.args != "" && d.verdict != Answer then d.args else ArgsOf(ds[..|ds| - 1], arguments)
  }

  /** The decision, if any, after which the call needed no more. */
  function EndingDecision(ds: seq<At<Decision>>): Option<At<Decision>> {
    if ds == [] then None
    else if ds[0].it.verdict == Reject || ds[0].it.verdict == Answer then Some(ds[0])
    else EndingDecision(ds[1..])
  }

  function First<T>(was: Option<T>, found: bool, v: T): Option<T> {
    if was.None? && found then Some(v) else was
  }

  function NewCall(e: Entry): Call
    requires IsCall(e)
  {
    Call(e.id, e.body.item.callId, e.body.item.arguments, e.body.copiedFrom.Some?,
         [], None, [], None, [], None, None, None, false, "", false, false, "",
         None, None, None, None, None, false, false, None, None, None)
  }

  function OnOutput(c: Call, id: Id, item: Item): Call {
    if c.output.Some? then c
    else
      var differs := c.Returned() && !c.answeredSinceResult && c.result.value.it.item != item;
      c.(outputMismatch := First(c.outputMismatch, differs, id),
         output := Some(At(id, item)),
         lastIsDispatch := false)
  }

  /** A result that follows no hand-off still open. */
  predicate BadResult(c: Call) {
    c.dispatches == [] || c.output.Some? || c.resultAfterLast || c.Answered() || c.Rejected()
  }

  function OnResult(c: Call, id: Id, r: Return): Call {
    c.(badResult := First(c.badResult, BadResult(c), id),
       result := Some(At(id, r)),
       resultAfterLast := c.dispatches != [],
       answeredSinceResult := false,
       lastIsDispatch := false)
  }

  function OnDecision(c: Call, id: Id, d: Decision): Call {
    if c.Withdraws(d) then
      // A withdrawal undoes the last dispatch, as far as the fold had it.
      var n := |c.dispatches| - 1;
      c.(dispatches := c.dispatches[..n],
         dispatch := if n == 0 then None else c.dispatch,
         sinceDecision := c.beforeSince,
         dispatchedArgs := c.beforeArgs,
         withdrawn := c.withdrawn + [(c.dispatches[n], At(id, d))],
         lastIsDispatch := false)
    else
      var ends := d.verdict == Answer || d.verdict == Reject;
      c.(lastIsDispatch := false,
         answeredSinceResult := c.answeredSinceResult || (c.Returned() && d.verdict == Answer),
         afterResult := First(c.afterResult, c.Returned() && d.verdict != Answer, id),
         afterAnswer := First(c.afterAnswer, c.Answered(), id),
         afterReject := First(c.afterReject, c.Rejected(), id),
         rejectAfterDispatch := First(c.rejectAfterDispatch, d.verdict == Reject && c.dispatch.Some?, id),
         endAfterOutput := First(c.endAfterOutput, ends && c.output.Some?, id),
         decisions := c.decisions + [At(id, d)],
         sinceDecision := false)
  }

  function OnDispatch(c: Call, id: Id, d: Dispatch): Call {
    var ending := EndingDecision(c.decisions);
    c.(dispatchAfterOutput := First(c.dispatchAfterOutput, c.output.Some?, id),
       afterResult := First(c.afterResult, c.Returned(), id),
       resultAfterLast := false,
       dispatch := if c.dispatch.None? then Some(At(id, d)) else c.dispatch,
       beforeSince := c.sinceDecision,
       beforeArgs := c.dispatchedArgs,
       dispatches := c.dispatches + [At(id, d)],
       dispatchedArgs := c.Args(),
       sinceDecision := true,
       lastIsDispatch := c.output.None?,
       ended := if c.ended.None? then ending else c.ended,
       endedBy := First(c.endedBy, c.ended.None? && ending.Some?, id))
  }

  // ----- the fold -----

  /** calls as the path meets them. byId and byEntry index into it: the newest
      call under an id, and the call an entry made. */
  datatype Fold = Fold(calls: seq<Call>, byId: map<string, nat>, byEntry: map<Id, nat>)

  predicate FoldOk(f: Fold) {
    && (forall k | k in f.byId :: f.byId[k] < |f.calls| && f.calls[f.byId[k]].callId == k)
    && (forall t | t in f.byEntry :: f.byEntry[t] < |f.calls| && f.calls[f.byEntry[t]].entry == t)
  }

  /** The call an entry naming callId and target belongs to. */
  function Bind(f: Fold, callId: string, target: Id): Option<nat> {
    if target in f.byEntry then Some(f.byEntry[target])
    else if callId in f.byId then Some(f.byId[callId])
    else None
  }

  function AddCall(f: Fold, e: Entry): Fold
    requires IsCall(e)
  {
    var n := |f.calls|;
    Fold(f.calls + [NewCall(e)], f.byId[e.body.item.callId := n], f.byEntry[e.id := n])
  }

  /** How an entry names a call: an output by call id alone, the others by
      target too. */
  datatype Mention = Nothing | Output(callId: string) | Names(callId: string, target: Id)

  function MentionOf(e: Entry): Mention {
    match e.body
    case ItemBody(FunctionCallOutput(k, _), _, _) => Output(k)
    case DecisionBody(d) => Names(d.callId, d.target)
    case DispatchBody(d) => Names(d.callId, d.target)
    case ResultBody(r) => Names(r.callId, r.target)
    case _ => Nothing
  }

  /** Where the fold has the call an entry is about: found by call id for an
      output, which has no target, and by target for the rest. */
  function Bears(f: Fold, m: Mention): Option<nat> {
    match m
    case Nothing => None
    case Output(k) => if k in f.byId then Some(f.byId[k]) else None
    case Names(k, t) => Bind(f, k, t)
  }

  function OnEvent(c: Call, e: Entry): (d: Call)
    ensures d.entry == c.entry && d.callId == c.callId && d.copied == c.copied
  {
    match e.body
    case ItemBody(item, _, _) => OnOutput(c, e.id, item)
    case DecisionBody(d) => OnDecision(c, e.id, d)
    case DispatchBody(d) => OnDispatch(c, e.id, d)
    case ResultBody(r) => OnResult(c, e.id, r)
    case _ => c
  }

  function Step(f: Fold, e: Entry): (g: Fold)
    requires FoldOk(f)
    ensures FoldOk(g)
  {
    if IsCall(e) then AddCall(f, e)
    else
      match Bears(f, MentionOf(e))
      case Some(i) => f.(calls := f.calls[i := OnEvent(f.calls[i], e)])
      case None => f
  }

  function FoldOf(path: seq<Entry>): (f: Fold)
    ensures FoldOk(f)
  {
    if path == [] then Fold([], map[], map[]) else Step(FoldOf(path[..|path| - 1]), path[|path| - 1])
  }

  lemma FoldSnoc(path: seq<Entry>, e: Entry)
    ensures FoldOf(path + [e]) == Step(FoldOf(path), e)
  {
    assert (path + [e])[..|path|] == path;
  }

  /** The single pass that builds the fold, with both of its indexes. */
  method CallsOn(path: seq<Entry>) returns (out: seq<Call>)
    ensures out == FoldOf(path).calls
  {
    out := [];
    var byId: map<string, nat> := map[];
    var byEntry: map<Id, nat> := map[];
    for n := 0 to |path|
      invariant Fold(out, byId, byEntry) == FoldOf(path[..n])
    {
      var e := path[n];
      assert path[..n + 1] == path[..n] + [e];
      FoldSnoc(path[..n], e);
      if IsCall(e) {
        byId, byEntry := byId[e.body.item.callId := |out|], byEntry[e.id := |out|];
        out := out + [NewCall(e)];
      } else {
        var i := Bears(Fold(out, byId, byEntry), MentionOf(e));
        if i.Some? {
          out := out[i.value := OnEvent(out[i.value], e)];
        }
      }
    }
    assert path[..|path|] == path;
  }

  // ----- slicing -----

  /** The function call entries of a path. */
  ghost function CallEntries(path: seq<Entry>): set<Id> {
    set i | 0 <= i < |path| && IsCall(path[i]) :: path[i].id
  }

  lemma CallEntriesSnoc(path: seq<Entry>, e: Entry)
    ensures CallEntries(path + [e]) == CallEntries(path) + if IsCall(e) then {e.id} else {}
  {
    var all := path + [e];
    assert forall i | 0 <= i < |path| :: all[i] == path[i];
    assert all[|path|] == e;
    forall x | x in CallEntries(path) ensures x in CallEntries(all) {
      var i :| 0 <= i < |path| && IsCall(path[i]) && path[i].id == x;
      assert all[i].id == x;
    }
  }

  lemma CallEntriesWithin(path: seq<Entry>)
    ensures CallEntries(path) <= Ids(path)
  {
  }

  /** Whether an append about the call callId at target reads e, having met
      the function call entries calls before it. */
  predicate Selects(calls: set<Id>, callId: string, target: Id, e: Entry) {
    if IsCall(e) then e.id == target || e.body.item.callId == callId
    else
      match MentionOf(e)
      case Nothing => false
      case Output(k) => k == callId
      case Names(k, t) => t == target || (k == callId && t !in calls)
  }

  ghost function About(path: seq<Entry>, callId: string, target: Id): seq<Entry> {
    if path == [] then []
    else
      var n := |path| - 1;
      About(path[..n], callId, target)
      + if Selects(CallEntries(path[..n]), callId, target, path[n]) then [path[n]] else []
  }

  lemma AboutNil(callId: string, target: Id)
    ensures About([], callId, target) == []
  {}

  lemma CallEntriesNil()
    ensures CallEntries([]) == {}
  {}

  lemma AboutSnoc(path: seq<Entry>, e: Entry, callId: string, target: Id)
    ensures About(path + [e], callId, target)
         == About(path, callId, target) + if Selects(CallEntries(path), callId, target, e) then [e] else []
  {
    assert (path + [e])[..|path|] == path;
  }

  /** Two folds agree on the call t with call id k, whichever other calls
      each holds. */
  ghost predicate Agree(f: Fold, s: Fold, k: string, t: Id)
    requires FoldOk(f) && FoldOk(s)
  {
    && s.byEntry.Keys <= f.byEntry.Keys
    && (t in s.byEntry <==> t in f.byEntry)
    && (t in f.byEntry ==>
          var c, d := f.calls[f.byEntry[t]], s.calls[s.byEntry[t]];
          d.callId == c.callId && (c.callId == k ==> d == c))
    && (k in s.byId <==> k in f.byId)
    && (k in f.byId ==> s.calls[s.byId[k]].entry == f.calls[f.byId[k]].entry)
  }

  /** Each call stands at the index its entry names. */
  ghost predicate Placed(f: Fold)
    requires FoldOk(f)
  {
    && (forall i | 0 <= i < |f.calls| :: f.calls[i].entry in f.byEntry && f.byEntry[f.calls[i].entry] == i)
  }

  /** g holds the calls of f, each perhaps further on. */
  ghost predicate SameShape(f: Fold, g: Fold) {
    && g.byId == f.byId && g.byEntry == f.byEntry && |g.calls| == |f.calls|
    && forall i | 0 <= i < |f.calls| ::
         g.calls[i].entry == f.calls[i].entry && g.calls[i].callId == f.calls[i].callId
         && g.calls[i].copied == f.calls[i].copied
  }

  lemma EventShape(f: Fold, e: Entry)
    requires FoldOk(f) && !IsCall(e)
    ensures SameShape(f, Step(f, e))
    ensures forall i | 0 <= i < |f.calls| ::
              Step(f, e).calls[i] == if Bears(f, MentionOf(e)) == Some(i) then OnEvent(f.calls[i], e) else f.calls[i]
  {
    hide OnEvent;
  }

  lemma PlacedStep(f: Fold, e: Entry)
    requires FoldOk(f) && Placed(f) && (IsCall(e) ==> e.id !in f.byEntry)
    ensures Placed(Step(f, e))
    ensures Step(f, e).byEntry.Keys == f.byEntry.Keys + if IsCall(e) then {e.id} else {}
  {
    if IsCall(e) {
    } else {
      hide OnEvent;
      EventShape(f, e);
    }
  }

  lemma {:induction false} FoldPlaced(path: seq<Entry>)
    requires Distinct(path)
    ensures Placed(FoldOf(path))
    ensures FoldOf(path).byEntry.Keys == CallEntries(path)
  {
    if path != [] {
      hide Step;
      var n := |path| - 1;
      FoldPlaced(path[..n]);
      LastDistinct(path);
      CallEntriesWithin(path[..n]);
      PlacedStep(FoldOf(path[..n]), path[n]);
      CallEntriesSnoc(path[..n], path[n]);
      assert path == path[..n] + [path[n]];
    }
  }

  lemma {:induction false} AboutDistinct(path: seq<Entry>, callId: string, target: Id)
    requires Distinct(path)
    ensures Distinct(About(path, callId, target))
    ensures Ids(About(path, callId, target)) <= Ids(path)
  {
    if path != [] {
      var n := |path| - 1;
      AboutDistinct(path[..n], callId, target);
      IdsSplit(path);
      var a := About(path[..n], callId, target);
      IdsSnoc(a, path[n]);
      assert path[n].id !in Ids(path[..n]);
      forall i | 0 <= i < |a| ensures a[i].id != path[n].id {
        assert a[i].id in Ids(a);
      }
    }
  }

  lemma AgreeShape(f: Fold, g: Fold, s: Fold, r: Fold, k: string, t: Id)
    requires FoldOk(f) && FoldOk(s) && FoldOk(g) && FoldOk(r) && Agree(f, s, k, t)
    requires SameShape(f, g) && SameShape(s, r)
    requires t in f.byEntry && f.calls[f.byEntry[t]].callId == k ==> g.calls[f.byEntry[t]] == r.calls[s.byEntry[t]]
    ensures Agree(g, r, k, t)
  {
  }

  lemma AgreeBears(f: Fold, s: Fold, m: Mention, k: string, t: Id)
    requires FoldOk(f) && FoldOk(s) && Placed(f) && Placed(s) && Agree(f, s, k, t)
    requires t in f.byEntry && f.calls[f.byEntry[t]].callId == k
    ensures match m
            case Nothing => Bears(f, m) == None
            case Output(k') => if k' == k then Bears(f, m) == Some(f.byEntry[t]) <==> Bears(s, m) == Some(s.byEntry[t])
                               else Bears(f, m) != Some(f.byEntry[t])
            case Names(k', t') => if t' == t || (k' == k && t' !in f.byEntry)
                                  then Bears(f, m) == Some(f.byEntry[t]) <==> Bears(s, m) == Some(s.byEntry[t])
                                  else Bears(f, m) != Some(f.byEntry[t])
  {
  }

  lemma AgreeEvent(f: Fold, s: Fold, e: Entry, k: string, t: Id)
    requires FoldOk(f) && FoldOk(s) && Placed(f) && Placed(s) && Agree(f, s, k, t)
    requires !IsCall(e)
    ensures Agree(Step(f, e), if Selects(f.byEntry.Keys, k, t, e) then Step(s, e) else s, k, t)
  {
    hide OnEvent, Step, Bears, MentionOf;
    EventShape(f, e);
    EventShape(s, e);
    if t in f.byEntry && f.calls[f.byEntry[t]].callId == k {
      AgreeBears(f, s, MentionOf(e), k, t);
    }
    AgreeShape(f, Step(f, e), s, if Selects(f.byEntry.Keys, k, t, e) then Step(s, e) else s, k, t);
  }

  lemma NewCallIs(e: Entry)
    requires IsCall(e)
    ensures NewCall(e).entry == e.id && NewCall(e).callId == e.body.item.callId
  {}

  lemma AgreeCall(f: Fold, s: Fold, e: Entry, k: string, t: Id)
    requires FoldOk(f) && FoldOk(s) && Placed(f) && Placed(s) && Agree(f, s, k, t)
    requires IsCall(e) && e.id !in f.byEntry
    ensures Agree(Step(f, e), if Selects(f.byEntry.Keys, k, t, e) then Step(s, e) else s, k, t)
  {
    hide OnEvent, NewCall, Bears;
    NewCallIs(e);
  }

  lemma AboutLast(path: seq<Entry>, k: string, t: Id)
    requires path != []
    ensures var (n, e) := (|path| - 1, path[|path| - 1]);
            var a := About(path[..n], k, t);
            About(path, k, t) == if Selects(CallEntries(path[..n]), k, t, e) then a + [e] else a
  {
    hide Selects, CallEntries;
    var a := About(path[..|path| - 1], k, t);
    assert a + [] == a;
  }

  /** One entry more, in the fold of the path and of its slice. */
  lemma SliceLast(path: seq<Entry>, k: string, t: Id)
    requires path != []
    ensures var (n, e) := (|path| - 1, path[|path| - 1]);
            var (f, s) := (FoldOf(path[..n]), FoldOf(About(path[..n], k, t)));
            && FoldOf(path) == Step(f, e)
            && FoldOf(About(path, k, t)) == if Selects(CallEntries(path[..n]), k, t, e) then Step(s, e) else s
  {
    hide Step, Selects, CallEntries, FoldOf, About, FoldOk;
    var (n, e) := (|path| - 1, path[|path| - 1]);
    AboutLast(path, k, t);
    FoldSnoc(path[..n], e);
    assert path == path[..n] + [e];
    FoldSnoc(About(path[..n], k, t), e);
  }

  /** Both folds before the last entry are placed, and its id is new to them. */
  lemma BeforeLast(path: seq<Entry>, k: string, t: Id)
    requires Distinct(path) && path != []
    ensures var (n, e) := (|path| - 1, path[|path| - 1]);
            var (f, s) := (FoldOf(path[..n]), FoldOf(About(path[..n], k, t)));
            Distinct(path[..n]) && Placed(f) && Placed(s) && f.byEntry.Keys == CallEntries(path[..n]) && e.id !in f.byEntry
  {
    hide Step, FoldOf, About, Placed;
    var n := |path| - 1;
    FoldPlaced(path[..n]);
    AboutDistinct(path[..n], k, t);
    FoldPlaced(About(path[..n], k, t));
    LastDistinct(path);
    CallEntriesWithin(path[..n]);
  }

  lemma AgreeNone(k: string, t: Id)
    ensures Agree(FoldOf([]), FoldOf(About([], k, t)), k, t)
  {}

  /** The slice an append takes is enough: folding it alone ends in the same
      call as folding all of the path. */
  lemma {:induction false} SliceAgrees(path: seq<Entry>, k: string, t: Id)
    requires Distinct(path)
    ensures Agree(FoldOf(path), FoldOf(About(path, k, t)), k, t)
  {
    hide Step, Selects, Agree, FoldOf, About, Placed, FoldOk, CallEntries;
    if path == [] {
      AgreeNone(k, t);
    } else {
      var (n, e) := (|path| - 1, path[|path| - 1]);
      var (f, s) := (FoldOf(path[..n]), FoldOf(About(path[..n], k, t)));
      BeforeLast(path, k, t);
      SliceAgrees(path[..n], k, t);
      SliceLast(path, k, t);
      if IsCall(e) {
        AgreeCall(f, s, e, k, t);
      } else {
        AgreeEvent(f, s, e, k, t);
      }
    }
  }
}

/** What a call is run with and how it was last decided, told from where the
    entries about it stand. */
module HandOffs {
  import opened Entries
  import opened Tree
  import opened Calls
  import opened CallRules
  import opened Flaws

  // ----- decisions on record -----

  /** A decision that does not take back a hand-off. */
  ghost predicate RecordedAt(evs: seq<Entry>, i: nat) {
    i < |evs| && evs[i].body.DecisionBody? && !WithdrawsAt(evs, i)
  }

  ghost predicate LastRecorded(evs: seq<Entry>, i: nat, n: nat) {
    i < n && RecordedAt(evs, i) && forall j | i < j < n :: !RecordedAt(evs, j)
  }

  /** A decision that sets the arguments: an answer has none to set. */
  ghost predicate GivesArgs(evs: seq<Entry>, i: nat) {
    RecordedAt(evs, i) && i < |evs| && evs[i].body.DecisionBody? && evs[i].body.decision.args != "" && evs[i].body.decision.verdict != Answer
  }

  ghost predicate LastArgs(evs: seq<Entry>, i: nat, n: nat) {
    i < n && GivesArgs(evs, i) && forall j | i < j < n :: !GivesArgs(evs, j)
  }

  ghost predicate GaveArgs(evs: seq<Entry>, i: nat, a: string) {
    i < |evs| && evs[i].body.DecisionBody? && a == evs[i].body.decision.args
  }

  ghost predicate ArgsFrom(evs: seq<Entry>, n: nat, a: string) {
    exists i: nat :: LastArgs(evs, i, n) && GaveArgs(evs, i, a)
  }

  /** a are the arguments after the first n events: those the last decision to
      set any gave, or the call's own. */
  ghost predicate ArgsAre(own: string, evs: seq<Entry>, n: nat, a: string) {
    ArgsFrom(evs, n, a) || (a == own && forall i: nat | i < n :: !GivesArgs(evs, i))
  }

  // ----- hand-offs that stand -----

  ghost predicate Standing(evs: seq<Entry>, p: nat, n: nat) {
    p < n <= |evs| && StandsAt(evs, p, n)
  }

  ghost predicate LastStanding(evs: seq<Entry>, p: nat, n: nat) {
    Standing(evs, p, n) && forall q: nat | p < q :: !Standing(evs, q, n)
  }

  /** a are the arguments the last hand-off that stands was made with. */
  ghost predicate HandedArgs(own: string, evs: seq<Entry>, n: nat, a: string) {
    || (exists p: nat :: LastStanding(evs, p, n) && ArgsAre(own, evs, p, a))
    || (a == "" && forall p: nat :: !LastStanding(evs, p, n))
  }

  /** The last hand-off that stands came after every decision on record. */
  ghost predicate HandedSince(evs: seq<Entry>, n: nat) {
    exists p: nat :: LastStanding(evs, p, n) && forall j | p < j < n :: !RecordedAt(evs, j)
  }

  lemma ArgsOn(own: string, evs: seq<Entry>, n: nat, a: string)
    requires n < |evs| && ArgsAre(own, evs, n, a)
    ensures ArgsAre(own, evs, n + 1, if GivesArgs(evs, n) then evs[n].body.decision.args else a)
  {
    hide RecordedAt;
    if GivesArgs(evs, n) {
      assert LastArgs(evs, n, n + 1);
    } else if ArgsFrom(evs, n, a) {
      var i: nat :| LastArgs(evs, i, n) && GaveArgs(evs, i, a);
      assert LastArgs(evs, i, n + 1);
    }
  }

  /** Which hand-off stands after one event more: a new one; those from before
      the one taken back; or the same. */
  lemma StandingNew(evs: seq<Entry>, n: nat)
    requires n < |evs| && evs[n].body.DispatchBody?
    ensures LastStanding(evs, n, n + 1)
  {
    assert StandsAt(evs, n, n + 1);
  }

  lemma StandingSame(evs: seq<Entry>, n: nat, m: nat, q: nat)
    requires n < |evs| && !evs[n].body.DispatchBody? && !WithdrawsAt(evs, n) && m == n + 1
    ensures Standing(evs, q, m) <==> Standing(evs, q, n)
  {
    hide WithdrawsAt;
  }

  lemma StandingLess(evs: seq<Entry>, n: nat, m: nat, q: nat)
    requires n < |evs| && WithdrawsAt(evs, n) && m == n + 1
    ensures n > 0 && (Standing(evs, q, m) <==> Standing(evs, q, n - 1))
  {
    NoOther(evs, n);
    hide WithdrawsAt;
  }

  lemma LastSame(evs: seq<Entry>, n: nat, m: nat)
    requires n < |evs| && !evs[n].body.DispatchBody? && !WithdrawsAt(evs, n) && m == n + 1
    ensures forall p: nat :: LastStanding(evs, p, m) <==> LastStanding(evs, p, n)
  {
    hide WithdrawsAt, Standing;
    forall q: nat ensures Standing(evs, q, m) <==> Standing(evs, q, n) {
      StandingSame(evs, n, m, q);
    }
  }

  lemma LastLess(evs: seq<Entry>, n: nat, m: nat, k: nat)
    requires n < |evs| && WithdrawsAt(evs, n) && m == n + 1 && n == k + 1
    ensures forall p: nat :: LastStanding(evs, p, m) <==> LastStanding(evs, p, k)
  {
    hide WithdrawsAt, Standing;
    forall q: nat ensures Standing(evs, q, m) <==> Standing(evs, q, k) {
      StandingLess(evs, n, m, q);
    }
  }

  lemma NoOther(evs: seq<Entry>, n: nat)
    requires n < |evs| && WithdrawsAt(evs, n)
    ensures n > 0 && evs[n - 1].body.DispatchBody? && !evs[n].body.DispatchBody? && !WithdrawsAt(evs, n - 1)
    ensures !RecordedAt(evs, n - 1) && !RecordedAt(evs, n)
  {}

  lemma StandWithin(evs: seq<Entry>, n: nat)
    ensures forall p: nat | LastStanding(evs, p, n) :: p < n
  {}

  lemma SinceOn(evs: seq<Entry>, n: nat, m: nat)
    requires n < |evs| && m == n + 1
    ensures evs[n].body.DispatchBody? ==> HandedSince(evs, m)
    ensures !evs[n].body.DispatchBody? && !WithdrawsAt(evs, n) ==> (HandedSince(evs, m) <==> HandedSince(evs, n) && !RecordedAt(evs, n))
    ensures WithdrawsAt(evs, n) ==> n > 0 && (HandedSince(evs, m) <==> HandedSince(evs, n - 1))
  {
    hide LastStanding, WithdrawsAt, RecordedAt;
    if evs[n].body.DispatchBody? {
      StandingNew(evs, n);
    } else if !WithdrawsAt(evs, n) {
      StandWithin(evs, n);
      LastSame(evs, n, m);
    }
    if WithdrawsAt(evs, n) {
      NoOther(evs, n);
      StandWithin(evs, n - 1);
      LastLess(evs, n, m, n - 1);
    }
  }

  lemma HandedArgsOn(own: string, evs: seq<Entry>, n: nat, m: nat, a: string)
    requires n < |evs| && m == n + 1
    ensures evs[n].body.DispatchBody? && ArgsAre(own, evs, n, a) ==> HandedArgs(own, evs, m, a)
    ensures !evs[n].body.DispatchBody? && !WithdrawsAt(evs, n) && HandedArgs(own, evs, n, a) ==> HandedArgs(own, evs, m, a)
    ensures WithdrawsAt(evs, n) ==> n > 0 && (HandedArgs(own, evs, n - 1, a) ==> HandedArgs(own, evs, m, a))
  {
    hide LastStanding, WithdrawsAt, ArgsAre;
    if evs[n].body.DispatchBody? {
      StandingNew(evs, n);
    } else if !WithdrawsAt(evs, n) {
      LastSame(evs, n, m);
    }
    if WithdrawsAt(evs, n) {
      NoOther(evs, n);
      LastLess(evs, n, m, n - 1);
    }
  }

  // ----- the call of the fold -----

  ghost predicate Runs(c: Call, own: string, evs: seq<Entry>, n: nat)
    requires n <= |evs|
  {
    && c.arguments == own
    && ArgsAre(own, evs, n, c.Args())
    && HandedArgs(own, evs, n, c.dispatchedArgs)
    && (c.sinceDecision <==> HandedSince(evs, n))
    && (c.lastIsDispatch && n > 0 ==> HandedArgs(own, evs, n - 1, c.beforeArgs) && (c.beforeSince <==> HandedSince(evs, n - 1)))
  }

  ghost predicate Decided(c: Call, evs: seq<Entry>, n: nat)
    requires n <= |evs|
  {
    && (c.decisions != [] <==> exists i: nat :: LastRecorded(evs, i, n))
    && forall i: nat | LastRecorded(evs, i, n) :: c.decisions != [] && c.decisions[|c.decisions| - 1].it == evs[i].body.decision
  }

  lemma ArgsSnoc(ds: seq<At<Decision>>, d: At<Decision>, own: string)
    ensures ArgsOf(ds + [d], own) == if d.it.args != "" && d.it.verdict != Answer then d.it.args else ArgsOf(ds, own)
  {
    assert (ds + [d])[..|ds|] == ds;
  }

  lemma NoRecord(evs: seq<Entry>, n: nat)
    requires n < |evs|
    ensures !evs[n].body.DecisionBody? ==> !RecordedAt(evs, n) && !WithdrawsAt(evs, n) && !GivesArgs(evs, n)
    ensures WithdrawsAt(evs, n) ==> !RecordedAt(evs, n) && !GivesArgs(evs, n)
  {}

  lemma RunsDecision(c: Call, own: string, evs: seq<Entry>, n: nat)
    requires n < |evs| && evs[n].body.DecisionBody? && Tracks(c, evs, n) && Runs(c, own, evs, n)
    ensures Runs(OnEvent(c, evs[n]), own, evs, n + 1)
  {
    WithdrawsIs(c, evs, n);
    hide Tracks, HandedArgs, ArgsAre, HandedSince, WithdrawsAt, ArgsOf, EndingDecision, RecordedAt, Calls.Call.Withdraws, Calls.Call.HasVerdict;
    ArgsOn(own, evs, n, c.Args());
    SinceOn(evs, n, n + 1);
    NoRecord(evs, n);
    if WithdrawsAt(evs, n) {
      LastWas(c, evs, n);
      HandedArgsOn(own, evs, n, n + 1, c.beforeArgs);
    } else {
      RecordedIs(evs, n);
      HandedArgsOn(own, evs, n, n + 1, c.dispatchedArgs);
      ArgsSnoc(c.decisions, At(evs[n].id, evs[n].body.decision), own);
    }
  }

  lemma RunsDispatch(c: Call, own: string, evs: seq<Entry>, n: nat)
    requires n < |evs| && evs[n].body.DispatchBody? && Runs(c, own, evs, n)
    ensures Runs(OnEvent(c, evs[n]), own, evs, n + 1)
  {
    hide HandedArgs, ArgsAre, HandedSince, WithdrawsAt, ArgsOf, EndingDecision, RecordedAt, Calls.Call.HasVerdict;
    ArgsOn(own, evs, n, c.Args());
    SinceOn(evs, n, n + 1);
    NoRecord(evs, n);
    HandedArgsOn(own, evs, n, n + 1, c.Args());
  }

  lemma RunsReturn(c: Call, own: string, evs: seq<Entry>, n: nat)
    requires n < |evs| && (IsOutput(evs[n]) || evs[n].body.ResultBody?) && Tracks(c, evs, n) && Runs(c, own, evs, n)
    ensures Runs(OnEvent(c, evs[n]), own, evs, n + 1)
  {
    NotAfterOutput(c, evs, n);
    hide Tracks, HandedArgs, ArgsAre, HandedSince, WithdrawsAt, ArgsOf, RecordedAt, Calls.Call.HasVerdict;
    ArgsOn(own, evs, n, c.Args());
    SinceOn(evs, n, n + 1);
    NoRecord(evs, n);
    HandedArgsOn(own, evs, n, n + 1, c.dispatchedArgs);
  }

  lemma NotAfterOutput(c: Call, evs: seq<Entry>, n: nat)
    requires n < |evs| && Tracks(c, evs, n)
    ensures c.output.Some? ==> !c.lastIsDispatch
  {
    hide HandedOff, WasAnswered, WasRejected, ResultSince, AnsweredSince, EndingDecision, HadOutput;
  }

  lemma LastWas(c: Call, evs: seq<Entry>, n: nat)
    requires n < |evs| && WithdrawsAt(evs, n) && Tracks(c, evs, n)
    ensures c.lastIsDispatch && n > 0
  {
    hide HandedOff, WasAnswered, WasRejected, ResultSince, AnsweredSince, EndingDecision, HadOutput;
  }

  lemma RecordedIs(evs: seq<Entry>, n: nat)
    requires n < |evs| && evs[n].body.DecisionBody? && !WithdrawsAt(evs, n)
    ensures RecordedAt(evs, n)
    ensures GivesArgs(evs, n) <==> evs[n].body.decision.args != "" && evs[n].body.decision.verdict != Answer
  {}

  lemma DecisionsAre(c: Call, e: Entry)
    requires IsEvent(e)
    ensures OnEvent(c, e).decisions
         == if e.body.DecisionBody? && !c.Withdraws(e.body.decision) then c.decisions + [At(e.id, e.body.decision)] else c.decisions
  {
    hide EndingDecision, ArgsOf, Calls.Call.Withdraws, Calls.Call.HasVerdict;
  }

  lemma DecidedOn(c: Call, evs: seq<Entry>, n: nat)
    requires n < |evs| && IsEvent(evs[n]) && Tracks(c, evs, n) && Decided(c, evs, n)
    ensures Decided(OnEvent(c, evs[n]), evs, n + 1)
  {
    if evs[n].body.DecisionBody? {
      WithdrawsIs(c, evs, n);
    }
    DecisionsAre(c, evs[n]);
    hide OnEvent, Tracks, WithdrawsAt, Calls.Call.Withdraws;
    NoRecord(evs, n);
    if evs[n].body.DecisionBody? && !WithdrawsAt(evs, n) {
      RecordedIs(evs, n);
      hide RecordedAt;
      assert LastRecorded(evs, n, n + 1);
    } else {
      hide RecordedAt;
      forall i: nat ensures LastRecorded(evs, i, n + 1) <==> LastRecorded(evs, i, n) {
      }
    }
  }

  lemma NewRuns(e: Entry, evs: seq<Entry>)
    requires IsCall(e)
    ensures Runs(NewCall(e), e.body.item.arguments, evs, 0) && Decided(NewCall(e), evs, 0)
  {}

  lemma {:induction false} CallRuns(e: Entry, evs: seq<Entry>, n: nat)
    requires IsCall(e) && n <= |evs| && forall i | 0 <= i < |evs| :: IsEvent(evs[i])
    ensures var c := After(NewCall(e), evs[..n]); Runs(c, e.body.item.arguments, evs, n) && Decided(c, evs, n)
  {
    hide Tracks, HasLast, Marked, Runs, Decided, OnEvent, NewCall;
    if n == 0 {
      NewRuns(e, evs);
    } else {
      CallRuns(e, evs, n - 1);
      EventsTracked(e, evs, n - 1);
      var c := After(NewCall(e), evs[..n - 1]);
      assert evs[..n] == evs[..n - 1] + [evs[n - 1]];
      AfterSnoc(NewCall(e), evs[..n - 1], evs[n - 1]);
      if evs[n - 1].body.DecisionBody? {
        RunsDecision(c, e.body.item.arguments, evs, n - 1);
      } else if evs[n - 1].body.DispatchBody? {
        RunsDispatch(c, e.body.item.arguments, evs, n - 1);
      } else {
        RunsReturn(c, e.body.item.arguments, evs, n - 1);
      }
      DecidedOn(c, evs, n - 1);
    }
  }

  /** The last decision on record, no hand-off standing since, decided so. */
  ghost predicate DecidedLast(evs: seq<Entry>, v: Verdict) {
    exists i: nat :: LastRecorded(evs, i, |evs|) && Decides(evs[i], v) && !HandedSince(evs, |evs|)
  }

  /** What the call at t runs with, what its last standing hand-off ran with,
      and how it was last decided. */
  lemma HandOffExactly(path: seq<Entry>, t: nat, v: Verdict)
    requires Distinct(path) && TargetsOk(path) && t < |path| && IsCall(path[t])
    ensures var (f, evs, own) := (FoldOf(path), Events(path, t, |path|), path[t].body.item.arguments);
            && path[t].id in f.byEntry
            && var c := f.calls[f.byEntry[path[t].id]];
               && ArgsAre(own, evs, |evs|, c.Args())
               && HandedArgs(own, evs, |evs|, c.dispatchedArgs)
               && (c.LatestIs(v) <==> DecidedLast(evs, v))
  {
    hide Tracks, HasLast, Marked, OnEvent, After, Events, FoldOf, TargetsOk, ArgsAre, HandedArgs, HandedSince, LastRecorded;
    var evs := Events(path, t, |path|);
    CallOfEvents(path, t, |path|);
    EventsAre(path, t, |path|);
    CallRuns(path[t], evs, |evs|);
    assert evs[..|evs|] == evs && path[..|path|] == path;
    RecordedDecides(evs, |evs|);
  }

  lemma RecordedDecides(evs: seq<Entry>, n: nat)
    requires n <= |evs|
    ensures forall i: nat | LastRecorded(evs, i, n) :: i < n && evs[i].body.DecisionBody?
  {}
}

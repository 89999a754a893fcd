/** What was left out of the instructions, as a list: how a delta spells a new
    one by pointing into this list or an older one, and the replay that gives
    it back. */
module Omitted {
  import opened Entries
  import opened KeepRuns

  /** The list remembered for that config entry. */
  function FindList(lists: seq<ListNode>, entry: Id): Option<seq<OmittedPart>> {
    if lists == [] then None
    else if lists[0].entry == entry then Some(lists[0].list)
    else FindList(lists[1..], entry)
  }

  /** The list a keep counts over: the one in force, or the one of names. */
  function ListFor(prev: seq<OmittedPart>, lists: seq<ListNode>, of: Id): Option<seq<OmittedPart>> {
    if of == "" then Some(prev) else FindList(lists, of)
  }

  /** Where a list first names id. */
  function IndexOf(list: seq<OmittedPart>, id: string): (i: Option<nat>)
    ensures i.Some? ==> i.value < |list| && list[i.value].id == id
    ensures i.None? ==> forall k | 0 <= k < |list| :: list[k].id != id
  {
    if list == [] then None
    else if list[0].id == id then Some(0)
    else
      var i := IndexOf(list[1..], id);
      if i.Some? then Some(i.value + 1) else None
  }

  function Keep(keep: nat, of: Id): OmittedPart {
    OmittedPart("", "", 0, "", keep, of)
  }

  predicate IsKeep(p: OmittedPart) {
    p.id == "" && p.keep > 0
  }

  // ----- replay -----

  function NamedIds(delta: seq<OmittedPart>): set<string> {
    set i | 0 <= i < |delta| && delta[i].id != "" :: delta[i].id
  }

  /** The lists a delta counts over, by the entry an of names. */
  function CountedOver(lists: seq<ListNode>, delta: seq<OmittedPart>): set<Id> {
    {""} + (set i | 0 <= i < |delta| && IsKeep(delta[i]) && FindList(lists, delta[i].of).Some? :: delta[i].of)
  }

  /** One cursor for each, found up front. */
  function Cursors(lists: seq<ListNode>, delta: seq<OmittedPart>): map<Id, nat> {
    var keys := CountedOver(lists, delta);
    map of | of in keys :: 0
  }

  /** Every cursor after id was named: past it, in the lists where it stands. */
  function Moved(prev: seq<OmittedPart>, lists: seq<ListNode>, next: map<Id, nat>, id: string): map<Id, nat> {
    map of | of in next ::
      var list := ListFor(prev, lists, of);
      var at := if list.Some? then IndexOf(list.value, id) else None;
      if at.Some? then at.value + 1 else next[of]
  }

  predicate KeepOk(run: seq<OmittedPart>, keep: nat, named: set<string>) {
    |run| == keep && forall i | 0 <= i < |run| :: run[i].id !in named
  }

  /** Reads a delta from the front with a cursor into each list; true when some
      keep into another list could not be filled. */
  function Replay(prev: seq<OmittedPart>, lists: seq<ListNode>, delta: seq<OmittedPart>, named: set<string>,
                  next: map<Id, nat>): (seq<OmittedPart>, bool) {
    if delta == [] then ([], false)
    else
      var p := delta[0];
      if IsKeep(p) then
        var list := ListFor(prev, lists, p.of);
        if p.of !in next || list.None? then
          var (out, bad) := Replay(prev, lists, delta[1..], named, next);
          ([Keep(p.keep, p.of)] + out, true)
        else
          var run := RunAt(list.value, next[p.of], p.keep);
          var ok := KeepOk(run, p.keep, named);
          var (out, bad) := Replay(prev, lists, delta[1..], named, next[p.of := next[p.of] + p.keep]);
          ((if ok then run else [Keep(p.keep, p.of)]) + out, bad || (!ok && p.of != ""))
      else if p.id == "" then
        var (out, bad) := Replay(prev, lists, delta[1..], named, next);
        ([p] + out, bad)
      else
        var (out, bad) := Replay(prev, lists, delta[1..], named, Moved(prev, lists, next, p.id));
        ([p.(keep := 0, of := "")] + out, bad)
  }

  function Resolved(prev: seq<OmittedPart>, delta: seq<OmittedPart>, lists: seq<ListNode>): (seq<OmittedPart>, bool) {
    Replay(prev, lists, delta, NamedIds(delta), Cursors(lists, delta))
  }

  lemma ReplayDone(prev: seq<OmittedPart>, lists: seq<ListNode>, delta: seq<OmittedPart>, named: set<string>, next: map<Id, nat>)
    ensures Replay(prev, lists, delta[|delta|..], named, next) == ([], false)
  {}

  lemma ReplayStep(prev: seq<OmittedPart>, lists: seq<ListNode>, delta: seq<OmittedPart>, n: nat, named: set<string>,
                   next: map<Id, nat>, after: map<Id, nat>, piece: seq<OmittedPart>, failed: bool)
    requires n < |delta|
    requires var p := delta[n];
             if IsKeep(p) then
               var list := ListFor(prev, lists, p.of);
               if p.of !in next || list.None? then after == next && piece == [Keep(p.keep, p.of)] && failed
               else
                 var run := RunAt(list.value, next[p.of], p.keep);
                 var ok := KeepOk(run, p.keep, named);
                 after == next[p.of := next[p.of] + p.keep] && piece == (if ok then run else [Keep(p.keep, p.of)])
                 && failed == (!ok && p.of != "")
             else if p.id == "" then after == next && piece == [p] && !failed
             else after == Moved(prev, lists, next, p.id) && piece == [p.(keep := 0, of := "")] && !failed
    ensures Replay(prev, lists, delta[n..], named, next).0 == piece + Replay(prev, lists, delta[n + 1..], named, after).0
    ensures Replay(prev, lists, delta[n..], named, next).1 == (failed || Replay(prev, lists, delta[n + 1..], named, after).1)
  {
    hide Moved, RunAt, KeepOk, ListFor;
    assert delta[n..][0] == delta[n] && delta[n..][1..] == delta[n + 1..];
  }

  /** Resolves a delta's list against the list in force and those before. */
  method ResolveOmitted(prev: seq<OmittedPart>, delta: seq<OmittedPart>, lists: seq<ListNode>)
    returns (out: seq<OmittedPart>, bad: bool)
    ensures (out, bad) == Resolved(prev, delta, lists)
  {
    hide Moved, RunAt, KeepOk, NamedIds, Cursors, IndexOf, ListFor, Replay;
    var named := NamedIds(delta);
    var next: map<Id, nat> := Cursors(lists, delta);
    out, bad := [], false;
    assert delta[0..] == delta;
    for n := 0 to |delta|
      invariant out + Replay(prev, lists, delta[n..], named, next).0 == Resolved(prev, delta, lists).0
      invariant (bad || Replay(prev, lists, delta[n..], named, next).1) == Resolved(prev, delta, lists).1
    {
      var p := delta[n];
      ghost var was := next;
      var piece, failed := [p], false;
      if IsKeep(p) {
        var list := ListFor(prev, lists, p.of);
        if p.of !in next || list.None? {
          piece, failed := [Keep(p.keep, p.of)], true;
        } else {
          var run := RunAt(list.value, next[p.of], p.keep);
          var ok := KeepOk(run, p.keep, named);
          next := next[p.of := next[p.of] + p.keep];
          piece := if ok then run else [Keep(p.keep, p.of)];
          failed := !ok && p.of != "";
        }
      } else if p.id != "" {
        next := Moved(prev, lists, next, p.id);
        piece := [p.(keep := 0, of := "")];
      }
      ReplayStep(prev, lists, delta, n, named, was, next, piece, failed);
      ghost var rest := Replay(prev, lists, delta[n + 1..], named, next).0;
      assert out + (piece + rest) == (out + piece) + rest;
      out, bad := out + piece, bad || failed;
    }
    ReplayDone(prev, lists, delta, named, next);
    assert out + [] == out;
  }

  // ----- the delta -----

  /** A list a delta may count over: it names a part, and none twice. */
  predicate Countable(list: seq<OmittedPart>) {
    && (exists i :: 0 <= i < |list| && list[i].id != "")
    && (forall i, j | 0 <= i < j < |list| && list[i].id != "" :: list[i].id != list[j].id)
  }

  function Flush(run: nat, of: Id): seq<OmittedPart> {
    if run > 0 then [Keep(run, of)] else []
  }

  /** p is in the list as it is, at the next place to keep. */
  predicate Kept(list: seq<OmittedPart>, p: OmittedPart, next: nat) {
    var at := IndexOf(list, p.id);
    at.Some? && list[at.value] == p && at.value == next
  }

  function After(list: seq<OmittedPart>, id: string, cursor: nat): nat {
    var at := IndexOf(list, id);
    if at.Some? then at.value + 1 else cursor
  }

  function RunsFrom(list: seq<OmittedPart>, of: Id, omitted: seq<OmittedPart>, cursor: nat, run: nat): seq<OmittedPart> {
    if omitted == [] then Flush(run, of)
    else if Kept(list, omitted[0], cursor + run) then RunsFrom(list, of, omitted[1..], cursor, run + 1)
    else
      Flush(run, of)
      + ([omitted[0]] + RunsFrom(list, of, omitted[1..], After(list, omitted[0].id, cursor + run), 0))
  }

  /** Spells omitted against list: stretches found there, at or after the last
      one used, shrink to a keep each. */
  function Runs(list: seq<OmittedPart>, of: Id, omitted: seq<OmittedPart>): Option<seq<OmittedPart>> {
    if Countable(list) then Some(RunsFrom(list, of, omitted, 0, 0)) else None
  }

  /** One part of the list read, behind what is written already. */
  lemma RunsStep(list: seq<OmittedPart>, of: Id, omitted: seq<OmittedPart>, n: nat, cursor: nat, run: nat, out: seq<OmittedPart>)
    requires n < |omitted|
    ensures var p := omitted[n];
            out + RunsFrom(list, of, omitted[n..], cursor, run)
            == if Kept(list, p, cursor + run) then out + RunsFrom(list, of, omitted[n + 1..], cursor, run + 1)
               else out + Flush(run, of) + [p] + RunsFrom(list, of, omitted[n + 1..], After(list, p.id, cursor + run), 0)
  {
    hide Kept, After, Flush;
    assert omitted[n..][0] == omitted[n] && omitted[n..][1..] == omitted[n + 1..];
    var rest := RunsFrom(list, of, omitted[n + 1..], After(list, omitted[n].id, cursor + run), 0);
    assert out + (Flush(run, of) + ([omitted[n]] + rest)) == out + Flush(run, of) + [omitted[n]] + rest;
  }

  lemma RunsDone(list: seq<OmittedPart>, of: Id, omitted: seq<OmittedPart>, cursor: nat, run: nat)
    ensures RunsFrom(list, of, omitted[|omitted|..], cursor, run) == Flush(run, of)
  {}

  method OmittedRuns(list: seq<OmittedPart>, of: Id, omitted: seq<OmittedPart>) returns (r: Option<seq<OmittedPart>>)
    ensures r == Runs(list, of, omitted)
  {
    hide IndexOf, RunsFrom, Flush, Countable;
    if !Countable(list) {
      return None;
    }
    var out: seq<OmittedPart> := [];
    var cursor: nat, run: nat := 0, 0;
    assert omitted[0..] == omitted;
    for n := 0 to |omitted|
      invariant out + RunsFrom(list, of, omitted[n..], cursor, run) == RunsFrom(list, of, omitted, 0, 0)
    {
      var p := omitted[n];
      RunsStep(list, of, omitted, n, cursor, run, out);
      var at := IndexOf(list, p.id);
      if at.Some? && list[at.value] == p && at.value == cursor + run {
        run := run + 1;
      } else {
        out := out + Flush(run, of) + [p];
        cursor := if at.Some? then at.value + 1 else cursor + run;
        run := 0;
      }
    }
    RunsDone(list, of, omitted, cursor, run);
    return Some(out + Flush(run, of));
  }

  /** How long a list encodes to. */
  type Size = seq<OmittedPart> -> nat

  const MAX_LISTS: nat := 16

  /** A list a writer may ask for: each part whole, named, and named once. */
  predicate Listed(omitted: seq<OmittedPart>) {
    && (forall i | 0 <= i < |omitted| :: omitted[i].id != "" && omitted[i].keep == 0 && omitted[i].of == "")
    && (forall i, j | 0 <= i < j < |omitted| :: omitted[i].id != omitted[j].id)
  }

  function Shorter(size: Size, best: seq<OmittedPart>, d: Option<seq<OmittedPart>>): seq<OmittedPart> {
    if d.Some? && size(d.value) < size(best) then d.value else best
  }

  function Shortest(size: Size, best: seq<OmittedPart>, lists: seq<ListNode>, omitted: seq<OmittedPart>): seq<OmittedPart>
    decreases |lists|
  {
    if lists == [] then best
    else Shortest(size, Shorter(size, best, Runs(lists[0].list, lists[0].entry, omitted)), lists[1..], omitted)
  }

  /** The lists tried beside the one in force: the sixteen newest, leaving
      out one equal to it. */
  function Tried(prev: seq<OmittedPart>, lists: seq<ListNode>): seq<ListNode> {
    var rest := if lists != [] && lists[0].list == prev then lists[1..] else lists;
    rest[..Min(MAX_LISTS, |rest|)]
  }

  function OmittedDeltaOf(size: Size, s: Settings, omitted: seq<OmittedPart>): Option<seq<OmittedPart>> {
    if s.omitted == omitted then None
    else if omitted == [] then Some([])
    else if !Listed(omitted) then Some(omitted)
    else
      var runs := Runs(s.omitted, "", omitted);
      var best := if runs.Some? then runs.value else omitted;
      var best := if size(omitted) < size(best) then omitted else best;
      Some(Shortest(size, best, Tried(s.omitted, s.lists), omitted))
  }

  method OmittedDelta(size: Size, s: Settings, omitted: seq<OmittedPart>) returns (d: Option<seq<OmittedPart>>)
    ensures d == OmittedDeltaOf(size, s, omitted)
  {
    hide Runs, Listed, Shorter;
    var prev := s.omitted;
    if prev == omitted {
      return None;
    } else if omitted == [] {
      return Some([]);
    } else if !Listed(omitted) {
      return Some(omitted);
    }
    var runs := OmittedRuns(prev, "", omitted);
    var best := if runs.Some? then runs.value else omitted;
    if size(omitted) < size(best) {
      best := omitted;
    }
    ghost var first := best;
    ghost var tries := Tried(prev, s.lists);
    var tried, i := 0, 0;
    while i < |s.lists| && tried < MAX_LISTS
      invariant 0 <= i <= |s.lists| && 0 <= tried <= MAX_LISTS
      invariant tried == if s.lists != [] && s.lists[0].list == prev && i > 0 then i - 1 else i
      invariant Shortest(size, best, tries[Min(tried, |tries|)..], omitted) == Shortest(size, first, tries, omitted)
      decreases |s.lists| - i
    {
      var h := s.lists[i];
      if i == 0 && h.list == prev {
        i := i + 1;
        continue;
      }
      assert tries[tried] == h && tries[tried..][1..] == tries[tried + 1..];
      var other := OmittedRuns(h.list, h.entry, omitted);
      best := Shorter(size, best, other);
      tried, i := tried + 1, i + 1;
    }
    return Some(best);
  }

  // ----- diff then patch is the identity -----

  /** Each config entry put one list in force. */
  ghost predicate ListsOk(lists: seq<ListNode>) {
    && (forall i | 0 <= i < |lists| :: lists[i].entry != "")
    && (forall i, j | 0 <= i < j < |lists| :: lists[i].entry != lists[j].entry)
  }

  lemma {:induction false} FindHeld(lists: seq<ListNode>, i: nat)
    requires ListsOk(lists) && i < |lists|
    ensures FindList(lists, lists[i].entry) == Some(lists[i].list)
  {
    if i > 0 {
      assert lists[1..][i - 1] == lists[i];
      FindHeld(lists[1..], i - 1);
    }
  }

  lemma NamedConcat(a: seq<OmittedPart>, b: seq<OmittedPart>)
    ensures NamedIds(a + b) == NamedIds(a) + NamedIds(b)
  {
    forall id | id in NamedIds(a) ensures id in NamedIds(a + b) {
      var i :| 0 <= i < |a| && a[i].id == id;
      assert (a + b)[i].id == id;
    }
    forall id | id in NamedIds(b) ensures id in NamedIds(a + b) {
      var i :| 0 <= i < |b| && b[i].id == id;
      assert (a + b)[|a| + i].id == id;
    }
  }

  lemma NamedOne(p: OmittedPart, run: nat, of: Id)
    ensures NamedIds([p]) == if p.id != "" then {p.id} else {}
    ensures NamedIds(Flush(run, of)) == {}
  {
    assert [p][0] == p;
  }

  lemma {:induction false} RunsName(list: seq<OmittedPart>, of: Id, omitted: seq<OmittedPart>, cursor: nat, run: nat)
    ensures NamedIds(RunsFrom(list, of, omitted, cursor, run)) <= NamedIds(omitted)
  {
    hide Kept, After, NamedIds;
    if omitted != [] {
      var p := omitted[0];
      assert omitted == [p] + omitted[1..];
      NamedConcat([p], omitted[1..]);
      var next := After(list, p.id, cursor + run);
      RunsName(list, of, omitted[1..], cursor, run + 1);
      RunsName(list, of, omitted[1..], next, 0);
      var rest := RunsFrom(list, of, omitted[1..], next, 0);
      NamedConcat(Flush(run, of), [p] + rest);
      NamedConcat([p], rest);
    }
    NamedOne(Keep(0, ""), run, of);
  }

  /** A keep of the run waiting, and what follows it. */
  lemma FlushReplays(prev: seq<OmittedPart>, lists: seq<ListNode>, list: seq<OmittedPart>, of: Id, run: nat,
                     rest: seq<OmittedPart>, named: set<string>, next: map<Id, nat>)
    requires ListFor(prev, lists, of) == Some(list) && of in next
    requires next[of] + run <= |list| && forall k | next[of] <= k < next[of] + run :: list[k].id !in named
    ensures var r := Replay(prev, lists, rest, named, next[of := next[of] + run]);
            Replay(prev, lists, Flush(run, of) + rest, named, next) == (list[next[of]..next[of] + run] + r.0, r.1)
  {
    if run > 0 {
      assert (Flush(run, of) + rest)[1..] == rest;
      assert RunAt(list, next[of], run) == list[next[of]..next[of] + run];
      assert KeepOk(list[next[of]..next[of] + run], run, named);
    } else {
      assert Flush(run, of) + rest == rest;
      assert next[of := next[of] + run] == next;
      var out := Replay(prev, lists, rest, named, next).0;
      assert list[next[of]..next[of]] + out == out;
    }
  }

  lemma PartReplays(prev: seq<OmittedPart>, lists: seq<ListNode>, p: OmittedPart, rest: seq<OmittedPart>,
                    named: set<string>, next: map<Id, nat>)
    requires p.id != "" && p.keep == 0 && p.of == ""
    ensures var r := Replay(prev, lists, rest, named, Moved(prev, lists, next, p.id));
            Replay(prev, lists, [p] + rest, named, next) == ([p] + r.0, r.1)
  {
    assert ([p] + rest)[1..] == rest;
  }

  lemma TailListed(omitted: seq<OmittedPart>)
    requires Listed(omitted) && omitted != []
    ensures Listed(omitted[1..]) && omitted[0].id !in NamedIds(omitted[1..]) && omitted[0].id != ""
    ensures forall i | 0 <= i < |omitted[1..]| :: omitted[1..][i] == omitted[i + 1] && omitted[i + 1].id != omitted[0].id
  {}

  /** What is to replay: the run of list waiting at the cursor, and the rest,
      whose parts are named in it when they are at all. */
  ghost predicate Replayable(prev: seq<OmittedPart>, lists: seq<ListNode>, list: seq<OmittedPart>, of: Id,
                             omitted: seq<OmittedPart>, run: nat, named: set<string>, next: map<Id, nat>) {
    && ListFor(prev, lists, of) == Some(list) && of in next && Listed(omitted)
    && next[of] + run <= |list| && (forall k | next[of] <= k < next[of] + run :: list[k].id !in named)
    && forall i | 0 <= i < |omitted| && omitted[i].id in named ::
         omitted[i].id in NamedIds(RunsFrom(list, of, omitted, next[of], run))
  }

  lemma {:induction false} RunsReplay(prev: seq<OmittedPart>, lists: seq<ListNode>, list: seq<OmittedPart>, of: Id,
                                      omitted: seq<OmittedPart>, run: nat, named: set<string>, next: map<Id, nat>)
    requires Replayable(prev, lists, list, of, omitted, run, named, next)
    ensures Replay(prev, lists, RunsFrom(list, of, omitted, next[of], run), named, next)
         == (list[next[of]..next[of] + run] + omitted, false)
    decreases |omitted|, 1
  {
    hide NamedIds, ListFor, Replay, Moved, Kept, After;
    if omitted == [] {
      var waiting := list[next[of]..next[of] + run];
      assert RunsFrom(list, of, omitted, next[of], run) == Flush(run, of) + [] && waiting + [] == waiting;
      FlushReplays(prev, lists, list, of, run, [], named, next);
      ReplayNothing(prev, lists, named, next[of := next[of] + run]);
    } else if Kept(list, omitted[0], next[of] + run) {
      KeptReplays(prev, lists, list, of, omitted, run, named, next);
    } else {
      NamedReplays(prev, lists, list, of, omitted, run, named, next);
    }
  }

  lemma {:induction false} KeptReplays(prev: seq<OmittedPart>, lists: seq<ListNode>, list: seq<OmittedPart>, of: Id,
                                       omitted: seq<OmittedPart>, run: nat, named: set<string>, next: map<Id, nat>)
    requires Replayable(prev, lists, list, of, omitted, run, named, next)
    requires omitted != [] && Kept(list, omitted[0], next[of] + run)
    ensures Replay(prev, lists, RunsFrom(list, of, omitted, next[of], run), named, next)
         == (list[next[of]..next[of] + run] + omitted, false)
    decreases |omitted|, 0
  {
    hide NamedIds, ListFor, Replay, Moved, Kept, After, Flush;
    var (p, tail, cursor) := (omitted[0], omitted[1..], next[of]);
    TailListed(omitted);
    AfterWithin(list, p, cursor + run);
    RunsName(list, of, tail, cursor, run + 1);
    RunsReplay(prev, lists, list, of, tail, run + 1, named, next);
    assert list[cursor..cursor + (run + 1)] + tail == list[cursor..cursor + run] + omitted;
  }

  /** A run waiting, a part named after it, and then the rest. */
  lemma PastNamed(prev: seq<OmittedPart>, lists: seq<ListNode>, list: seq<OmittedPart>, of: Id, p: OmittedPart,
                  rest: seq<OmittedPart>, run: nat, named: set<string>, next: map<Id, nat>)
    requires ListFor(prev, lists, of) == Some(list) && of in next && p.id != "" && p.keep == 0 && p.of == ""
    requires next[of] + run <= |list| && forall k | next[of] <= k < next[of] + run :: list[k].id !in named
    ensures var r := Replay(prev, lists, rest, named, Moved(prev, lists, next[of := next[of] + run], p.id));
            Replay(prev, lists, Flush(run, of) + ([p] + rest), named, next) == (list[next[of]..next[of] + run] + ([p] + r.0), r.1)
  {
    hide ListFor, Replay, Moved, Flush;
    FlushReplays(prev, lists, list, of, run, [p] + rest, named, next);
    PartReplays(prev, lists, p, rest, named, next[of := next[of] + run]);
  }

  lemma RunsNamed(list: seq<OmittedPart>, of: Id, omitted: seq<OmittedPart>, cursor: nat, run: nat)
    requires omitted != [] && !Kept(list, omitted[0], cursor + run)
    ensures var rest := RunsFrom(list, of, omitted[1..], After(list, omitted[0].id, cursor + run), 0);
            RunsFrom(list, of, omitted, cursor, run) == Flush(run, of) + ([omitted[0]] + rest)
  {
    hide Kept, After, Flush;
  }

  lemma {:induction false} NamedReplays(prev: seq<OmittedPart>, lists: seq<ListNode>, list: seq<OmittedPart>, of: Id,
                                        omitted: seq<OmittedPart>, run: nat, named: set<string>, next: map<Id, nat>)
    requires Replayable(prev, lists, list, of, omitted, run, named, next)
    requires omitted != [] && !Kept(list, omitted[0], next[of] + run)
    ensures Replay(prev, lists, RunsFrom(list, of, omitted, next[of], run), named, next)
         == (list[next[of]..next[of] + run] + omitted, false)
    decreases |omitted|, 0
  {
    hide NamedIds, ListFor, Replay, Moved, Kept, After, Flush, RunsFrom;
    var (p, tail, cursor) := (omitted[0], omitted[1..], next[of]);
    var after := After(list, p.id, cursor + run);
    var rest := RunsFrom(list, of, tail, after, 0);
    var flushed := next[of := cursor + run];
    AfterWithin(list, p, cursor + run);
    RunsNamed(list, of, omitted, cursor, run);
    RestReplayable(prev, lists, list, of, omitted, run, named, next);
    MovedOne(prev, lists, flushed, p.id, list, of);
    RunsReplay(prev, lists, list, of, tail, 0, named, Moved(prev, lists, flushed, p.id));
    assert list[after..after + 0] + tail == tail;
    PastNamed(prev, lists, list, of, p, rest, run, named, next);
    assert [p] + tail == omitted;
  }

  /** Past a part named in the delta, what is left replays from the cursor moved. */
  lemma RestReplayable(prev: seq<OmittedPart>, lists: seq<ListNode>, list: seq<OmittedPart>, of: Id,
                       omitted: seq<OmittedPart>, run: nat, named: set<string>, next: map<Id, nat>)
    requires Replayable(prev, lists, list, of, omitted, run, named, next)
    requires omitted != [] && !Kept(list, omitted[0], next[of] + run)
    ensures Replayable(prev, lists, list, of, omitted[1..], 0, named, Moved(prev, lists, next[of := next[of] + run], omitted[0].id))
  {
    hide NamedIds, ListFor, Moved, Kept, After, Flush;
    var (p, tail, cursor) := (omitted[0], omitted[1..], next[of]);
    var after := After(list, p.id, cursor + run);
    var rest := RunsFrom(list, of, tail, after, 0);
    TailListed(omitted);
    AfterWithin(list, p, cursor + run);
    NamedConcat(Flush(run, of), [p] + rest);
    NamedConcat([p], rest);
    NamedOne(p, run, of);
    MovedOne(prev, lists, next[of := cursor + run], p.id, list, of);
  }

  lemma AfterWithin(list: seq<OmittedPart>, p: OmittedPart, next: nat)
    requires next <= |list|
    ensures After(list, p.id, next) <= |list|
    ensures Kept(list, p, next) ==> next < |list| && list[next] == p
  {}

  lemma MovedOne(prev: seq<OmittedPart>, lists: seq<ListNode>, next: map<Id, nat>, id: string, list: seq<OmittedPart>, of: Id)
    requires ListFor(prev, lists, of) == Some(list) && of in next
    ensures var moved := Moved(prev, lists, next, id);
            of in moved && moved[of] == After(list, id, next[of])
  {}

  lemma ReplayNothing(prev: seq<OmittedPart>, lists: seq<ListNode>, named: set<string>, next: map<Id, nat>)
    ensures Replay(prev, lists, [], named, next) == ([], false)
  {}

  /** A delta of whole parts alone is the list it puts in force. */
  lemma {:induction false} WholeReplays(prev: seq<OmittedPart>, lists: seq<ListNode>, omitted: seq<OmittedPart>,
                                        named: set<string>, next: map<Id, nat>)
    requires Listed(omitted)
    ensures Replay(prev, lists, omitted, named, next) == (omitted, false)
    decreases |omitted|
  {
    if omitted != [] {
      TailListed(omitted);
      WholeReplays(prev, lists, omitted[1..], named, Moved(prev, lists, next, omitted[0].id));
      assert omitted == [omitted[0]] + omitted[1..];
    }
  }

  /** A delta that keeps nothing writes every part. */
  lemma {:induction false} NoKeepWhole(list: seq<OmittedPart>, of: Id, omitted: seq<OmittedPart>, cursor: nat, run: nat)
    requires forall p | p in RunsFrom(list, of, omitted, cursor, run) :: !IsKeep(p)
    ensures run == 0 && RunsFrom(list, of, omitted, cursor, run) == omitted
    decreases |omitted|
  {
    hide Kept, After;
    var d := RunsFrom(list, of, omitted, cursor, run);
    if omitted != [] {
      var p := omitted[0];
      if Kept(list, p, cursor + run) {
        NoKeepWhole(list, of, omitted[1..], cursor, run + 1);
      } else {
        var rest := RunsFrom(list, of, omitted[1..], After(list, p.id, cursor + run), 0);
        assert run > 0 ==> Keep(run, of) in d;
        NoKeepWhole(list, of, omitted[1..], After(list, p.id, cursor + run), 0);
      }
    } else {
      assert run > 0 ==> Keep(run, of) in d;
    }
  }

  /** Counting over one list gives back what was asked for. */
  lemma RunsResolve(prev: seq<OmittedPart>, lists: seq<ListNode>, list: seq<OmittedPart>, of: Id, omitted: seq<OmittedPart>)
    requires ListFor(prev, lists, of) == Some(list) && Listed(omitted)
    ensures Resolved(prev, RunsFrom(list, of, omitted, 0, 0), lists) == (omitted, false)
  {
    hide RunsFrom, Replay;
    var d := RunsFrom(list, of, omitted, 0, 0);
    var next := Cursors(lists, d);
    if of in next {
      RunsReplay(prev, lists, list, of, omitted, 0, NamedIds(d), next);
      assert list[0..0] + omitted == omitted;
    } else {
      RunsKeepOf(list, of, omitted, 0, 0);
      assert forall i | 0 <= i < |d| :: !IsKeep(d[i]);
      assert forall p | p in d :: !IsKeep(p);
      NoKeepWhole(list, of, omitted, 0, 0);
      WholeReplays(prev, lists, omitted, NamedIds(d), next);
    }
  }

  lemma {:induction false} RunsKeepOf(list: seq<OmittedPart>, of: Id, omitted: seq<OmittedPart>, cursor: nat, run: nat)
    ensures forall i | 0 <= i < |RunsFrom(list, of, omitted, cursor, run)| && IsKeep(RunsFrom(list, of, omitted, cursor, run)[i]) ::
              RunsFrom(list, of, omitted, cursor, run)[i].of == of || RunsFrom(list, of, omitted, cursor, run)[i] in omitted
    decreases |omitted|
  {
    hide Kept, After;
    if omitted != [] {
      RunsKeepOf(list, of, omitted[1..], cursor, run + 1);
      RunsKeepOf(list, of, omitted[1..], After(list, omitted[0].id, cursor + run), 0);
    }
  }

  /** A delta that resolves to what was asked for, and is no longer than it. */
  ghost predicate Good(size: Size, s: Settings, omitted: seq<OmittedPart>, d: seq<OmittedPart>) {
    Resolved(s.omitted, d, s.lists) == (omitted, false) && size(d) <= size(omitted)
  }

  lemma {:induction false} ShortestGood(size: Size, s: Settings, best: seq<OmittedPart>, lists: seq<ListNode>, omitted: seq<OmittedPart>)
    requires Listed(omitted) && Good(size, s, omitted, best)
    requires forall i | 0 <= i < |lists| :: ListFor(s.omitted, s.lists, lists[i].entry) == Some(lists[i].list)
    ensures var d := Shortest(size, best, lists, omitted);
            && Good(size, s, omitted, d) && size(d) <= size(best)
            && forall i | 0 <= i < |lists| && Countable(lists[i].list) ::
                 size(d) <= size(RunsFrom(lists[i].list, lists[i].entry, omitted, 0, 0))
    decreases |lists|
  {
    hide ListFor, Resolved, Listed, RunsFrom, Countable;
    if lists != [] {
      var d := Runs(lists[0].list, lists[0].entry, omitted);
      if d.Some? {
        RunsResolve(s.omitted, s.lists, lists[0].list, lists[0].entry, omitted);
      }
      forall i | 0 <= i < |lists[1..]| ensures ListFor(s.omitted, s.lists, lists[1..][i].entry) == Some(lists[1..][i].list) {
        assert lists[1..][i] == lists[i + 1];
      }
      var better := Shorter(size, best, d);
      ShortestGood(size, s, better, lists[1..], omitted);
      forall i | 0 <= i < |lists| && Countable(lists[i].list)
        ensures size(Shortest(size, better, lists[1..], omitted)) <= size(RunsFrom(lists[i].list, lists[i].entry, omitted, 0, 0))
      {
        if i > 0 {
          assert lists[1..][i - 1] == lists[i];
        }
      }
    }
  }

  /** The delta puts exactly the list asked for in force, whatever lists it
      counts over; it never encodes longer than that list, nor than the keeps
      over any list tried; and no delta means the list is in force. */
  lemma DiffThenPatch(size: Size, s: Settings, omitted: seq<OmittedPart>)
    requires ListsOk(s.lists) && Listed(omitted)
    ensures var d := OmittedDeltaOf(size, s, omitted);
            if d.None? then s.omitted == omitted
            else
              && Resolved(s.omitted, d.value, s.lists) == (omitted, false)
              && size(d.value) <= size(omitted)
              && (omitted != [] && Countable(s.omitted) ==> size(d.value) <= size(RunsFrom(s.omitted, "", omitted, 0, 0)))
              && (omitted != [] ==> forall i | 0 <= i < |Tried(s.omitted, s.lists)| && Countable(Tried(s.omitted, s.lists)[i].list) ::
                   size(d.value) <= size(RunsFrom(Tried(s.omitted, s.lists)[i].list, Tried(s.omitted, s.lists)[i].entry, omitted, 0, 0)))
  {
    hide RunsFrom, Countable, Replay, NamedIds, Cursors, Shortest, IndexOf;
    WholeReplays(s.omitted, s.lists, omitted, NamedIds(omitted), Cursors(s.lists, omitted));
    if s.omitted != omitted && omitted != [] {
      var runs := Runs(s.omitted, "", omitted);
      if runs.Some? {
        RunsResolve(s.omitted, s.lists, s.omitted, "", omitted);
      }
      var best := if runs.Some? then runs.value else omitted;
      var best' := if size(omitted) < size(best) then omitted else best;
      var tries := Tried(s.omitted, s.lists);
      forall i | 0 <= i < |tries| ensures ListFor(s.omitted, s.lists, tries[i].entry) == Some(tries[i].list) {
        TriedHeld(s.omitted, s.lists, i);
      }
      ShortestGood(size, s, best', tries, omitted);
    }
  }

  lemma TriedHeld(prev: seq<OmittedPart>, lists: seq<ListNode>, i: nat)
    requires ListsOk(lists) && i < |Tried(prev, lists)|
    ensures ListFor(prev, lists, Tried(prev, lists)[i].entry) == Some(Tried(prev, lists)[i].list)
  {
    var k := if lists != [] && lists[0].list == prev then i + 1 else i;
    assert Tried(prev, lists)[i] == lists[k];
    FindHeld(lists, k);
  }
}

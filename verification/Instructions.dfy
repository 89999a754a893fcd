/** Instructions made of parts: how a delta spells a new list of them with
    keeps, hashes and texts, and the replay that gives the list back. */
module Instructions {
  import opened Entries
  import opened KeepRuns

  /** Hashes of texts, which tell texts apart and are never empty. */
  type TextHash = string -> string

  ghost predicate HashOk(hash: TextHash) {
    && (forall a, b :: hash(a) == hash(b) ==> a == b)
    && (forall a :: hash(a) != "")
  }

  const SEPARATOR := "\n\n"

  function Join(parts: seq<InstructionPart>): string {
    if parts == [] then ""
    else if |parts| == 1 then parts[0].text
    else parts[0].text + SEPARATOR + Join(parts[1..])
  }

  /** Trust members carry the same labels, whatever order they are in. */
  predicate SameTrust(a: Option<Trust>, b: Option<Trust>) {
    if a.None? || b.None? then a.None? && b.None?
    else (set l | l in a.value.labels) == (set l | l in b.value.labels)
  }

  /** A part whose text is not there, or a keep that could not be filled. */
  predicate Unresolved(p: InstructionPart) {
    (p.text == "" && p.hash != "") || (p.id == "" && p.keep > 0) || p.unresolved
  }

  function TextPart(id: string, text: string, source: string, trust: Option<Trust>): InstructionPart {
    InstructionPart(id, text, source, trust, "", 0, false)
  }

  function HashPart(id: string, hash: string): InstructionPart {
    InstructionPart(id, "", "", None, hash, 0, false)
  }

  function KeepPart(keep: nat, unresolved: bool): InstructionPart {
    InstructionPart("", "", "", None, "", keep, unresolved)
  }

  // ----- the parts that left force -----

  type History = seq<map<string, seq<InstructionPart>>>

  function FindIn(hash: TextHash, ps: seq<InstructionPart>, h: string): Option<InstructionPart> {
    if ps == [] then None
    else if hash(ps[0].text) == h then Some(ps[0])
    else FindIn(hash, ps[1..], h)
  }

  /** Searches the history, newest departures first, for the text hashed h. */
  function Find(hash: TextHash, left: History, id: string, h: string): Option<InstructionPart> {
    if left == [] then None
    else
      var here := if id in left[0] then FindIn(hash, left[0][id], h) else None;
      if here.Some? then here else Find(hash, left[1..], id, h)
  }

  /** The hash alone would put p in force, source and trust included. */
  predicate Has(hash: TextHash, left: History, p: InstructionPart) {
    var q := Find(hash, left, p.id, hash(p.text));
    q.Some? && q.value.source == p.source && SameTrust(q.value.trust, p.trust)
  }

  function Leavers(prev: seq<InstructionPart>, now: seq<InstructionPart>, id: string): seq<InstructionPart> {
    if prev == [] then []
    else
      (if prev[0].id == id && !Unresolved(prev[0]) && prev[0] !in now then [prev[0]] else [])
      + Leavers(prev[1..], now, id)
  }

  /** The history with one more step: the parts of prev that now lacks. */
  function Leave(left: History, prev: seq<InstructionPart>, now: seq<InstructionPart>): History {
    var ids := set p | p in prev && p.id != "" && !Unresolved(p) && p !in now :: p.id;
    if ids == {} then left else [map id | id in ids :: Leavers(prev, now, id)] + left
  }

  /** Parts that left force were resolved, each kept under its id. */
  ghost predicate HistoryOk(left: History) {
    forall k: nat, id: string, i: nat | 0 <= k < |left| && id in left[k] && 0 <= i < |left[k][id]| ::
      left[k][id][i].id == id && !Unresolved(left[k][id][i])
  }

  lemma {:induction false} LeaversOk(prev: seq<InstructionPart>, now: seq<InstructionPart>, id: string)
    ensures forall i | 0 <= i < |Leavers(prev, now, id)| ::
              Leavers(prev, now, id)[i].id == id && !Unresolved(Leavers(prev, now, id)[i])
  {
    if prev != [] {
      LeaversOk(prev[1..], now, id);
    }
  }

  lemma LeaveOk(left: History, prev: seq<InstructionPart>, now: seq<InstructionPart>)
    requires HistoryOk(left)
    ensures HistoryOk(Leave(left, prev, now))
  {
    var out: History := Leave(left, prev, now);
    forall k: nat, id: string, i: nat | k < |out| && id in out[k] && i < |out[k][id]|
      ensures out[k][id][i].id == id && !Unresolved(out[k][id][i])
    {
      if out != left {
        LeaversOk(prev, now, id);
        assert k > 0 ==> out[k] == left[k - 1];
      }
    }
  }

  ghost predicate Left(prev: seq<InstructionPart>, now: seq<InstructionPart>, p: InstructionPart) {
    p in prev && p !in now && p.id != "" && !Unresolved(p)
  }

  lemma {:induction false} LeaversAre(prev: seq<InstructionPart>, now: seq<InstructionPart>, id: string, p: InstructionPart)
    requires id != ""
    ensures p in Leavers(prev, now, id) <==> p.id == id && Left(prev, now, p)
  {
    if prev != [] {
      LeaversAre(prev[1..], now, id, p);
    }
  }

  /** A step of the history holds exactly the parts that left force in it, each
      under its id; one in which none did is no step. */
  lemma LeaveExactly(left: History, prev: seq<InstructionPart>, now: seq<InstructionPart>)
    ensures (forall p :: !Left(prev, now, p)) ==> Leave(left, prev, now) == left
    ensures (exists p :: Left(prev, now, p)) ==>
              && |Leave(left, prev, now)| == |left| + 1 && Leave(left, prev, now)[1..] == left
              && var step := Leave(left, prev, now)[0];
                 && (forall id, p: InstructionPart | id in step && p in step[id] :: p.id == id && Left(prev, now, p))
                 && (forall p: InstructionPart | Left(prev, now, p) :: p.id in step && p in step[p.id])
  {
    hide Unresolved;
    var ids := set p | p in prev && p.id != "" && !Unresolved(p) && p !in now :: p.id;
    if p :| Left(prev, now, p) {
      assert p.id in ids;
      forall id, q: InstructionPart | id != "" ensures q in Leavers(prev, now, id) <==> q.id == id && Left(prev, now, q) {
        LeaversAre(prev, now, id, q);
      }
      forall q | Left(prev, now, q) ensures q.id in ids {
      }
    } else {
      forall p | p in prev && p.id != "" && !Unresolved(p) ensures p in now {
        assert !Left(prev, now, p);
      }
      assert ids == {};
    }
  }

  lemma {:induction false} FindInOk(hash: TextHash, ps: seq<InstructionPart>, h: string)
    ensures FindIn(hash, ps, h).Some? ==> FindIn(hash, ps, h).value in ps && hash(FindIn(hash, ps, h).value.text) == h
  {
    if ps != [] {
      FindInOk(hash, ps[1..], h);
    }
  }

  lemma {:induction false} FindOk(hash: TextHash, left: History, id: string, h: string)
    requires HistoryOk(left)
    ensures var q := Find(hash, left, id, h); q.Some? ==> !Unresolved(q.value) && hash(q.value.text) == h
  {
    if left != [] {
      if id in left[0] {
        FindInOk(hash, left[0][id], h);
      }
      assert HistoryOk(left[1..]) by {
        forall k: nat, i: string, j: nat | 0 <= k < |left[1..]| && i in left[1..][k] && 0 <= j < |left[1..][k][i]|
          ensures left[1..][k][i][j].id == i && !Unresolved(left[1..][k][i][j])
        {
          assert left[1..][k] == left[k + 1];
        }
      }
      FindOk(hash, left[1..], id, h);
    }
  }

  // ----- replay -----

  /** Where each id last stands among the parts in force. */
  function Places(prev: seq<InstructionPart>): (at: map<string, nat>)
    ensures forall id | id in at :: at[id] < |prev| && prev[at[id]].id == id
  {
    if prev == [] then map[]
    else
      var n := |prev| - 1;
      Places(prev[..n])[prev[n].id := n]
  }

  /** The part a named element puts in force: its text, or the text its hash
      names, in force or since it left. */
  function Named(hash: TextHash, prev: seq<InstructionPart>, left: History, p: InstructionPart): InstructionPart {
    var next := TextPart(p.id, p.text, p.source, p.trust);
    if p.text != "" || p.hash == "" then next
    else
      var at := Places(prev);
      var held := if p.id in at then Some(prev[at[p.id]]) else None;
      var was := if held.None? || (!Unresolved(held.value) && hash(held.value.text) != p.hash)
                 then Find(hash, left, p.id, p.hash) else held;
      if was.Some? && !Unresolved(was.value) then
        next.(text := was.value.text,
              source := if p.source == "" then was.value.source else p.source,
              trust := if p.trust.None? then was.value.trust else p.trust)
      else next.(hash := p.hash)
  }

  predicate IsKeep(p: InstructionPart) {
    p.id == "" && p.keep > 0
  }

  predicate KeepOk(run: seq<InstructionPart>, keep: nat, named: set<string>) {
    |run| == keep && forall i | 0 <= i < |run| :: run[i].id !in named
  }

  /** Reads a delta from the front, the cursor marking how far into prev its
      keeps and names have come. */
  function Replay(hash: TextHash, prev: seq<InstructionPart>, left: History, delta: seq<InstructionPart>,
                  named: set<string>, cursor: nat): seq<InstructionPart> {
    if delta == [] then []
    else
      var p := delta[0];
      if IsKeep(p) then
        var run := RunAt(prev, cursor, p.keep);
        (if KeepOk(run, p.keep, named) then run else [KeepPart(p.keep, false)])
        + Replay(hash, prev, left, delta[1..], named, cursor + p.keep)
      else if p.id == "" then
        [KeepPart(p.keep, true)] + Replay(hash, prev, left, delta[1..], named, cursor)
      else
        var at := Places(prev);
        [Named(hash, prev, left, p)]
        + Replay(hash, prev, left, delta[1..], named, if p.id in at then at[p.id] + 1 else cursor)
  }

  function IdsOf(ps: seq<InstructionPart>): set<string> {
    set i | 0 <= i < |ps| && ps[i].id != "" :: ps[i].id
  }

  function AppliedParts(hash: TextHash, prev: seq<InstructionPart>, delta: seq<InstructionPart>, left: History): seq<InstructionPart> {
    Replay(hash, prev, left, delta, IdsOf(delta), 0)
  }

  /** One element of a delta replayed, behind what is replayed already. */
  lemma ReplayStep(hash: TextHash, prev: seq<InstructionPart>, left: History, delta: seq<InstructionPart>, n: nat,
                   named: set<string>, cursor: nat, out: seq<InstructionPart>)
    requires n < |delta|
    ensures var p := delta[n];
            out + Replay(hash, prev, left, delta[n..], named, cursor)
            == if IsKeep(p) then
                 var run := RunAt(prev, cursor, p.keep);
                 out + (if KeepOk(run, p.keep, named) then run else [KeepPart(p.keep, false)])
                 + Replay(hash, prev, left, delta[n + 1..], named, cursor + p.keep)
               else if p.id == "" then out + [KeepPart(p.keep, true)] + Replay(hash, prev, left, delta[n + 1..], named, cursor)
               else
                 out + [Named(hash, prev, left, p)]
                 + Replay(hash, prev, left, delta[n + 1..], named, if p.id in Places(prev) then Places(prev)[p.id] + 1 else cursor)
  {
    hide Named, Places, RunAt, KeepOk;
    assert delta[n..][0] == delta[n] && delta[n..][1..] == delta[n + 1..];
  }

  lemma ReplayDone(hash: TextHash, prev: seq<InstructionPart>, left: History, delta: seq<InstructionPart>, named: set<string>, cursor: nat)
    ensures Replay(hash, prev, left, delta[|delta|..], named, cursor) == []
  {}

  /** The replay as a loop, with its cursor. */
  method ApplyInstructionParts(hash: TextHash, prev: seq<InstructionPart>, delta: seq<InstructionPart>, left: History)
    returns (out: seq<InstructionPart>)
    ensures out == AppliedParts(hash, prev, delta, left)
  {
    hide Named, Places, RunAt, KeepOk, IdsOf, Replay;
    var at := Places(prev);
    var named := IdsOf(delta);
    out := [];
    var cursor: nat := 0;
    assert delta[0..] == delta;
    for n := 0 to |delta|
      invariant out + Replay(hash, prev, left, delta[n..], named, cursor) == AppliedParts(hash, prev, delta, left)
    {
      var p := delta[n];
      ReplayStep(hash, prev, left, delta, n, named, cursor, out);
      if IsKeep(p) {
        var run := RunAt(prev, cursor, p.keep);
        cursor := cursor + p.keep;
        out := out + if KeepOk(run, p.keep, named) then run else [KeepPart(p.keep, false)];
      } else if p.id == "" {
        out := out + [KeepPart(p.keep, true)];
      } else {
        if p.id in at {
          cursor := at[p.id] + 1;
        }
        out := out + [Named(hash, prev, left, p)];
      }
    }
    ReplayDone(hash, prev, left, delta, named, cursor);
  }

  // ----- the delta -----

  /** The part in force under p's id says what p says. */
  predicate Holds(q: InstructionPart, p: InstructionPart) {
    !Unresolved(q) && q.id == p.id && q.text == p.text && q.source == p.source && SameTrust(q.trust, p.trust)
  }

  /** How a part not in force as it is, is written: by its hash when that
      alone resolves to it, and by its text otherwise. */
  function Written(hash: TextHash, prev: seq<InstructionPart>, left: History, p: InstructionPart): InstructionPart {
    var at := Places(prev);
    var gone := p.id !in at || (!Unresolved(prev[at[p.id]]) && prev[at[p.id]].text != p.text);
    if gone && Has(hash, left, p) then HashPart(p.id, hash(p.text)) else TextPart(p.id, p.text, p.source, p.trust)
  }

  function Flush(run: nat): seq<InstructionPart> {
    if run > 0 then [KeepPart(run, false)] else []
  }

  /** A part in force but out of order is named by its hash alone. */
  function Head(hash: TextHash, prev: seq<InstructionPart>, left: History, p: InstructionPart): InstructionPart {
    if p.id in Places(prev) && Holds(prev[Places(prev)[p.id]], p) then HashPart(p.id, hash(p.text))
    else Written(hash, prev, left, p)
  }

  /** p is in force as it is, at the next place to keep. */
  predicate Kept(prev: seq<InstructionPart>, p: InstructionPart, next: nat) {
    var at := Places(prev);
    p.id in at && Holds(prev[at[p.id]], p) && at[p.id] == next
  }

  /** The cursor after an element with this id. */
  function After(prev: seq<InstructionPart>, id: string, cursor: nat): nat {
    if id in Places(prev) then Places(prev)[id] + 1 else cursor
  }

  /** The delta for the rest of the parts, with run parts from the cursor
      waiting to be kept. */
  function DeltaFrom(hash: TextHash, prev: seq<InstructionPart>, left: History, parts: seq<InstructionPart>,
                     cursor: nat, run: nat): seq<InstructionPart> {
    if parts == [] then Flush(run)
    else if Kept(prev, parts[0], cursor + run) then DeltaFrom(hash, prev, left, parts[1..], cursor, run + 1)
    else
      Flush(run) + ([Head(hash, prev, left, parts[0])]
        + DeltaFrom(hash, prev, left, parts[1..], After(prev, parts[0].id, cursor + run), 0))
  }

  /** Each part is in force, each where it stands. */
  predicate InForce(prev: seq<InstructionPart>, parts: seq<InstructionPart>) {
    |parts| == |prev| && forall i | 0 <= i < |parts| :: Kept(prev, parts[i], i)
  }

  datatype Delta = Unchanged | Cleared | Parts(parts: seq<InstructionPart>)

  function InstructionsDeltaOf(hash: TextHash, s: Settings, parts: seq<InstructionPart>): Delta {
    if parts == [] then (if s.parts == [] && s.instructions == "" then Unchanged else Cleared)
    else if InForce(s.parts, parts) then Unchanged
    else Parts(DeltaFrom(hash, s.parts, s.left, parts, 0, 0))
  }

  /** One part read, behind what is written already. */
  lemma DeltaStep(hash: TextHash, prev: seq<InstructionPart>, left: History, parts: seq<InstructionPart>, i: nat,
                  cursor: nat, run: nat, out: seq<InstructionPart>)
    requires i < |parts|
    ensures var p := parts[i];
            out + DeltaFrom(hash, prev, left, parts[i..], cursor, run)
            == if Kept(prev, p, cursor + run) then out + DeltaFrom(hash, prev, left, parts[i + 1..], cursor, run + 1)
               else
                 out + Flush(run) + [Head(hash, prev, left, p)]
                 + DeltaFrom(hash, prev, left, parts[i + 1..], After(prev, p.id, cursor + run), 0)
  {
    hide Kept, Head, After, Flush;
    assert parts[i..][0] == parts[i] && parts[i..][1..] == parts[i + 1..];
    var rest := DeltaFrom(hash, prev, left, parts[i + 1..], After(prev, parts[i].id, cursor + run), 0);
    assert out + (Flush(run) + ([Head(hash, prev, left, parts[i])] + rest)) == out + Flush(run) + [Head(hash, prev, left, parts[i])] + rest;
  }

  lemma DeltaDone(hash: TextHash, prev: seq<InstructionPart>, left: History, parts: seq<InstructionPart>, cursor: nat, run: nat)
    ensures DeltaFrom(hash, prev, left, parts[|parts|..], cursor, run) == Flush(run)
  {}

  /** What a part's place says of it. */
  lemma Looked(hash: TextHash, prev: seq<InstructionPart>, left: History, p: InstructionPart)
    ensures var at := Places(prev);
            var held := p.id in at && Holds(prev[at[p.id]], p);
            && (forall next :: Kept(prev, p, next) <==> held && at[p.id] == next)
            && Head(hash, prev, left, p) == (if held then HashPart(p.id, hash(p.text)) else Written(hash, prev, left, p))
            && (forall cursor :: After(prev, p.id, cursor) == if p.id in at then at[p.id] + 1 else cursor)
  {
    hide Places, Holds, Written;
  }

  method InstructionsDelta(hash: TextHash, s: Settings, parts: seq<InstructionPart>) returns (d: Delta)
    ensures d == InstructionsDeltaOf(hash, s, parts)
  {
    hide Places, Written, Holds, DeltaFrom, Flush, Kept, Head, After;
    if parts == [] {
      return if s.parts == [] && s.instructions == "" then Unchanged else Cleared;
    }
    var at := Places(s.parts);
    var same := |parts| == |s.parts|;
    var out: seq<InstructionPart> := [];
    var cursor: nat, run: nat := 0, 0;
    assert parts[0..] == parts;
    for i := 0 to |parts|
      invariant out + DeltaFrom(hash, s.parts, s.left, parts[i..], cursor, run) == DeltaFrom(hash, s.parts, s.left, parts, 0, 0)
      invariant same <==> |parts| == |s.parts| && forall k | 0 <= k < i :: Kept(s.parts, parts[k], k)
    {
      var p := parts[i];
      DeltaStep(hash, s.parts, s.left, parts, i, cursor, run, out);
      Looked(hash, s.parts, s.left, p);
      var held := p.id in at && Holds(s.parts[at[p.id]], p);
      same := same && held && at[p.id] == i;
      if held && at[p.id] == cursor + run {
        run := run + 1;
      } else {
        var w := if held then HashPart(p.id, hash(p.text)) else Written(hash, s.parts, s.left, p);
        out := out + Flush(run) + [w];
        cursor := if p.id in at then at[p.id] + 1 else cursor + run;
        run := 0;
      }
    }
    DeltaDone(hash, s.parts, s.left, parts, cursor, run);
    d := if same then Unchanged else Parts(out + Flush(run));
  }

  /** The instructions after a delta: parts in force, their string, and the
      parts that left. */
  function Applied(hash: TextHash, s: Settings, d: Delta): Settings {
    match d
    case Unchanged => s
    case Cleared => s.(instructions := "", parts := [], left := Leave(s.left, s.parts, []))
    case Parts(delta) =>
      var parts := AppliedParts(hash, s.parts, delta, s.left);
      s.(parts := parts, instructions := Join(parts), left := Leave(s.left, s.parts, parts))
  }

  // ----- diff then patch is the identity -----

  /** Parts a caller may ask for: each with an id, each named once. */
  ghost predicate PartsOk(parts: seq<InstructionPart>) {
    && (forall i | 0 <= i < |parts| :: parts[i].id != "")
    && (forall i, j | 0 <= i < j < |parts| :: parts[i].id != parts[j].id)
  }

  ghost predicate SameParts(now: seq<InstructionPart>, parts: seq<InstructionPart>) {
    |now| == |parts| && forall i | 0 <= i < |parts| :: Holds(now[i], parts[i])
  }

  lemma {:induction false} DeltaIds(hash: TextHash, prev: seq<InstructionPart>, left: History, parts: seq<InstructionPart>,
                                    cursor: nat, run: nat)
    ensures IdsOf(DeltaFrom(hash, prev, left, parts, cursor, run)) <= IdsOf(parts)
  {
    if parts != [] {
      hide Kept, Head, After, Places, IdsOf;
      var p := parts[0];
      IdsOfTail(parts);
      if Kept(prev, p, cursor + run) {
        DeltaIds(hash, prev, left, parts[1..], cursor, run + 1);
      } else {
        var w := Head(hash, prev, left, p);
        var next := After(prev, p.id, cursor + run);
        var rest := DeltaFrom(hash, prev, left, parts[1..], next, 0);
        DeltaIds(hash, prev, left, parts[1..], next, 0);
        HeadNames(hash, prev, left, p);
        IdsOfConcat(Flush(run), [w] + rest);
        IdsOfConcat([w], rest);
        FlushNamesNone(run, w);
      }
    }
  }

  lemma HeadNames(hash: TextHash, prev: seq<InstructionPart>, left: History, p: InstructionPart)
    ensures Head(hash, prev, left, p).id == p.id
  {}

  lemma IdsOfTail(ps: seq<InstructionPart>)
    requires ps != []
    ensures IdsOf(ps) == IdsOf(ps[1..]) + if ps[0].id != "" then {ps[0].id} else {}
  {
    assert ps == [ps[0]] + ps[1..];
    IdsOfConcat([ps[0]], ps[1..]);
    assert IdsOf([ps[0]]) == if ps[0].id != "" then {ps[0].id} else {};
  }

  lemma IdsOfConcat(a: seq<InstructionPart>, b: seq<InstructionPart>)
    ensures IdsOf(a + b) == IdsOf(a) + IdsOf(b)
  {
    forall id | id in IdsOf(a) ensures id in IdsOf(a + b) {
      var i :| 0 <= i < |a| && a[i].id == id;
      assert (a + b)[i].id == id;
    }
    forall id | id in IdsOf(b) ensures id in IdsOf(a + b) {
      var i :| 0 <= i < |b| && b[i].id == id;
      assert (a + b)[|a| + i].id == id;
    }
  }

  lemma FlushReplays(hash: TextHash, prev: seq<InstructionPart>, left: History, run: nat, rest: seq<InstructionPart>,
                     named: set<string>, cursor: nat)
    requires cursor + run <= |prev| && forall k | cursor <= k < cursor + run :: prev[k].id !in named
    ensures Replay(hash, prev, left, Flush(run) + rest, named, cursor)
         == prev[cursor..cursor + run] + Replay(hash, prev, left, rest, named, cursor + run)
  {
    if run > 0 {
      assert (Flush(run) + rest)[1..] == rest;
      assert RunAt(prev, cursor, run) == prev[cursor..cursor + run];
      assert KeepOk(prev[cursor..cursor + run], run, named);
    } else {
      assert Flush(run) + rest == rest;
    }
  }

  lemma HashReplays(hash: TextHash, prev: seq<InstructionPart>, left: History, p: InstructionPart)
    requires HashOk(hash) && p.id in Places(prev) && Holds(prev[Places(prev)[p.id]], p)
    ensures Holds(Named(hash, prev, left, HashPart(p.id, hash(p.text))), p)
  {}

  lemma WrittenReplays(hash: TextHash, prev: seq<InstructionPart>, left: History, p: InstructionPart)
    requires HashOk(hash) && HistoryOk(left) && p.id != ""
    requires !(p.id in Places(prev) && Holds(prev[Places(prev)[p.id]], p))
    ensures Holds(Named(hash, prev, left, Written(hash, prev, left, p)), p)
    ensures Written(hash, prev, left, p).id == p.id
  {
    FindOk(hash, left, p.id, hash(p.text));
  }

  /** An element that names p, and what follows it. */
  lemma NamedReplays(hash: TextHash, prev: seq<InstructionPart>, left: History, w: InstructionPart, rest: seq<InstructionPart>,
                     named: set<string>, cursor: nat)
    requires w.id != ""
    ensures Replay(hash, prev, left, [w] + rest, named, cursor)
         == [Named(hash, prev, left, w)]
            + Replay(hash, prev, left, rest, named, After(prev, w.id, cursor))
  {
    assert ([w] + rest)[1..] == rest;
  }

  /** What the replay of the rest of a delta owes: the parts waiting to be
      kept, and then the parts asked for. */
  ghost predicate Replayed(out: seq<InstructionPart>, waiting: seq<InstructionPart>, parts: seq<InstructionPart>) {
    && |out| == |waiting| + |parts| && out[..|waiting|] == waiting
    && forall i | 0 <= i < |parts| :: Holds(out[|waiting| + i], parts[i])
  }

  lemma ReplayedKept(out: seq<InstructionPart>, waiting: seq<InstructionPart>, q: InstructionPart, parts: seq<InstructionPart>)
    requires parts != [] && Holds(q, parts[0]) && Replayed(out, waiting + [q], parts[1..])
    ensures Replayed(out, waiting, parts)
  {
    hide Holds;
    var n := |waiting|;
    assert out[..n] == out[..n + 1][..n] == waiting;
    assert out[n] == out[..n + 1][n] == q;
    forall i | 0 <= i < |parts| ensures Holds(out[n + i], parts[i]) {
      if i > 0 {
        assert Holds(out[n + 1 + (i - 1)], parts[1..][i - 1]);
      }
    }
  }

  lemma ReplayedNamed(waiting: seq<InstructionPart>, x: InstructionPart, rest: seq<InstructionPart>, parts: seq<InstructionPart>)
    requires parts != [] && Holds(x, parts[0]) && Replayed(rest, [], parts[1..])
    ensures Replayed(waiting + ([x] + rest), waiting, parts)
  {
    hide Holds;
    var out := waiting + ([x] + rest);
    forall i | 0 <= i < |parts| ensures Holds(out[|waiting| + i], parts[i]) {
      if i > 0 {
        assert Holds(rest[0 + (i - 1)], parts[1..][i - 1]);
      }
    }
  }

  lemma HeadReplays(hash: TextHash, prev: seq<InstructionPart>, left: History, p: InstructionPart)
    requires HashOk(hash) && HistoryOk(left) && p.id != ""
    ensures Holds(Named(hash, prev, left, Head(hash, prev, left, p)), p) && Head(hash, prev, left, p).id == p.id
  {
    if p.id in Places(prev) && Holds(prev[Places(prev)[p.id]], p) {
      HashReplays(hash, prev, left, p);
    } else {
      WrittenReplays(hash, prev, left, p);
    }
  }

  lemma {:induction false} DeltaReplays(hash: TextHash, prev: seq<InstructionPart>, left: History, parts: seq<InstructionPart>,
                                        cursor: nat, run: nat, named: set<string>)
    requires HashOk(hash) && HistoryOk(left) && PartsOk(parts)
    requires cursor + run <= |prev| && forall k | cursor <= k < cursor + run :: prev[k].id !in named
    requires forall i | 0 <= i < |parts| && parts[i].id in named ::
               parts[i].id in IdsOf(DeltaFrom(hash, prev, left, parts, cursor, run))
    ensures Replayed(Replay(hash, prev, left, DeltaFrom(hash, prev, left, parts, cursor, run), named, cursor),
                     prev[cursor..cursor + run], parts)
    decreases |parts|
  {
    hide Holds, Named, Places, IdsOf, Replay, Replayed, Head, Kept, After;
    var d := DeltaFrom(hash, prev, left, parts, cursor, run);
    var waiting := prev[cursor..cursor + run];
    if parts == [] {
      assert d == Flush(run) + [];
      FlushReplays(hash, prev, left, run, [], named, cursor);
      ReplayNothing(hash, prev, left, named, cursor + run);
      ReplayedNothing(waiting);
    } else {
      var p := parts[0];
      TailOk(parts);
      AfterWithin(prev, p.id, cursor + run);
      if Kept(prev, p, cursor + run) {
        DeltaIds(hash, prev, left, parts[1..], cursor, run + 1);
        KeptHolds(prev, p, cursor + run);
        DeltaReplays(hash, prev, left, parts[1..], cursor, run + 1, named);
        assert prev[cursor..cursor + (run + 1)] == waiting + [prev[cursor + run]];
        ReplayedKept(Replay(hash, prev, left, d, named, cursor), waiting, prev[cursor + run], parts);
      } else {
        var w := Head(hash, prev, left, p);
        var next := After(prev, p.id, cursor + run);
        var rest := DeltaFrom(hash, prev, left, parts[1..], next, 0);
        HeadReplays(hash, prev, left, p);
        IdsOfConcat(Flush(run), [w] + rest);
        IdsOfConcat([w], rest);
        FlushNamesNone(run, w);
        FlushReplays(hash, prev, left, run, [w] + rest, named, cursor);
        NamedReplays(hash, prev, left, w, rest, named, cursor + run);
        DeltaReplays(hash, prev, left, parts[1..], next, 0, named);
        assert prev[next..next + 0] == [];
        ReplayedNamed(waiting, Named(hash, prev, left, w), Replay(hash, prev, left, rest, named, next), parts);
      }
    }
  }

  lemma KeptHolds(prev: seq<InstructionPart>, p: InstructionPart, next: nat)
    requires Kept(prev, p, next)
    ensures next < |prev| && Holds(prev[next], p) && prev[next].id == p.id
  {}

  lemma AfterWithin(prev: seq<InstructionPart>, id: string, cursor: nat)
    requires cursor <= |prev|
    ensures After(prev, id, cursor) <= |prev|
  {}

  lemma ReplayedNothing(waiting: seq<InstructionPart>)
    ensures Replayed(waiting + [], waiting, [])
  {}

  lemma ReplayNothing(hash: TextHash, prev: seq<InstructionPart>, left: History, named: set<string>, cursor: nat)
    ensures Replay(hash, prev, left, [], named, cursor) == []
  {}

  lemma FlushNamesNone(run: nat, w: InstructionPart)
    ensures IdsOf(Flush(run)) == {}
    ensures IdsOf([w]) == if w.id != "" then {w.id} else {}
  {
    assert [w][0] == w;
  }

  lemma TailOk(parts: seq<InstructionPart>)
    requires PartsOk(parts) && parts != []
    ensures PartsOk(parts[1..]) && parts[0].id !in IdsOf(parts[1..]) && parts[0].id != ""
    ensures forall i | 0 <= i < |parts[1..]| :: parts[1..][i] == parts[i + 1] && parts[i + 1].id != parts[0].id
  {}

  lemma {:induction false} JoinSame(now: seq<InstructionPart>, parts: seq<InstructionPart>)
    requires SameParts(now, parts)
    ensures Join(now) == Join(parts)
  {
    if |now| > 1 {
      JoinSame(now[1..], parts[1..]);
    }
  }

  /** Resolved parts in force compose the instructions in force. */
  ghost predicate Joined(s: Settings) {
    (forall i | 0 <= i < |s.parts| :: !Unresolved(s.parts[i])) && s.parts != [] ==> s.instructions == Join(s.parts)
  }

  /** Whatever is in force and whatever left it: the delta to parts puts
      exactly parts in force, with the instructions their join, and no delta
      means they were in force already. */
  lemma DiffThenPatch(hash: TextHash, s: Settings, parts: seq<InstructionPart>)
    requires HashOk(hash) && HistoryOk(s.left) && Joined(s) && PartsOk(parts)
    ensures var now := Applied(hash, s, InstructionsDeltaOf(hash, s, parts));
            SameParts(now.parts, parts) && now.instructions == Join(parts)
    ensures InstructionsDeltaOf(hash, s, parts).Unchanged? ==> SameParts(s.parts, parts)
    ensures var now := Applied(hash, s, InstructionsDeltaOf(hash, s, parts)); HistoryOk(now.left) && Joined(now)
  {
    hide Holds, Leave;
    var d := InstructionsDeltaOf(hash, s, parts);
    LeaveOk(s.left, s.parts, []);
    match d
    case Unchanged =>
      JoinSame(s.parts, parts);
      assert forall i | 0 <= i < |parts| :: Holds(s.parts[i], parts[i]);
      HoldsResolved(s.parts, parts);
    case Cleared =>
    case Parts(delta) =>
      PartsPatch(hash, s, parts);
  }

  lemma PartsPatch(hash: TextHash, s: Settings, parts: seq<InstructionPart>)
    requires HashOk(hash) && HistoryOk(s.left) && Joined(s) && PartsOk(parts)
    requires InstructionsDeltaOf(hash, s, parts).Parts?
    ensures var now := Applied(hash, s, InstructionsDeltaOf(hash, s, parts));
            SameParts(now.parts, parts) && now.instructions == Join(parts) && HistoryOk(now.left) && Joined(now)
  {
    hide Holds, Leave, Replay, Join, DeltaFrom;
    var delta := InstructionsDeltaOf(hash, s, parts).parts;
    DeltaReplays(hash, s.parts, s.left, parts, 0, 0, IdsOf(delta));
    var now := AppliedParts(hash, s.parts, delta, s.left);
    assert SameParts(now, parts);
    JoinSame(now, parts);
    LeaveOk(s.left, s.parts, now);
  }

  lemma HoldsResolved(now: seq<InstructionPart>, parts: seq<InstructionPart>)
    requires SameParts(now, parts)
    ensures forall i | 0 <= i < |now| :: !Unresolved(now[i])
  {}
}

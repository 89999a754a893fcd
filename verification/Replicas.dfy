/** The stores that hold one session, over whole runs: every write, exchange,
    handover, deletion and crash, each commit one atomic step. */
module Replicas {
  import opened Entries
  import opened Tree
  import opened CallRules
  import opened Exchange

  type Place = nat

  /** One handover, of what its sender held when it read the session. */
  datatype Handover = Handover(from: Place, to: Place, closure: Copy, options: Options)

  /** Handovers under way, any number at once: sent ones have not reached
      their receivers; of owed ones the receivers are the record and the
      senders' marks still to clear. seen holds every copy any store ever
      held: a sender's lock is let go before the receiver's is taken, so what
      arrives may be stale. */
  datatype World = World(copies: map<Place, Copy>, sent: map<nat, Handover>, owed: map<nat, Handover>, seen: set<Copy>)

  /** HandOver is the older protocol's first call, which makes the sender a
      mirror; its second is the receiver's Declare. Lost ends a handover short
      of its sender's clear. */
  datatype Step =
    | Write(at: Place, e: Entry, head: Id)
    | MoveHead(at: Place, head: Id)
    | Declare(at: Place)
    | HandOver(at: Place, head: Id)
    | Delete(at: Place)
    | Send(to: Place, closure: Copy, options: Options)
    | Begin(n: nat, from: Place, to: Place, options: Options)
    | Deliver(n: nat)
    | Clear(n: nat)
    | Lost(n: nat)

  function At(w: World, i: Place): Option<Copy> {
    if i in w.copies then Some(w.copies[i]) else None
  }

  function Put(w: World, i: Place, c: Option<Copy>): World {
    match c
    case None => w
    case Some(c) => w.(copies := w.copies[i := c], seen := w.seen + {c})
  }

  /** A record's writers append what fits its copy; ids are hashes, so no entry
      written anywhere has another's. */
  ghost predicate MayWrite(w: World, c: Copy, e: Entry, head: Id) {
    && c.mark == Record && head in {c.head, e.id}
    && Fits(c.header.id, c.All(), e) && HangsFrom(c.header.base, Ids(c.own), e.parent)
    && IdsUnique(c.All() + [e])
    && forall d, x | d in w.seen && x in d.All() && x.id == e.id :: x == e
  }

  ghost predicate Allowed(w: World, s: Step) {
    match s
    case Write(at, e, head) => at in w.copies && MayWrite(w, w.copies[at], e, head)
    case MoveHead(at, head) => at in w.copies && w.copies[at].mark == Record
    case Declare(at) => at in w.copies
    case HandOver(at, head) => at in w.copies && w.copies[at].mark == Record && w.copies[at].head == head
    case Delete(at) => at in w.copies
    case Send(to, closure, o) => closure in w.seen && !o.handover
    case Begin(n, from, to, o) =>
      n !in w.sent && n !in w.owed && from != to && from in w.copies && w.copies[from].mark == Record && o.push && o.handover
    case Deliver(n) => n in w.sent
    case Clear(n) => n in w.owed && w.owed[n].from in w.copies
    case Lost(n) => true
  }

  ghost function Next(w: World, s: Step): World
    requires Allowed(w, s)
  {
    match s
    case Write(at, e, head) =>
      var c := w.copies[at];
      Put(w, at, Some(c.(own := c.own + [e], head := head)))
    case MoveHead(at, head) => Put(w, at, Some(w.copies[at].(head := head)))
    case Declare(at) => Put(w, at, Some(w.copies[at].(mark := Record)))
    case HandOver(at, head) => Put(w, at, Some(w.copies[at].(mark := Mirror)))
    case Delete(at) => w.(copies := w.copies - {at})
    case Send(to, closure, o) => Put(w, to, Received(At(w, to), closure, o).0)
    case Begin(n, from, to, o) => w.(sent := w.sent[n := Handover(from, to, w.copies[from], o)])
    case Deliver(n) =>
      var h := w.sent[n];
      Put(w, h.to, Received(At(w, h.to), h.closure, h.options).0).(
        sent := w.sent - {n},
        owed := if Accepted(w, n) then w.owed[n := h] else w.owed)
    case Clear(n) =>
      var at := w.owed[n].from;
      Put(w, at, Some(w.copies[at].(mark := Mirror))).(owed := w.owed - {n})
    case Lost(n) => w.(sent := w.sent - {n}, owed := w.owed - {n})
  }

  /** The receiver takes handover n, in whole. */
  ghost predicate Accepted(w: World, n: nat)
    requires n in w.sent
  {
    Received(At(w, w.sent[n].to), w.sent[n].closure, w.sent[n].options).1.Done?
  }

  // ----- what every step keeps -----

  ghost predicate Sound(c: Copy) {
    Wf(c.header.id, c.All()) && Ordered(c.header.base, c.own) && IdsUnique(c.All())
  }

  ghost predicate Kin(c: Copy, d: Copy) {
    c.header == d.header && c.prefix == d.prefix && Agree(c.All(), d.All())
  }

  ghost predicate SomeRecord(w: World) {
    exists i :: i in w.copies && w.copies[i].mark == Record
  }

  ghost predicate CopiesSound(w: World) {
    && (forall i | i in w.copies :: w.copies[i] in w.seen)
    && (forall c | c in w.seen :: Sound(c))
    && (forall c, d | c in w.seen && d in w.seen :: Kin(c, d))
    && (forall n | n in w.sent :: w.sent[n].closure in w.seen)
  }

  ghost predicate HandoversRight(w: World) {
    && (forall n | n in w.sent :: w.sent[n].from != w.sent[n].to && w.sent[n].options.handover)
    && (forall n | n in w.owed :: n !in w.sent && w.owed[n].from != w.owed[n].to)
  }

  ghost predicate Start(w: World) {
    exists i, c :: w == World(map[i := c], map[], map[], {c}) && Sound(c) && c.mark == Record
  }

  lemma StartHolds(w: World)
    requires Start(w)
    ensures Safe(w) && CopiesSound(w) && HandoversRight(w)
  {
    hide Ordered, IdsUnique, Fits;
    var i, c :| w == World(map[i := c], map[], map[], {c}) && Sound(c) && c.mark == Record;
    assert SafeAt(w, i);
    WfUnique(c.header.id, c.All());
  }

  /** A copy made of kin's entries is kin to all of them. */
  lemma KinOf(seen: set<Copy>, c: Copy, a: Copy, b: Copy)
    requires a in seen && b in seen && forall x, y | x in seen && y in seen :: Kin(x, y)
    requires c.header == a.header && c.prefix == a.prefix
    requires forall e | e in c.All() :: e in a.All() || e in b.All()
    ensures forall d | d in seen :: Kin(c, d) && Kin(d, c)
    ensures Kin(c, c)
  {
    forall d | d in seen ensures Kin(c, d) && Kin(d, c) {
      assert Kin(a, d) && Kin(b, d);
    }
    assert Kin(a, a) && Kin(b, b) && Kin(a, b) && Kin(b, a);
  }

  /** What a receive leaves is sound and kin to every copy seen. */
  lemma ReceiveSound(seen: set<Copy>, held: Option<Copy>, b: Copy, o: Options)
    requires b in seen && (held.Some? ==> held.value in seen)
    requires forall c | c in seen :: Sound(c)
    requires forall c, d | c in seen && d in seen :: Kin(c, d)
    ensures var c := Received(held, b, o).0;
            c.Some? ==> Sound(c.value) && Kin(c.value, c.value) && forall d | d in seen :: Kin(c.value, d) && Kin(d, c.value)
  {
    hide Wf, Ordered, IdsUnique, Reaches, Meeting, Lacking;
    var c := Received(held, b, o).0;
    if held.None? {
      if c.Some? {
        assert c.value.All() == b.All();
        KinOf(seen, c.value, b, b);
      }
    } else {
      var h := held.value;
      assert Kin(h, b) && Kin(b, b);
      assert forall e | e in h.own :: e in h.All();
      assert forall e | e in b.own :: e in b.All();
      MergeIsUnion(h, b, o);
      MergeKeepsUnique(h, b, o);
      MergeKeepsTree(h, b, o);
      forall e | e in c.value.All() ensures e in h.All() || e in b.All() {
        if e in c.value.own {
          assert e in Held(c.value.own) <==> e in Held(h.own) + Held(b.own) || c.value == h;
        }
      }
      KinOf(seen, c.value, h, b);
    }
  }

  lemma WriteSound(w: World, c: Copy, e: Entry, head: Id)
    requires CopiesSound(w) && c in w.seen && MayWrite(w, c, e, head)
    ensures var c' := c.(own := c.own + [e], head := head);
            Sound(c') && Kin(c', c') && forall d | d in w.seen :: Kin(c', d) && Kin(d, c')
  {
    hide Wf, Ordered, IdsUnique, Fits, HangsFrom;
    var c' := c.(own := c.own + [e], head := head);
    assert c'.All() == c.All() + [e];
    WfSnoc(c.header.id, c.All(), e);
    OrderedSnoc(c.header.base, c.own, e);
    forall d | d in w.seen ensures Kin(c', d) && Kin(d, c') {
      assert Kin(c, d) && Kin(d, c);
    }
    assert Kin(c, c);
  }

  lemma PutSound(w: World, i: Place, c: Copy)
    requires CopiesSound(w)
    requires Sound(c) && Kin(c, c) && forall d | d in w.seen :: Kin(c, d) && Kin(d, c)
    ensures CopiesSound(Put(w, i, Some(c)))
  {
    hide Sound, Kin;
  }

  /** A copy with another head or mark is as sound. */
  lemma Remarked(w: World, c: Copy, head: Id, mark: Mark)
    requires CopiesSound(w) && c in w.seen
    ensures var c' := c.(head := head, mark := mark);
            Sound(c') && Kin(c', c') && forall d | d in w.seen :: Kin(c', d) && Kin(d, c')
  {
    hide Wf, Ordered, IdsUnique;
    var c' := c.(head := head, mark := mark);
    assert c'.All() == c.All();
    forall d | d in w.seen ensures Kin(c', d) && Kin(d, c') {
      assert Kin(c, d) && Kin(d, c);
    }
    assert Kin(c, c);
  }

  /** Every copy any store ever holds is one tree in file order through its
      base, with unique call ids and spawn ids. */
  lemma StepSound(w: World, s: Step)
    requires CopiesSound(w) && Allowed(w, s)
    ensures CopiesSound(Next(w, s))
  {
    hide Sound, Kin, Received, MayWrite;
    match s
    case Write(at, e, head) =>
      WriteSound(w, w.copies[at], e, head);
      PutSound(w, at, w.copies[at].(own := w.copies[at].own + [e], head := head));
    case MoveHead(at, head) =>
      var c := w.copies[at];
      Remarked(w, c, head, c.mark);
      PutSound(w, at, c.(head := head));
    case Declare(at) =>
      var c := w.copies[at];
      Remarked(w, c, c.head, Record);
      PutSound(w, at, c.(mark := Record));
    case HandOver(at, head) =>
      var c := w.copies[at];
      Remarked(w, c, c.head, Mirror);
      PutSound(w, at, c.(mark := Mirror));
    case Send(to, closure, o) =>
      ReceiveSound(w.seen, At(w, to), closure, o);
      if Received(At(w, to), closure, o).0.Some? {
        PutSound(w, to, Received(At(w, to), closure, o).0.value);
      }
    case Deliver(n) =>
      var h := w.sent[n];
      ReceiveSound(w.seen, At(w, h.to), h.closure, h.options);
      if Received(At(w, h.to), h.closure, h.options).0.Some? {
        PutSound(w, h.to, Received(At(w, h.to), h.closure, h.options).0.value);
      }
    case Clear(n) =>
      var c := w.copies[w.owed[n].from];
      Remarked(w, c, c.head, Mirror);
      PutSound(w, w.owed[n].from, c.(mark := Mirror));
    case _ =>
  }

  lemma StepHandovers(w: World, s: Step)
    requires HandoversRight(w) && Allowed(w, s)
    ensures HandoversRight(Next(w, s))
  {
    hide Received, MayWrite;
  }

  /** What a receive does to marks, whether the receiver held a copy or not. */
  lemma ReceiveMarks(held: Option<Copy>, b: Copy, o: Options)
    ensures var (c, a) := Received(held, b, o);
            && (held.Some? ==> c.Some? && (held.value.mark == Record ==> c.value.mark == Record))
            && (o.handover && a.Done? ==> c.Some? && c.value.mark == Record && c.value.head == b.head)
            && (held.Some? && !(o.handover && a.Done?) ==> c.value.mark == held.value.mark)
            && (held.None? && c.Some? ==> (c.value.mark == Record <==> o.handover && a.Done?))
  {
    hide Reaches, Meeting, Lacking;
    if held.Some? {
      HeadsMoveRight(held.value, b, o);
    }
  }

  // ----- some store is the record -----

  ghost predicate Owes(w: World, i: Place) {
    exists n :: n in w.owed && w.owed[n].from == i
  }

  /** A record that owes no clear stays the record whatever handovers end. */
  ghost predicate SafeAt(w: World, i: Place) {
    i in w.copies && w.copies[i].mark == Record && !Owes(w, i)
  }

  ghost predicate Safe(w: World) {
    exists i :: SafeAt(w, i)
  }

  ghost predicate SafeElsewhere(w: World, i: Place) {
    exists j :: j != i && SafeAt(w, j)
  }

  /** What a step must not do: hand to a store that itself owes a clear, give
      the mark up or delete the copy, with no other safe record. */
  ghost predicate Guarded(w: World, s: Step)
    requires Allowed(w, s)
  {
    match s
    case Deliver(n) => Accepted(w, n) && Owes(w, w.sent[n].to) ==> SafeElsewhere(w, w.sent[n].from)
    case HandOver(at, _) => SafeElsewhere(w, at)
    case Delete(at) => SafeElsewhere(w, at)
    case _ => true
  }

  /** A step that takes the mark from i. */
  ghost predicate Unmarks(w: World, s: Step, i: Place)
    requires Allowed(w, s)
  {
    match s
    case HandOver(at, _) => at == i
    case Delete(at) => at == i
    case Clear(n) => w.owed[n].from == i
    case _ => false
  }

  ghost predicate Accepts(w: World, s: Step)
    requires Allowed(w, s)
  {
    s.Deliver? && Accepted(w, s.n)
  }

  ghost predicate IsRecord(w: World, i: Place) {
    i in w.copies && w.copies[i].mark == Record
  }

  /** Marks change as declared, handed over and cleared, and no other way. */
  lemma StepMarks(w: World, s: Step, i: Place)
    requires HandoversRight(w) && Allowed(w, s)
    ensures IsRecord(Next(w, s), i) <==>
              (IsRecord(w, i) && !Unmarks(w, s, i)) || s == Declare(i) || (Accepts(w, s) && w.sent[s.n].to == i)
    ensures Accepts(w, s) ==> var to := w.sent[s.n].to; to in Next(w, s).copies && Next(w, s).copies[to].head == w.sent[s.n].closure.head
  {
    hide Received, MayWrite;
    match s
    case Send(to, closure, o) => ReceiveMarks(At(w, to), closure, o);
    case Deliver(n) =>
      var h := w.sent[n];
      ReceiveMarks(At(w, h.to), h.closure, h.options);
    case _ =>
  }

  lemma StepOwes(w: World, s: Step, i: Place)
    requires HandoversRight(w) && Allowed(w, s)
    ensures Owes(Next(w, s), i) ==> Owes(w, i) || (Accepts(w, s) && w.sent[s.n].from == i)
    ensures Owes(w, i) && !s.Clear? && !s.Lost? ==> Owes(Next(w, s), i)
    ensures Accepts(w, s) ==> Owes(Next(w, s), w.sent[s.n].from)
  {
    hide Received, MayWrite;
    var w' := Next(w, s);
    if Owes(w', i) {
      var n :| n in w'.owed && w'.owed[n].from == i;
      assert n in w.owed || Accepts(w, s);
    }
    if Owes(w, i) && !s.Clear? && !s.Lost? {
      var n :| n in w.owed && w.owed[n].from == i;
      assert n in w'.owed;
    }
    if Accepts(w, s) {
      assert s.n in w'.owed;
    }
  }

  /** A step leaves a safe record exactly when it is guarded. */
  lemma StepSafe(w: World, s: Step)
    requires Safe(w) && HandoversRight(w) && Allowed(w, s)
    ensures Safe(Next(w, s)) <==> Guarded(w, s)
  {
    hide Next, MayWrite, Owes, Accepted;
    if Guarded(w, s) {
      var j := SafeAfter(w, s);
      StepMarks(w, s, j);
      StepOwes(w, s, j);
      assert SafeAt(Next(w, s), j);
    } else {
      if Accepts(w, s) {
        StepOwes(w, s, w.sent[s.n].from);
        StepOwes(w, s, w.sent[s.n].to);
      }
      forall j ensures !SafeAt(Next(w, s), j) {
        StepMarks(w, s, j);
        StepOwes(w, s, j);
        assert SafeAt(w, j) ==> s.Deliver? || s.HandOver? || s.Delete?;
      }
    }
  }

  /** The record a guarded step leaves safe. */
  lemma SafeAfter(w: World, s: Step) returns (j: Place)
    requires Safe(w) && HandoversRight(w) && Allowed(w, s) && Guarded(w, s)
    ensures if SafeAt(w, j) then !Unmarks(w, s, j) && (Accepts(w, s) ==> w.sent[s.n].from != j)
            else Accepts(w, s) && j == w.sent[s.n].to != w.sent[s.n].from && !Owes(w, j)
  {
    hide Next, MayWrite, Accepted;
    if Accepts(w, s) {
      var h := w.sent[s.n];
      if !Owes(w, h.to) {
        return h.to;
      }
      j :| j != h.from && SafeAt(w, j);
    } else if s.HandOver? || s.Delete? {
      j :| j != s.at && SafeAt(w, j);
    } else {
      j :| SafeAt(w, j);
    }
  }

  // ----- runs -----

  ghost predicate Steps(ws: seq<World>, ss: seq<Step>) {
    && |ws| == |ss| + 1
    && forall t | 0 <= t < |ss| :: Allowed(ws[t], ss[t]) && ws[t + 1] == Next(ws[t], ss[t])
  }

  ghost predicate IsRun(ws: seq<World>, ss: seq<Step>) {
    Steps(ws, ss) && Start(ws[0])
  }

  lemma {:induction false} RunIsSound(ws: seq<World>, ss: seq<Step>, t: nat)
    requires IsRun(ws, ss) && t < |ws|
    ensures CopiesSound(ws[t]) && HandoversRight(ws[t])
  {
    hide CopiesSound, HandoversRight, Allowed, Next, Start, Safe;
    if t == 0 {
      StartHolds(ws[0]);
    } else {
      RunIsSound(ws, ss, t - 1);
      StepSound(ws[t - 1], ss[t - 1]);
      StepHandovers(ws[t - 1], ss[t - 1]);
    }
  }

  /** A run keeps a safe record at every time exactly when every step is
      guarded, whatever is lost, crashes or arrives stale. */
  lemma RunIsSafe(ws: seq<World>, ss: seq<Step>)
    requires IsRun(ws, ss)
    ensures (forall t | 0 <= t < |ws| :: Safe(ws[t])) <==> forall t | 0 <= t < |ss| :: Guarded(ws[t], ss[t])
  {
    hide CopiesSound, HandoversRight, Allowed, Next, Start, Safe, Guarded;
    if forall t | 0 <= t < |ss| :: Guarded(ws[t], ss[t]) {
      forall t: nat | t < |ws| ensures Safe(ws[t]) {
        SafeSoFar(ws, ss, t);
      }
    }
    if forall t | 0 <= t < |ws| :: Safe(ws[t]) {
      forall t | 0 <= t < |ss| ensures Guarded(ws[t], ss[t]) {
        RunIsSound(ws, ss, t);
        assert Safe(ws[t]) && Safe(ws[t + 1]);
        StepSafe(ws[t], ss[t]);
      }
    }
  }

  lemma {:induction false} SafeSoFar(ws: seq<World>, ss: seq<Step>, t: nat)
    requires IsRun(ws, ss) && t < |ws| && forall u | 0 <= u < t :: Guarded(ws[u], ss[u])
    ensures Safe(ws[t])
  {
    hide CopiesSound, HandoversRight, Allowed, Next, Start, Safe, Guarded;
    if t == 0 {
      StartHolds(ws[0]);
    } else {
      SafeSoFar(ws, ss, t - 1);
      RunIsSound(ws, ss, t - 1);
      StepSafe(ws[t - 1], ss[t - 1]);
    }
  }

  /** A clear leaves no record safe where none was. */
  lemma ClearUnsafe(w: World, n: nat)
    requires !Safe(w) && HandoversRight(w) && Allowed(w, Clear(n))
    ensures !Safe(Next(w, Clear(n))) && HandoversRight(Next(w, Clear(n)))
    ensures |Next(w, Clear(n)).owed| < |w.owed|
  {
    var w' := Next(w, Clear(n));
    assert w'.owed.Keys == w.owed.Keys - {n};
    forall j ensures !SafeAt(w', j) {
      if IsRecord(w', j) {
        assert !SafeAt(w, j);
        var m :| m in w.owed && w.owed[m].from == j;
        assert m in w'.owed;
      }
    }
  }

  lemma StepsFrom(w: World, s: Step, ws: seq<World>, ss: seq<Step>)
    requires Allowed(w, s) && Steps(ws, ss) && ws[0] == Next(w, s)
    ensures Steps([w] + ws, [s] + ss)
  {
    hide Allowed, Next;
    var (all, steps) := ([w] + ws, [s] + ss);
    forall t | 0 <= t < |steps| ensures Allowed(all[t], steps[t]) && all[t + 1] == Next(all[t], steps[t]) {
      if t > 0 {
        assert all[t] == ws[t - 1] && steps[t] == ss[t - 1] && all[t + 1] == ws[t];
      }
    }
  }

  /** Without a safe record, the clears still to come leave no record at all:
      the guard asks for no more than is needed. */
  lemma {:induction false} UnsafeLosesRecord(w: World) returns (ws: seq<World>, ss: seq<Step>)
    requires !Safe(w) && HandoversRight(w)
    ensures Steps(ws, ss) && ws[0] == w && (forall s | s in ss :: s.Clear?)
    ensures !SomeRecord(ws[|ws| - 1])
    decreases |w.owed|
  {
    if !SomeRecord(w) {
      return [w], [];
    }
    var i :| i in w.copies && w.copies[i].mark == Record;
    assert !SafeAt(w, i);
    var n :| n in w.owed && w.owed[n].from == i;
    assert Allowed(w, Clear(n));
    hide Next, Allowed, HandoversRight, Safe, SomeRecord;
    ClearUnsafe(w, n);
    var more, rest := UnsafeLosesRecord(Next(w, Clear(n)));
    StepsFrom(w, Clear(n), more, rest);
    ws, ss := [w] + more, [Clear(n)] + rest;
    assert ws[|ws| - 1] == more[|more| - 1];
  }

  /** The step at which a receiver became the record at the sent head. */
  ghost predicate HandedAt(ws: seq<World>, ss: seq<Step>, s: nat, n: nat, h: Handover)
    requires |ws| == |ss| + 1 && s < |ss|
  {
    && ss[s] == Deliver(n) && n in ws[s].sent && ws[s].sent[n] == h
    && IsRecord(ws[s + 1], h.to) && ws[s + 1].copies[h.to].head == h.closure.head
  }

  /** Store i is the record from time s to t, or gave the mark up itself. */
  ghost predicate RecordThrough(ws: seq<World>, ss: seq<Step>, i: Place, s: nat, t: nat)
    requires Steps(ws, ss) && s <= t < |ws|
  {
    IsRecord(ws[t], i) || exists u :: s <= u < t && Unmarks(ws[u], ss[u], i)
  }

  /** A sender owes a clear only once its receiver, at the sent head, was
      durably the record, and while it still is or until it handed on itself. */
  lemma {:induction false} ClearedAfterHanded(ws: seq<World>, ss: seq<Step>, t: nat, n: nat) returns (s: nat)
    requires IsRun(ws, ss) && t < |ws| && n in ws[t].owed
    ensures s < t && HandedAt(ws, ss, s, n, ws[t].owed[n])
    ensures RecordThrough(ws, ss, ws[t].owed[n].to, s + 1, t)
  {
    hide CopiesSound, Start, Next, Allowed, Unmarks, IsRecord, Accepted;
    StartIdle(ws[0]);
    RunIsSound(ws, ss, t - 1);
    var (w, step, h) := (ws[t - 1], ss[t - 1], ws[t].owed[n]);
    StepHanding(w, step, n);
    StepMarks(w, step, h.to);
    if step == Deliver(n) {
      s := t - 1;
    } else {
      s := ClearedAfterHanded(ws, ss, t - 1, n);
      if !IsRecord(ws[t], h.to) && IsRecord(w, h.to) {
        assert Unmarks(ws[t - 1], ss[t - 1], h.to);
      }
    }
  }

  lemma StartIdle(w: World)
    requires Start(w)
    ensures w.owed == map[]
  {}

  /** Only the receiver's commit makes a clear owed. */
  lemma StepHanding(w: World, s: Step, n: nat)
    requires Allowed(w, s) && HandoversRight(w) && n in Next(w, s).owed
    ensures if s == Deliver(n) then n in w.sent && Next(w, s).owed[n] == w.sent[n] && Accepts(w, s)
            else n in w.owed && Next(w, s).owed[n] == w.owed[n]
  {
    hide Received, MayWrite;
  }

  /** No store loses an entry or a place in its log while it has one. */
  lemma {:induction false} LogsOnlyGrow(ws: seq<World>, ss: seq<Step>, i: Place, s: nat, t: nat)
    requires IsRun(ws, ss) && s <= t < |ws| && i in ws[s].copies
    requires forall u | s <= u < t :: ss[u] != Delete(i)
    ensures i in ws[t].copies && Grew(ws[s].copies[i], ws[t].copies[i])
  {
    hide Start, Next, Allowed, HandoversRight, CopiesSound, Grew;
    if s < t {
      LogsOnlyGrow(ws, ss, i, s, t - 1);
      RunIsSound(ws, ss, t - 1);
      StepGrows(ws[t - 1], ss[t - 1], i);
      GrewOn(ws[s].copies[i], ws[t - 1].copies[i], ws[t].copies[i]);
    } else {
      GrewNone(ws[s].copies[i]);
    }
  }

  ghost predicate Grew(c: Copy, d: Copy) {
    c.All() <= d.All() && c.header == d.header && c.prefix == d.prefix
  }

  lemma GrewNone(c: Copy)
    ensures Grew(c, c)
  {}

  lemma GrewOn(a: Copy, b: Copy, c: Copy)
    requires Grew(a, b) && Grew(b, c)
    ensures Grew(a, c)
  {}

  lemma StepGrows(w: World, s: Step, i: Place)
    requires CopiesSound(w) && Allowed(w, s) && i in w.copies && s != Delete(i)
    ensures i in Next(w, s).copies && Grew(w.copies[i], Next(w, s).copies[i])
  {
    hide Received, MayWrite, Sound, Kin, Accepted;
    var c := w.copies[i];
    match s
    case Send(to, closure, o) =>
      if i == to {
        ReceiveGrows(w, c, closure, o);
      }
    case Deliver(n) =>
      if i == w.sent[n].to {
        ReceiveGrows(w, c, w.sent[n].closure, w.sent[n].options);
      }
    case _ =>
  }

  lemma ReceiveGrows(w: World, c: Copy, b: Copy, o: Options)
    requires CopiesSound(w) && c in w.seen && b in w.seen
    ensures var c' := Received(Some(c), b, o).0;
            c'.Some? && Grew(c, c'.value)
  {
    hide Received, Sound;
    assert Kin(c, b) && Kin(b, b);
    assert forall e | e in c.own :: e in c.All();
    assert forall e | e in b.own :: e in b.All();
    MergeIsUnion(c, b, o);
  }

  // ----- a mirror's head -----

  /** The head did not go back or aside. */
  ghost predicate Forward(before: Copy, after: Copy) {
    before.head == ROOT || Reaches(Index(after.All()), after.head, before.head)
  }

  /** Step s sends store i nothing but fetches, and leaves it a mirror. */
  ghost predicate OnlyFetches(w: World, s: Step, i: Place) {
    && i in w.copies && w.copies[i].mark == Mirror
    && (s.Send? && s.to == i ==> !s.options.push)
    && (s.Deliver? ==> s.n in w.sent && w.sent[s.n].to != i)
    && s != Declare(i) && s != Delete(i)
  }

  lemma IndexGrows(session: string, es: seq<Entry>, more: seq<Entry>)
    requires Wf(session, es) && Wf(session, more) && Held(es) <= Held(more)
    ensures forall k | k in Index(es) :: k in Index(more) && Index(more)[k] == Index(es)[k]
  {
    hide Wf, Fits;
    IndexKeys(es);
    forall k | k in Index(es) ensures k in Index(more) && Index(more)[k] == Index(es)[k] {
      assert Index(es)[k] in Held(es);
      var i :| 0 <= i < |more| && more[i] == Index(es)[k];
      IndexAt(session, more, i);
    }
  }

  lemma StepForward(w: World, s: Step, i: Place)
    requires Allowed(w, s) && CopiesSound(w) && CopiesSound(Next(w, s)) && OnlyFetches(w, s, i)
    ensures i in Next(w, s).copies && Forward(w.copies[i], Next(w, s).copies[i])
  {
    hide Received, Sound, Kin, Fits, IdsUnique, HangsFrom;
    var c := w.copies[i];
    var w' := Next(w, s);
    ReachesStep(Index(c.All()), c.head, c.head);
    if s.Send? && s.to == i {
      FetchForward(w, c, s.closure, s.options);
    } else {
      assert i in w'.copies && w'.copies[i].head == c.head;
      ReachesStep(Index(w'.copies[i].All()), c.head, c.head);
    }
  }

  lemma FetchForward(w: World, c: Copy, b: Copy, o: Options)
    requires CopiesSound(w) && c in w.seen && b in w.seen && !o.push && !o.handover
    ensures var c' := Received(Some(c), b, o).0; c'.Some? && Forward(c, c'.value)
  {
    hide Received, Wf, Ordered, IdsUnique, Reaches;
    var c' := Received(Some(c), b, o).0;
    HeadsMoveRight(c, b, o);
    ReachesStep(Index(c'.value.All()), c.head, c.head);
    if c'.value.head != c.head && c.head != ROOT {
      assert Kin(c, b) && Kin(b, b);
      assert forall e | e in c.own :: e in c.All();
      assert forall e | e in b.own :: e in b.All();
      MergeIsUnion(c, b, o);
      ReceiveSound(w.seen, Some(c), b, o);
      forall e | e in b.All() ensures e in c'.value.All() {
        assert e in b.own ==> e in Held(c.own) + Held(b.own);
      }
      IndexGrows(c.header.id, b.All(), c'.value.All());
      ReachesGrows(Index(b.All()), Index(c'.value.All()), b.head, c.head);
    }
  }

  /** A mirror that only fetches goes only forward: its head at any time is
      its head at any earlier time or descends from it. */
  lemma {:induction false} MirrorGoesForward(ws: seq<World>, ss: seq<Step>, i: Place, s: nat, t: nat)
    requires IsRun(ws, ss) && s <= t < |ws| && i in ws[s].copies
    requires forall u | s <= u < t :: OnlyFetches(ws[u], ss[u], i)
    ensures i in ws[t].copies && Forward(ws[s].copies[i], ws[t].copies[i])
  {
    hide MayWrite, Start, Next, Reaches, CopiesSound, Allowed, Sound;
    LogsOnlyGrow(ws, ss, i, s, t);
    if s == t {
      var c := ws[s].copies[i];
      ReachesStep(Index(c.All()), c.head, c.head);
    } else {
      MirrorGoesForward(ws, ss, i, s, t - 1);
      RunIsSound(ws, ss, t - 1);
      RunIsSound(ws, ss, t);
      StepForward(ws[t - 1], ss[t - 1], i);
      LogsOnlyGrow(ws, ss, i, t - 1, t);
      HeldSound(ws[t - 1], i);
      HeldSound(ws[t], i);
      JoinForward(ws[s].copies[i], ws[t - 1].copies[i], ws[t].copies[i]);
    }
  }

  lemma HeldSound(w: World, i: Place)
    requires CopiesSound(w) && i in w.copies
    ensures Sound(w.copies[i])
  {}

  lemma JoinForward(a: Copy, b: Copy, c: Copy)
    requires Sound(b) && Sound(c) && b.All() <= c.All() && b.header == c.header
    requires Forward(a, b) && Forward(b, c)
    ensures Forward(a, c)
  {
    hide Wf, Reaches, Index, Ordered, IdsUnique;
    if a.head != ROOT {
      IndexGrows(b.header.id, b.All(), c.All());
      ReachesGrows(Index(b.All()), Index(c.All()), b.head, a.head);
      ReachesStep(Index(b.All()), b.head, a.head);
      ReachesOn(Index(c.All()), c.head, b.head, a.head);
    }
  }

  // ----- handovers that overlap -----

  const BOTH_WAYS := Options(true, "", true, true)
  const HELD := Copy(Header("s", "", false), [], [], "", Record)
  const TO_OTHER := Handover(0, 1, HELD, BOTH_WAYS)
  const AND_BACK := Handover(1, 0, HELD, BOTH_WAYS)

  lemma BothReceive()
    ensures Received(None, HELD, BOTH_WAYS).0 == Some(HELD) && Received(None, HELD, BOTH_WAYS).1.Done?
    ensures Received(Some(HELD), HELD, BOTH_WAYS).0 == Some(HELD) && Received(Some(HELD), HELD, BOTH_WAYS).1.Done?
  {
    assert HELD.All() == [];
    assert HELD.own + [] == HELD.own;
  }

  const OVERLAP: seq<Step> := [Begin(0, 0, 1, BOTH_WAYS), Deliver(0), Begin(1, 1, 0, BOTH_WAYS), Deliver(1), Clear(0), Clear(1)]

  /** The world after t steps of it. */
  function Overlapped(t: nat): World
    requires t <= 6
  {
    var m := HELD.(mark := Mirror);
    match t
    case 0 => World(map[0 := HELD], map[], map[], {HELD})
    case 1 => World(map[0 := HELD], map[0 := TO_OTHER], map[], {HELD})
    case 2 => World(map[0 := HELD, 1 := HELD], map[], map[0 := TO_OTHER], {HELD})
    case 3 => World(map[0 := HELD, 1 := HELD], map[1 := AND_BACK], map[0 := TO_OTHER], {HELD})
    case 4 => World(map[0 := HELD, 1 := HELD], map[], map[0 := TO_OTHER, 1 := AND_BACK], {HELD})
    case 5 => World(map[0 := m, 1 := HELD], map[], map[1 := AND_BACK], {HELD, m})
    case _ => World(map[0 := m, 1 := m], map[], map[], {HELD, m})
  }

  ghost predicate OverlapStep(t: nat)
    requires t < 6
  {
    Allowed(Overlapped(t), OVERLAP[t]) && Overlapped(t + 1) == Next(Overlapped(t), OVERLAP[t])
    && (Guarded(Overlapped(t), OVERLAP[t]) <==> t != 3)
  }

  lemma OverlapStarts()
    ensures Start(Overlapped(0)) && !SomeRecord(Overlapped(6))
  {
    assert HELD.All() == [];
  }

  lemma OverlapOpens()
    ensures OverlapStep(0) && OverlapStep(1) && OverlapStep(2)
  {
    hide Received, MayWrite;
    BothReceive();
    assert !Owes(Overlapped(1), 1);
  }

  lemma OverlapMeets()
    ensures OverlapStep(3)
  {
    hide Received, MayWrite;
    BothReceive();
    assert 0 in Overlapped(3).owed && Owes(Overlapped(3), 0);
  }

  lemma OverlapEnds()
    ensures OverlapStep(4) && OverlapStep(5)
  {
    hide Received, MayWrite;
  }

  /** Two handovers at once, each to the other's sender: the second receiver
      owes a clear, its step alone is not guarded, and no record is left. */
  lemma OverlapLosesRecord() returns (ws: seq<World>, ss: seq<Step>)
    ensures IsRun(ws, ss) && |ss| == 6 && !SomeRecord(ws[6])
    ensures forall t | 0 <= t < |ss| :: Guarded(ws[t], ss[t]) <==> t != 3
  {
    hide Next, Allowed, Guarded, Start, Overlapped, SomeRecord;
    OverlapStarts();
    OverlapOpens();
    OverlapMeets();
    OverlapEnds();
    ws, ss := seq(7, t requires 0 <= t < 7 => Overlapped(t)), OVERLAP;
    forall t | 0 <= t < 6 ensures Allowed(ws[t], ss[t]) && ws[t + 1] == Next(ws[t], ss[t]) && (Guarded(ws[t], ss[t]) <==> t != 3) {
      assert OverlapStep(t);
    }
  }
}

/** A store that keeps a session as lines: each append writes the entry and
    the leaf labels that keep the head where the session has it. */
module LineStore {
  import opened Entries
  import opened Tree
  import opened CallRules
  import opened Leaf
  import opened Growth
  import opened Sessions

  /** A leaf label whose parent and target are both the leaf. */
  function LeafMark(leaf: Id, ts: int): Draft {
    Draft("", leaf, [], ts, LabelBody(leaf, Some(LEAF_LABEL)))
  }

  /** A label on a leaf the session may rest on is never refused. */
  lemma MarkAllowed(h: Header, hash: Hash, st: State, ts: int)
    requires HashOk(hash) && Wf(h.id, st.entries) && MayRestOn(h.base, st.prefix, st.entries, st.leaf)
    ensures Checked(h, hash, st, LeafMark(st.leaf, ts)).Ok?
  {
    hide Wf;
    RestValid(h.id, h.base, st.prefix, st.entries, st.leaf);
  }

  lemma PreparedIs(h: Header, hash: Hash, st: State, d: Draft)
    requires HashOk(hash) && Prepared(h, hash, st, d).Ok? && !Prepared(h, hash, st, d).value.1
    ensures var e := Prepared(h, hash, st, d).value.0;
            && e == Entry(hash(ParentOf(st.leaf, d), d.parents, d.ts, d.body), ParentOf(st.leaf, d), d.parents, d.body)
            && (d.want != "" ==> e.id == d.want)
            && (e.parent == ROOT || e.parent in Ids(st.entries))
            && Fits(h.id, st.entries, e)
            && (h.base != ROOT && st.prefix <= Ids(st.entries) ==> e.id !in st.prefix)
  {
    hide RefsOk;
    PreparedFits(h, hash, st, d);
  }

  lemma MarkIs(h: Header, hash: Hash, st: State, ts: int)
    requires HashOk(hash) && Prepared(h, hash, st, LeafMark(st.leaf, ts)).Ok? && !Prepared(h, hash, st, LeafMark(st.leaf, ts)).value.1
    ensures var b := Prepared(h, hash, st, LeafMark(st.leaf, ts)).value.0; Fits(h.id, st.entries, b) && IsMarkOn(b, st.leaf)
    ensures var b := Prepared(h, hash, st, LeafMark(st.leaf, ts)).value.0; MovedLeaf(h.base, st.prefix, st.entries + [b], st.leaf, b) == st.leaf
  {
    hide Prepared, Fits, MayRestOn;
    PreparedIs(h, hash, st, LeafMark(st.leaf, ts));
  }

  /** What appending a draft does, by its outcome. */
  lemma AppendedIs(h: Header, hash: Hash, st: State, d: Draft)
    requires HashOk(hash)
    ensures var (r, now) := (Checked(h, hash, st, d), Appended(h, hash, st, d));
            if r.Ok? && !r.value.1 then
              && Prepared(h, hash, st, d) == r && now.prefix == st.prefix && now.entries == st.entries + [r.value.0]
              && now.leaf == MovedLeaf(h.base, st.prefix, now.entries, st.leaf, r.value.0)
            else now == st
  {
    hide Prepared, NewRule, MovedLeaf;
  }

  /** A label was not needed, was added, was held already, the same to the
      instant, or was refused. A line is written unless it was refused: what a
      store held already, its file then holds twice. */
  datatype Kept = NotNeeded | Marked(b: Entry) | Repeated | Unmarked(error: AppendError)

  /** Appends the label on the leaf. */
  method Keep(s: Session, ts: int) returns (k: Kept)
    requires s.Valid()
    modifies s
    ensures s.Valid() && s.read == old(s.read) && (old(s.CacheRight()) ==> s.CacheRight())
    ensures s.prefix == old(s.prefix) && !k.NotNeeded?
    ensures !k.Marked? ==> s.St() == old(s.St())
    ensures k.Marked? ==>
              && s.entries == old(s.entries) + [k.b] && Fits(s.header.id, old(s.entries), k.b) && IsMarkOn(k.b, old(s.leaf))
    ensures s.leaf == old(s.leaf)
    ensures old(MayRestOn(s.header.base, s.prefix, s.entries, s.leaf)) ==> !k.Unmarked?
  {
    hide Checked, Prepared, Appended, Fits, Fresh, Wf, MayRestOn, Index, IsMarkOn, MovedLeaf, Sessions.Session.Indexed;
    ghost var st := s.St();
    AppendedIs(s.header, s.hash, st, LeafMark(st.leaf, ts));
    if MayRestOn(s.header.base, s.prefix, s.entries, s.leaf) {
      MarkAllowed(s.header, s.hash, st, ts);
    }
    var r := s.Append(LeafMark(s.leaf, ts));
    match r
    case Err(error) => k := Unmarked(error);
    case Ok((b, held)) =>
      if held {
        return Repeated;
      }
      MarkIs(s.header, s.hash, st, ts);
      k := Marked(b);
  }

  /** What a label, added or not, did to the lines. */
  ghost predicate KeptFrom(session: string, es: seq<Entry>, leaf: Id, needed: bool, k: Kept, now: seq<Entry>) {
    && (k.NotNeeded? <==> !needed)
    && (!k.Repeated? && !k.Unmarked? ==> Labelled(session, es, leaf, needed, now))
    && (!k.Marked? ==> now == es)
  }

  /** How far the cache is once the label ahead of e is decided. */
  ghost function LookedTo(es: seq<Entry>, leaf: Id, e: Entry, at: Option<nat>): Option<nat> {
    if LooksAhead(es, leaf, e) then Some(|es|) else at
  }

  /** The label ahead of e, a prepared entry. */
  method KeepBefore(s: Session, e: Entry, ts: int) returns (k: Kept)
    requires s.Valid()
    modifies s, s.read
    ensures s.Valid() && s.prefix == old(s.prefix) && s.leaf == old(s.leaf) && (k.Marked? || s.entries == old(s.entries))
    ensures s.read == old(s.read) || fresh(s.read)
    ensures old(s.CatchesUp()) ==>
              s.CacheRight() && KeptFrom(s.header.id, old(s.entries), old(s.leaf), MarkBefore(s.header.base, s.prefix, old(s.entries), old(s.leaf), e), k, s.entries)
    ensures old(MayRestOn(s.header.base, s.prefix, s.entries, s.leaf)) ==> !k.Unmarked?
    ensures k.Marked? ==>
              && s.entries == old(s.entries) + [k.b] && Fits(s.header.id, old(s.entries), k.b) && IsMarkOn(k.b, old(s.leaf))
    ensures s.CacheAt() == LookedTo(old(s.entries), old(s.leaf), e, old(s.CacheAt()))
  {
    hide Fits, Fresh, Wf, MayRestOn, MovedLeaf, LooksAhead, MarkBefore, Harmless, Sessions.Session.Indexed, Sessions.Session.CaughtState;
    var needed := s.LeafMarkBefore(e);
    if !needed {
      return NotNeeded;
    }
    k := Keep(s, ts);
    assert k.Marked? ==> s.entries[..|s.entries| - 1] == old(s.entries);
  }

  /** The label after an append. */
  method KeepAfter(s: Session, ts: int) returns (k: Kept)
    requires s.Valid()
    modifies s, s.read
    ensures s.Valid() && s.prefix == old(s.prefix) && s.leaf == old(s.leaf) && (k.Marked? || s.entries == old(s.entries))
    ensures s.read == old(s.read) || fresh(s.read)
    ensures old(s.CatchesUp()) ==>
              s.CacheRight() && KeptFrom(s.header.id, old(s.entries), old(s.leaf), MarkNeeded(s.header.base, s.prefix, old(s.entries), old(s.leaf)), k, s.entries)
    ensures !k.Unmarked?
    ensures k.Marked? ==>
              && s.entries == old(s.entries) + [k.b] && Fits(s.header.id, old(s.entries), k.b) && IsMarkOn(k.b, old(s.leaf))
    ensures old(s.entries != [] && MayRestOn(s.header.base, s.prefix, s.entries, s.leaf)) ==> s.CacheAt() == Some(|old(s.entries)|)
  {
    hide Fits, Fresh, Wf, MayRestOn, MovedLeaf, MarkNeeded, Harmless, Sessions.Session.Indexed, Sessions.Session.CaughtState;
    var needed := s.LeafMarkNeeded();
    if !needed {
      return NotNeeded;
    }
    k := Keep(s, ts);
    assert k.Marked? ==> s.entries[..|s.entries| - 1] == old(s.entries);
  }

  // ----- one append -----

  /** twice: a line of the append was held already, and is in the file twice. */
  datatype Written = Refused(error: AppendError) | HeldAlready(entry: Entry) | Failed(error: AppendError) | Wrote(entry: Entry, twice: bool)

  /** At most a label on the leaf was added. */
  ghost predicate MarkedOrNot(es: seq<Entry>, leaf: Id, now: seq<Entry>) {
    now == es || (now != [] && now[..|now| - 1] == es && IsMarkOn(now[|now| - 1], leaf))
  }

  /** The lines read back as the session's leaf, on which a leaf may rest, and
      the cache catches up with them. */
  ghost predicate InStep(s: Session)
    reads s, s.read
  {
    && s.CatchesUp() && MayRestOn(s.header.base, s.prefix, s.entries, s.leaf)
    && Resolve(s.header.base, s.prefix, s.entries) == s.leaf
  }

  /** The entry itself, after the label ahead of it. */
  method PutEntry(s: Session, e: Entry, d: Draft) returns (r: Result<bool, AppendError>)
    requires s.Valid() && e == Entry(d.want, d.parent, d.parents, d.body) && d.want != ""
    modifies s
    ensures s.Valid() && s.read == old(s.read) && (old(s.CacheRight()) ==> s.CacheRight()) && s.prefix == old(s.prefix)
    ensures r != Ok(true) ==> s.St() == old(s.St())
    ensures r == Ok(true) ==>
              && s.entries == old(s.entries) + [e] && Fits(s.header.id, old(s.entries), e) && (s.header.base != ROOT ==> e.id !in s.prefix)
              && s.leaf == MovedLeaf(s.header.base, s.prefix, s.entries, old(s.leaf), e)
  {
    hide Checked, Prepared, Appended, Fits, Fresh, Wf, MovedLeaf, Index, Sessions.Session.Indexed;
    ghost var st := s.St();
    AppendedIs(s.header, s.hash, st, d);
    var put := s.Append(d);
    match put
    case Err(error) => r := Err(error);
    case Ok((_, held)) =>
      if !held {
        PreparedIs(s.header, s.hash, st, d);
      }
      r := Ok(!held);
  }

  /** One append as logged: the entry, and the lines ahead of it and with it. */
  datatype Logged = Logged(e: Entry, es1: seq<Entry>, es2: seq<Entry>)

  /** From lines es and a leaf, the three writes of a lead to lines es3 and the
      leaf the session then has. */
  ghost predicate LoggedAt(session: string, base: Id, prefix: set<Id>, es: seq<Entry>, leaf: Id, a: Logged, es3: seq<Entry>, leaf3: Id) {
    && Writes(session, base, prefix, es, leaf, a.e, a.es1, a.es2, es3)
    && (a.e.parent == ROOT || a.e.parent in Ids(es)) && (base != ROOT ==> a.e.id !in prefix)
    && leaf3 == MovedLeaf(base, prefix, a.es2, leaf, a.e)
  }

  lemma MovedRests(session: string, base: Id, prefix: set<Id>, es: seq<Entry>, leaf: Id, e: Entry, es1: seq<Entry>, marked: bool)
    requires Wf(session, es) && MayRestOn(base, prefix, es, leaf) && Labelled(session, es, leaf, marked, es1)
    requires Fits(session, es1, e) && (base != ROOT ==> e.id !in prefix)
    ensures MayRestOn(base, prefix, es1 + [e], MovedLeaf(base, prefix, es1 + [e], leaf, e))
  {
    hide Wf, Fits, MayRestOn, MovedLeaf, Resolve;
    if marked {
      var b := es1[|es1| - 1];
      assert es1 == es + [b];
      LabelBeforeKeeps(session, base, prefix, es, leaf, b);
    }
    MovedMayRest(session, base, prefix, es1, leaf, e);
  }

  /** The writes, when none was held already, are the protocol's, and end in step. */
  lemma WroteAll(session: string, base: Id, prefix: set<Id>, es: seq<Entry>, leaf: Id, e: Entry,
                 ahead: Kept, es1: seq<Entry>, es2: seq<Entry>, after: Kept, es3: seq<Entry>)
    requires Wf(session, es) && MayRestOn(base, prefix, es, leaf) && Resolve(base, prefix, es) == leaf
    requires KeptFrom(session, es, leaf, MarkBefore(base, prefix, es, leaf, e), ahead, es1) && !ahead.Repeated? && !ahead.Unmarked?
    requires Fits(session, es1, e) && es2 == es1 + [e] && (e.parent == ROOT || e.parent in Ids(es)) && (base != ROOT ==> e.id !in prefix)
    requires var leaf2 := MovedLeaf(base, prefix, es2, leaf, e);
             KeptFrom(session, es2, leaf2, MarkNeeded(base, prefix, es2, leaf2), after, es3) && !after.Repeated? && !after.Unmarked?
    ensures Writes(session, base, prefix, es, leaf, e, es1, es2, es3)
    ensures var leaf2 := MovedLeaf(base, prefix, es2, leaf, e);
            MayRestOn(base, prefix, es2, leaf2) && Wf(session, es3) && MayRestOn(base, prefix, es3, leaf2) && Resolve(base, prefix, es3) == leaf2
  {
    hide Wf, Fits, MayRestOn, Resolve, MarkBefore, MarkNeeded, MovedLeaf, Labelled;
    WriteAheadSafe(session, base, prefix, es, leaf, e, es1, es2, es3);
    MovedRests(session, base, prefix, es, leaf, e, es1, MarkBefore(base, prefix, es, leaf, e));
  }

  lemma MarkedIs(es: seq<Entry>, leaf: Id, k: Kept, now: seq<Entry>)
    requires if k.Marked? then now == es + [k.b] && IsMarkOn(k.b, leaf) else now == es
    ensures MarkedOrNot(es, leaf, now) && es <= now
  {}

  /** The lines a cache at that place has not taken in are harmless to those
      it has. */
  ghost predicate HarmlessTo(base: Id, prefix: set<Id>, es: seq<Entry>, at: Option<nat>) {
    at.Some? ==> at.value <= |es| && Harmless(base, prefix, es, at.value)
  }

  /** A cache has nothing to fear at the last line, nor before a label on the
      leaf. */
  lemma HarmlessEnd(session: string, base: Id, prefix: set<Id>, es: seq<Entry>)
    requires Wf(session, es)
    ensures HarmlessTo(base, prefix, es, Some(|es|))
  {
    hide Wf, MayRestOn, Durable;
    assert es[..|es|] == es;
    forall k | 0 <= k < |es| && Late(base, prefix, es, |es|, k) ensures false {
      RestValid(session, base, prefix, es, es[k].body.target);
    }
  }

  lemma HarmlessMark(base: Id, prefix: set<Id>, es: seq<Entry>, b: Entry, leaf: Id, i: nat)
    requires IsMarkOn(b, leaf) && MayRestOn(base, prefix, es + [b], leaf) && i <= |es|
    ensures HarmlessTo(base, prefix, es + [b], Some(i))
  {
    hide MayRestOn, Durable;
    var all := es + [b];
    assert InForce(base, prefix, all, all[|es|]);
    assert AnyInForce(base, prefix, all, i, |all|);
  }

  /** The label ahead and the entry. */
  method WriteEntry(s: Session, e: Entry, d: Draft, ts: int) returns (ahead: Kept, put: Result<bool, AppendError>, ghost es1: seq<Entry>)
    requires s.Valid() && e == Entry(d.want, d.parent, d.parents, d.body) && d.want != ""
    modifies s, s.read
    ensures s.Valid() && s.prefix == old(s.prefix) && (s.read == old(s.read) || fresh(s.read))
    ensures ahead.Unmarked? ==> put.Err?
    ensures MarkedOrNot(old(s.entries), old(s.leaf), es1)
    ensures if put == Ok(true)
            then
              && s.entries == es1 + [e] && Fits(s.header.id, es1, e) && (s.header.base != ROOT ==> e.id !in s.prefix)
              && s.leaf == MovedLeaf(s.header.base, s.prefix, s.entries, old(s.leaf), e)
            else s.entries == es1 && s.leaf == old(s.leaf)
    ensures old(s.CatchesUp()) ==>
              s.CacheRight() && KeptFrom(s.header.id, old(s.entries), old(s.leaf), MarkBefore(s.header.base, s.prefix, old(s.entries), old(s.leaf), e), ahead, es1)
    ensures s.CacheAt() == LookedTo(old(s.entries), old(s.leaf), e, old(s.CacheAt()))
  {
    hide Fits, Wf, MayRestOn, MarkBefore, MovedLeaf, LookedTo, KeptFrom, MarkedOrNot, Index, IsMarkOn;
    hide Sessions.Session.Indexed, Sessions.Session.CacheRight, Sessions.Session.CatchesUp;
    ghost var st := s.St();
    ahead := KeepBefore(s, e, ts);
    es1 := s.entries;
    MarkedIs(st.entries, st.leaf, ahead, es1);
    if ahead.Unmarked? {
      put := Err(ahead.error);
      return;
    }
    put := PutEntry(s, e, d);
  }

  /** The three writes of an append: the label ahead, the entry, and the label
      after. A crash keeps some prefix of the lines they add. */
  method WriteLines(s: Session, e: Entry, d: Draft, ts1: int, ts2: int) returns (w: Written, ghost es1: seq<Entry>, ghost es2: seq<Entry>)
    requires s.Valid() && e == Entry(d.want, d.parent, d.parents, d.body) && d.want != ""
    requires e.parent == ROOT || e.parent in Ids(s.entries)
    modifies s, s.read
    ensures s.Valid() && s.prefix == old(s.prefix) && (w.Failed? || (w.Wrote? && w.entry == e))
    ensures MarkedOrNot(old(s.entries), old(s.leaf), es1)
    ensures w.Failed? ==> s.entries == es1 && s.leaf == old(s.leaf)
    ensures w.Wrote? ==>
              && (if es2 == es1 then w.twice && s.leaf == old(s.leaf)
                  else es2 == es1 + [e] && s.leaf == MovedLeaf(s.header.base, s.prefix, es2, old(s.leaf), e))
              && MarkedOrNot(es2, s.leaf, s.entries)
    ensures w.Wrote? && !w.twice && old(InStep(s)) && HarmlessTo(s.header.base, s.prefix, es2, LookedTo(old(s.entries), old(s.leaf), e, old(s.CacheAt()))) ==>
              LoggedAt(s.header.id, s.header.base, s.prefix, old(s.entries), old(s.leaf), Logged(e, es1, es2), s.entries, s.leaf) && InStep(s)
  {
    hide MayRestOn, Resolve, MarkNeeded, MarkBefore, MovedLeaf, Wf, Fits, KeptFrom, MarkedOrNot, Index, IsMarkOn, Harmless;
    hide Sessions.Session.Indexed, Sessions.Session.CacheRight;
    ghost var st := s.St();
    var ahead, put;
    ahead, put, es1 := WriteEntry(s, e, d, ts1);
    es2 := s.entries;
    if put.Err? {
      return Failed(put.error), es1, es2;
    }
    var after := KeepAfter(s, ts2);
    MarkedIs(es2, s.leaf, after, s.entries);
    w := Wrote(e, ahead.Repeated? || !put.value || after.Repeated?);
    if !w.twice && old(InStep(s)) && HarmlessTo(s.header.base, s.prefix, es2, LookedTo(st.entries, st.leaf, e, old(s.CacheAt()))) {
      WroteAll(s.header.id, s.header.base, st.prefix, st.entries, st.leaf, e, ahead, es1, es2, after, s.entries);
      if after.Marked? {
        HarmlessMark(s.header.base, st.prefix, es2, after.b, s.leaf, |es2|);
      } else {
        HarmlessEnd(s.header.id, s.header.base, st.prefix, es2);
      }
    }
  }

  /** Appends d: nothing is written for an entry that is refused or held. */
  method AppendLocked(s: Session, d: Draft, ts1: int, ts2: int) returns (w: Written, ghost es1: seq<Entry>, ghost es2: seq<Entry>)
    requires s.Valid()
    modifies s, s.read
    ensures s.Valid() && s.prefix == old(s.prefix)
    ensures w.Refused? || w.HeldAlready? ==> s.St() == old(s.St()) && (old(InStep(s)) ==> InStep(s))
    ensures w.Failed? ==> s.entries == es1 && s.leaf == old(s.leaf)
    ensures MarkedOrNot(old(s.entries), old(s.leaf), es1)
    ensures w.Wrote? ==>
              && (if es2 == es1 then w.twice && s.leaf == old(s.leaf)
                  else es2 == es1 + [w.entry] && s.leaf == MovedLeaf(s.header.base, s.prefix, es2, old(s.leaf), w.entry))
              && MarkedOrNot(es2, s.leaf, s.entries)
    ensures w.Wrote? && !w.twice && old(InStep(s)) && HarmlessTo(s.header.base, s.prefix, es2, LookedTo(old(s.entries), old(s.leaf), w.entry, old(s.CacheAt()))) ==>
              LoggedAt(s.header.id, s.header.base, s.prefix, old(s.entries), old(s.leaf), Logged(w.entry, es1, es2), s.entries, s.leaf) && InStep(s)
  {
    hide Prepared, MayRestOn, Resolve, MovedLeaf, Wf, Fits, HarmlessTo, LookedTo, Index, Sessions.Session.Indexed, Sessions.Session.CacheRight;
    es1, es2 := s.entries, s.entries;
    var broken := s.CheckNew(d);
    if broken.Some? {
      return Refused(CallRule(broken.value)), es1, es2;
    }
    var p := s.Prepare(d);
    if p.Err? {
      return Refused(p.error), es1, es2;
    }
    var e := p.value.0;
    if p.value.1 {
      return HeldAlready(e), es1, es2;
    }
    PreparedIs(s.header, s.hash, s.St(), d);
    w, es1, es2 := WriteLines(s, e, Draft(e.id, e.parent, d.parents, d.ts, d.body), ts1, ts2);
  }

  // ----- any number of appends -----

  /** The lines and the leaf after each of a run of appends. */
  ghost predicate LoggedRun(session: string, base: Id, prefix: set<Id>, ess: seq<seq<Entry>>, leaves: seq<Id>, log: seq<Logged>) {
    && |ess| == |leaves| == |log| + 1
    && forall t | 0 <= t < |log| :: LoggedAt(session, base, prefix, ess[t], leaves[t], log[t], ess[t + 1], leaves[t + 1])
  }

  ghost predicate ReadsBack(session: string, base: Id, prefix: set<Id>, es: seq<Entry>, leaf: Id) {
    Wf(session, es) && MayRestOn(base, prefix, es, leaf) && Resolve(base, prefix, es) == leaf
  }

  /** Lines that read back as the leaf do so after every append of the run. */
  lemma {:induction false} RunReadsBack(session: string, base: Id, prefix: set<Id>, ess: seq<seq<Entry>>, leaves: seq<Id>, log: seq<Logged>, t: nat)
    requires LoggedRun(session, base, prefix, ess, leaves, log) && t <= |log|
    requires ReadsBack(session, base, prefix, ess[0], leaves[0])
    ensures ReadsBack(session, base, prefix, ess[t], leaves[t])
  {
    hide Wf, MayRestOn, Resolve, MovedLeaf, Writes;
    if t > 0 {
      RunReadsBack(session, base, prefix, ess, leaves, log, t - 1);
      var a := log[t - 1];
      assert LoggedAt(session, base, prefix, ess[t - 1], leaves[t - 1], a, ess[t], leaves[t]);
      WriteAheadSafe(session, base, prefix, ess[t - 1], leaves[t - 1], a.e, a.es1, a.es2, ess[t]);
    }
  }

  /** What lines cut short read as. */
  ghost predicate CutOk(base: Id, prefix: set<Id>, leaf: Id, a: Logged, leaf3: Id, cut: seq<Entry>) {
    || Resolve(base, prefix, cut) in {leaf, leaf3}
    || (cut == a.es2 && |a.es1| <= |cut| && (Harmless(base, prefix, cut, |a.es1|) ==> Resolve(base, prefix, cut) == NotOnLabel(base, prefix, cut, a.e.id)))
  }

  /** A crash within an append leaves lines that read as the head before it or
      after it, or, cut before the label after, as the entry itself, when that
      is harmless to the labels before it. */
  lemma CutWithin(session: string, base: Id, prefix: set<Id>, es: seq<Entry>, leaf: Id, a: Logged, es3: seq<Entry>, leaf3: Id, n: nat)
    requires ReadsBack(session, base, prefix, es, leaf) && LoggedAt(session, base, prefix, es, leaf, a, es3, leaf3)
    requires |es| <= n <= |es3|
    ensures es <= a.es1 <= a.es2 <= es3 && CutOk(base, prefix, leaf, a, leaf3, es3[..n])
  {
    hide Wf, MayRestOn, Resolve, MovedLeaf, MarkBefore, MarkNeeded, Harmless, Fits, NotOnLabel;
    WriteAheadSafe(session, base, prefix, es, leaf, a.e, a.es1, a.es2, es3);
    LoggedGrows(session, base, prefix, es, leaf, a, es3, leaf3);
    var cut := es3[..n];
    assert cut == es || cut == a.es1 || cut == a.es2 || cut == es3;
    if cut == a.es2 && Harmless(base, prefix, cut, |a.es1|) {
      AheadFits(session, base, prefix, es, leaf, a.es1, MarkBefore(base, prefix, es, leaf, a.e));
      CutReads(session, base, prefix, a.es1, leaf, a.e);
    }
  }

  lemma LoggedGrows(session: string, base: Id, prefix: set<Id>, es: seq<Entry>, leaf: Id, a: Logged, es3: seq<Entry>, leaf3: Id)
    requires LoggedAt(session, base, prefix, es, leaf, a, es3, leaf3)
    ensures es <= a.es1 <= a.es2 <= es3 && |a.es1| <= |es| + 1 && |a.es2| == |a.es1| + 1 && |es3| <= |a.es2| + 1
  {
    hide MarkBefore, MarkNeeded, MovedLeaf, Fits;
    LabelledGrows(session, es, leaf, MarkBefore(base, prefix, es, leaf, a.e), a.es1);
    LabelledGrows(session, a.es2, leaf3, MarkNeeded(base, prefix, a.es2, leaf3), es3);
  }

  lemma LabelledGrows(session: string, es: seq<Entry>, leaf: Id, marked: bool, now: seq<Entry>)
    requires Labelled(session, es, leaf, marked, now)
    ensures es <= now && |now| <= |es| + 1
  {}

  lemma AheadFits(session: string, base: Id, prefix: set<Id>, es: seq<Entry>, leaf: Id, es1: seq<Entry>, marked: bool)
    requires Wf(session, es) && MayRestOn(base, prefix, es, leaf) && Labelled(session, es, leaf, marked, es1)
    ensures Wf(session, es1)
  {
    hide Wf, Fits;
    if marked {
      assert es1 == es + [es1[|es1| - 1]];
      LabelBeforeKeeps(session, base, prefix, es, leaf, es1[|es1| - 1]);
    }
  }

  lemma {:induction false} RunGrows(session: string, base: Id, prefix: set<Id>, ess: seq<seq<Entry>>, leaves: seq<Id>, log: seq<Logged>, t: nat)
    requires LoggedRun(session, base, prefix, ess, leaves, log) && t <= |log|
    ensures ess[t] <= ess[|log|]
    decreases |log| - t
  {
    hide LoggedAt;
    if t < |log| {
      LoggedGrows(session, base, prefix, ess[t], leaves[t], log[t], ess[t + 1], leaves[t + 1]);
      RunGrows(session, base, prefix, ess, leaves, log, t + 1);
    }
  }

  /** So wherever a crash cuts the lines of a whole run, they read as the head
      before or after the append it fell in, or as that append's entry. */
  lemma {:induction false} RunCut(session: string, base: Id, prefix: set<Id>, ess: seq<seq<Entry>>, leaves: seq<Id>, log: seq<Logged>, n: nat, from: nat)
      returns (t: nat)
    requires LoggedRun(session, base, prefix, ess, leaves, log) && ReadsBack(session, base, prefix, ess[0], leaves[0])
    requires from < |log| && |ess[from]| <= n <= |ess[|log|]|
    ensures from <= t < |log| && CutOk(base, prefix, leaves[t], log[t], leaves[t + 1], ess[|log|][..n])
    decreases |log| - from
  {
    hide LoggedAt, ReadsBack, CutOk;
    if n <= |ess[from + 1]| {
      t := from;
      RunReadsBack(session, base, prefix, ess, leaves, log, t);
      CutWithin(session, base, prefix, ess[t], leaves[t], log[t], ess[t + 1], leaves[t + 1], n);
      RunGrows(session, base, prefix, ess, leaves, log, t + 1);
      assert ess[|log|][..n] == ess[t + 1][..n];
    } else {
      assert from + 1 < |log|;
      t := RunCut(session, base, prefix, ess, leaves, log, n, from + 1);
    }
  }
}

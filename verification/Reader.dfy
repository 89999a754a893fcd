/** The two readers of a file's lines, the one that builds a session and the
    one that keeps ids alone, the base rule both hold lines to, and forks:
    however a session came to be, it is one tree that runs through its base. */
module Reader {
  import opened Entries
  import opened Tree
  import opened CallRules
  import opened CallSafety
  import opened Leaf
  import opened Growth
  import opened Sessions

  // ----- the base rule -----

  /** How far the prefix has come: its last line so far, and whether that was the
      base. Without a base there is nothing to check. */
  datatype Rule = Rule(base: Id, prev: Id, met: bool, prefix: set<Id>)

  function Opening(base: Id): Rule {
    Rule(base, "", false, {})
  }

  ghost predicate LineOk(r: Rule, parent: Id) {
    if r.base == ROOT then true
    else if r.met then OwnParentOk(r.base, r.prefix, parent)
    else if r.prev == "" then parent == ROOT
    else parent == r.prev
  }

  function Grown(r: Rule, id: Id): Rule {
    if r.base == ROOT || r.met then r else Rule(r.base, id, id == r.base, r.prefix + {id})
  }

  class BaseRule {
    var rule: Rule

    constructor (base: Id)
      ensures rule == Opening(base)
    {
      rule := Opening(base);
    }

    /** Holds one more line to the rule. Up to the base, a line that passes
        joins the prefix. */
    method Line(id: Id, parent: Id) returns (ok: bool)
      requires ValidId(id) && (rule.base != ROOT && rule.prev != "" ==> ValidId(rule.prev))
      modifies this
      ensures ok == LineOk(old(rule), parent)
      ensures rule == if ok then Grown(old(rule), id) else old(rule)
    {
      if rule.base == ROOT {
        return true;
      }
      if rule.met {
        return parent != ROOT && (parent == rule.base || parent !in rule.prefix);
      }
      if rule.prev == "" && parent != ROOT {
        return false;
      } else if rule.prev != "" && parent == ROOT {
        return false;
      } else if parent != rule.prev {
        return false;
      }
      rule := Rule(rule.base, id, id == rule.base, rule.prefix + {id});
      return true;
    }
  }

  // ----- reading -----

  datatype Lines = Lines(entries: seq<Entry>, repeated: seq<Id>, rule: Rule)

  /** The session with one more line, or none when the line is refused. An id met
      before stands for the same entry, ids being hashes. */
  ghost function Linked(session: string, st: Lines, e: Entry): Option<Lines> {
    var es := st.entries;
    if e.id in Ids(es) then Some(st.(repeated := st.repeated + [e.id]))
    else if e.parent != ROOT && e.parent !in Ids(es) then None
    else if !LineOk(st.rule, e.parent) then None
    else if !RefsOk(e.parent, session, e.parents, Ids(es)) then None
    else Some(Lines(es + [e], st.repeated, Grown(st.rule, e.id)))
  }

  ghost function LinkAll(session: string, base: Id, lines: seq<Entry>): Option<Lines> {
    if lines == [] then Some(Lines([], [], Opening(base)))
    else
      match LinkAll(session, base, lines[..|lines| - 1])
      case None => None
      case Some(st) => Linked(session, st, lines[|lines| - 1])
  }

  /** The lines a reader accepts: each links, and a base is among them. */
  ghost function ReadLines(session: string, base: Id, lines: seq<Entry>): Option<Lines> {
    var st := LinkAll(session, base, lines);
    if st.Some? && base != ROOT && base !in Ids(st.value.entries) then None else st
  }

  datatype Seen = Seen(seen: set<Id>, repeated: seq<Id>, rule: Rule)

  /** The same line met by the reader that keeps the ids seen alone. */
  ghost function Scanned(session: string, st: Seen, e: Entry): Option<Seen> {
    if e.id in st.seen then Some(st.(repeated := st.repeated + [e.id]))
    else if e.parent != ROOT && e.parent !in st.seen then None
    else if !LineOk(st.rule, e.parent) then None
    else if !RefsOk(e.parent, session, e.parents, st.seen) then None
    else Some(Seen(st.seen + {e.id}, st.repeated, Grown(st.rule, e.id)))
  }

  ghost function ScanAll(session: string, base: Id, lines: seq<Entry>): Option<Seen> {
    if lines == [] then Some(Seen({}, [], Opening(base)))
    else
      match ScanAll(session, base, lines[..|lines| - 1])
      case None => None
      case Some(st) => Scanned(session, st, lines[|lines| - 1])
  }

  ghost function ScanLines(session: string, base: Id, lines: seq<Entry>): Option<Seen> {
    var st := ScanAll(session, base, lines);
    if st.Some? && base != ROOT && base !in st.value.seen then None else st
  }

  /** The two readers accept the same files, meet the same repeats and hold
      the same ids. */
  lemma {:induction false} LinkAgreesWithScan(session: string, base: Id, lines: seq<Entry>)
    ensures LinkAll(session, base, lines).Some? <==> ScanAll(session, base, lines).Some?
    ensures LinkAll(session, base, lines).Some? ==>
              var (r, s) := (LinkAll(session, base, lines).value, ScanAll(session, base, lines).value);
              s.seen == Ids(r.entries) && s.repeated == r.repeated && s.rule == r.rule
  {
    if lines != [] {
      var n := |lines| - 1;
      LinkAgreesWithScan(session, base, lines[..n]);
      var before := LinkAll(session, base, lines[..n]);
      if before.Some? {
        IdsSnoc(before.value.entries, lines[n]);
      }
    }
  }

  lemma ReadersAgree(session: string, base: Id, lines: seq<Entry>)
    ensures ReadLines(session, base, lines).Some? <==> ScanLines(session, base, lines).Some?
  {
    LinkAgreesWithScan(session, base, lines);
  }

  // ----- what a session with a base is -----

  /** The entries open with the path to the base, which is the prefix, and
      every later one hangs from the base or an entry after it. */
  ghost predicate Based(base: Id, prefix: set<Id>, es: seq<Entry>) {
    exists n: nat :: BasedAt(base, prefix, es, n)
  }

  ghost predicate BasedAt(base: Id, prefix: set<Id>, es: seq<Entry>, n: nat) {
    && 0 < n <= |es| && es[n - 1].id == base
    && prefix == Ids(es[..n])
    && IsChain(es[..n])
    && forall i | n <= i < |es| :: OwnParentOk(base, prefix, es[i].parent)
  }

  lemma IdsHas(es: seq<Entry>, n: nat)
    requires n <= |es|
    ensures forall k | 0 <= k < n :: es[k].id in Ids(es[..n])
  {
    forall k | 0 <= k < n ensures es[k].id in Ids(es[..n]) {
      assert es[..n][k] == es[k];
    }
  }

  lemma {:induction false} ChainPath(session: string, es: seq<Entry>, n: nat)
    requires Wf(session, es) && 0 < n <= |es| && IsChain(es[..n])
    ensures PathTo(es[..n], es[n - 1].id) == es[..n]
  {
    assert es[..n][..n - 1] == es[..n - 1];
    if n == 1 {
      ValidIds(session, es[..0]);
      PathNowhere(es[..0], ROOT);
    } else {
      assert es[..n][n - 1].parent == es[..n][n - 2].id;
      ChainPath(session, es, n - 1);
    }
    assert es[..n] == es[..n - 1] + [es[n - 1]];
  }

  lemma {:induction false} PathPrefix(session: string, es: seq<Entry>, n: nat, id: Id)
    requires Wf(session, es) && n <= |es| && id in Ids(es[..n])
    ensures PathTo(es, id) == PathTo(es[..n], id)
    decreases |es| - n
  {
    hide RefsOk, Wf;
    if n < |es| {
      IdsSplit(es);
      IdsPrefix(es, n, |es| - 1);
      WfPrefix(session, es, |es| - 1);
      assert es[..|es| - 1][..n] == es[..n];
      FitsAt(session, es, |es| - 1);
      PathPrefix(session, es[..|es| - 1], n, id);
    } else {
      assert es[..n] == es;
    }
  }

  /** Every own entry's path opens with the whole path to the base. */
  lemma {:induction false} RunsThroughBase(session: string, base: Id, prefix: set<Id>, es: seq<Entry>, n: nat, i: nat)
    requires Wf(session, es) && base != ROOT && BasedAt(base, prefix, es, n)
    requires n <= i < |es|
    ensures n < |PathTo(es, es[i].id)| && PathTo(es, es[i].id)[..n] == es[..n]
    decreases i
  {
    hide Wf, PathTo, IsChain, RefsOk;
    var e := es[i];
    WfPrefix(session, es, i);
    PathAt(session, es, i);
    FitsAt(session, es, i);
    var parentPath := PathTo(es[..i], e.parent);
    assert parentPath != [] && |parentPath| >= n && parentPath[..n] == es[..n] by {
      if e.parent == base {
        ChainPath(session, es, n);
        assert es[..i][..n] == es[..n];
        assert es[..n][n - 1].id == base;
        PathPrefix(session, es[..i], n, base);
      } else {
        assert OwnParentOk(base, prefix, e.parent);
        var k :| 0 <= k < i && es[..i][k].id == e.parent;
        IdsHas(es, n);
        assert k >= n;
        RunsThroughBase(session, base, prefix, es, n, k);
        assert es[..i][k].id in Ids(es[..i]);
        PathPrefix(session, es, i, es[k].id);
      }
    }
  }

  lemma PathAt(session: string, es: seq<Entry>, i: nat)
    requires Wf(session, es) && i < |es|
    ensures PathTo(es, es[i].id) == PathTo(es[..i], es[i].parent) + [es[i]]
  {
    hide PathTo, Wf;
    assert es[..i + 1] == es[..i] + [es[i]];
    IdsHas(es, i + 1);
    PathPrefix(session, es, i + 1, es[i].id);
    PathSnoc(es[..i], es[i], es[i].id);
  }

  // ----- reading gives such a session -----

  /** What holds of the lines linked so far. */
  ghost predicate ReadInv(session: string, base: Id, st: Lines) {
    var es := st.entries;
    && Wf(session, es) && st.rule.base == base
    && (base != ROOT ==>
          if st.rule.met then Based(base, st.rule.prefix, es)
          else
            && base !in Ids(es) && IsChain(es) && st.rule.prefix == Ids(es)
            && st.rule.prev == if es == [] then "" else es[|es| - 1].id)
  }

  lemma BasedSnoc(base: Id, prefix: set<Id>, es: seq<Entry>, e: Entry)
    requires Based(base, prefix, es) && OwnParentOk(base, prefix, e.parent)
    ensures Based(base, prefix, es + [e])
  {
    hide IsChain;
    var n: nat :| BasedAt(base, prefix, es, n);
    assert (es + [e])[..n] == es[..n];
    assert BasedAt(base, prefix, es + [e], n);
  }

  lemma PrefixSnoc(session: string, es: seq<Entry>, e: Entry)
    requires Wf(session, es) && IsChain(es) && ValidId(e.id)
    requires e.parent == if es == [] then ROOT else es[|es| - 1].id
    ensures IsChain(es + [e])
    ensures Based(e.id, Ids(es + [e]), es + [e])
  {
    var all := es + [e];
    assert IsChain(all);
    assert all[..|all|] == all;
    assert BasedAt(e.id, Ids(all), all, |all|);
  }

  lemma LinkKeeps(session: string, base: Id, st: Lines, e: Entry)
    requires ReadInv(session, base, st) && ValidId(e.id)
    requires Linked(session, st, e).Some?
    ensures ReadInv(session, base, Linked(session, st, e).value)
  {
    hide RefsOk, Based, IsChain, Wf;
    var es := st.entries;
    if e.id !in Ids(es) {
      WfSnoc(session, es, e);
      IdsSnoc(es, e);
      if base != ROOT {
        if st.rule.met {
          BasedSnoc(base, st.rule.prefix, es, e);
        } else {
          ValidIds(session, es);
          IdsHas(es, |es|);
          assert es[..|es|] == es;
          PrefixSnoc(session, es, e);
        }
      }
    }
  }

  lemma {:induction false} LinkedInv(session: string, base: Id, lines: seq<Entry>)
    requires forall i | 0 <= i < |lines| :: ValidId(lines[i].id)
    requires LinkAll(session, base, lines).Some?
    ensures ReadInv(session, base, LinkAll(session, base, lines).value)
  {
    if lines != [] {
      var n := |lines| - 1;
      LinkedInv(session, base, lines[..n]);
      LinkKeeps(session, base, LinkAll(session, base, lines[..n]).value, lines[n]);
    }
  }

  /** A file that reads is one tree in file order that opens with the path to
      its base, and the prefix is that path. */
  lemma ReadIsTree(session: string, base: Id, lines: seq<Entry>)
    requires forall i | 0 <= i < |lines| :: ValidId(lines[i].id)
    requires ReadLines(session, base, lines).Some?
    ensures var st := ReadLines(session, base, lines).value;
            && Wf(session, st.entries)
            && (base != ROOT ==> Based(base, Ids(PathTo(st.entries, base)), st.entries))
  {
    LinkedInv(session, base, lines);
    var st := LinkAll(session, base, lines).value;
    if base != ROOT {
      var n: nat :| BasedAt(base, st.rule.prefix, st.entries, n);
      BasePath(session, base, st.rule.prefix, st.entries, n);
    }
  }

  // ----- what each reader takes: exactly the trees -----

  /** The lines less those whose id was met before. */
  ghost function Firsts(lines: seq<Entry>): seq<Entry> {
    if lines == [] then []
    else
      var (es, e) := (Firsts(lines[..|lines| - 1]), lines[|lines| - 1]);
      if e.id in Ids(es) then es else es + [e]
  }

  /** The ids met again, in order. */
  ghost function Again(lines: seq<Entry>): seq<Id> {
    if lines == [] then []
    else
      var (before, e) := (lines[..|lines| - 1], lines[|lines| - 1]);
      if e.id in Ids(Firsts(before)) then Again(before) + [e.id] else Again(before)
  }

  /** The rule after entries that are the first of a tree whose base is the
      n-th. */
  ghost function RuleAfter(base: Id, es: seq<Entry>, n: nat): Rule {
    if base == ROOT then Opening(base)
    else if |es| < n then Rule(base, if es == [] then "" else es[|es| - 1].id, false, Ids(es))
    else Rule(base, base, true, Ids(es[..n]))
  }

  ghost predicate OpensAt(base: Id, prefix: set<Id>, es: seq<Entry>, n: nat) {
    base == ROOT || BasedAt(base, prefix, es, n)
  }

  /** The next entry of such a tree is held to nothing it breaks. */
  lemma RuleOn(session: string, base: Id, prefix: set<Id>, all: seq<Entry>, n: nat, k: nat)
    requires Wf(session, all) && OpensAt(base, prefix, all, n) && k < |all|
    ensures LineOk(RuleAfter(base, all[..k], n), all[k].parent)
    ensures Grown(RuleAfter(base, all[..k], n), all[k].id) == RuleAfter(base, all[..k + 1], n)
  {
    hide RefsOk;
    WfUnique(session, all);
    assert all[..k + 1] == all[..k] + [all[k]];
    IdsSnoc(all[..k], all[k]);
    if base != ROOT {
      if k < n {
        assert all[..n][k] == all[k] && (k > 0 ==> all[..n][k - 1] == all[k - 1]);
        assert k > 0 ==> Fits(session, all[..k - 1], all[k - 1]);
        assert all[..k + 1][..k + 1] == all[..k + 1];
      } else {
        assert all[..k][..n] == all[..n] && all[..k + 1][..n] == all[..n];
      }
    }
  }

  /** Lines that first meet an opening of such a tree are linked, whatever
      repeats are among them. */
  lemma {:induction false} LinksAll(session: string, base: Id, prefix: set<Id>, all: seq<Entry>, n: nat, lines: seq<Entry>)
    requires Wf(session, all) && OpensAt(base, prefix, all, n) && Firsts(lines) <= all
    ensures LinkAll(session, base, lines) == Some(Lines(Firsts(lines), Again(lines), RuleAfter(base, Firsts(lines), n)))
  {
    hide Wf, OpensAt, LineOk, Grown, RuleAfter, RefsOk;
    if lines == [] {
      NoLinesYet(base, prefix, all, n);
    } else {
      var (before, e) := (lines[..|lines| - 1], lines[|lines| - 1]);
      var es := Firsts(before);
      LinksAll(session, base, prefix, all, n, before);
      if e.id !in Ids(es) {
        assert all[..|es|] == es && all[|es|] == e && all[..|es| + 1] == es + [e];
        FitsAt(session, all, |es|);
        RuleOn(session, base, prefix, all, n, |es|);
      }
    }
  }

  lemma NoLinesYet(base: Id, prefix: set<Id>, all: seq<Entry>, n: nat)
    requires OpensAt(base, prefix, all, n)
    ensures RuleAfter(base, [], n) == Opening(base)
  {
    assert Ids([]) == {};
  }

  lemma {:induction false} LinkedFirsts(session: string, base: Id, lines: seq<Entry>)
    requires LinkAll(session, base, lines).Some?
    ensures LinkAll(session, base, lines).value.entries == Firsts(lines) && LinkAll(session, base, lines).value.repeated == Again(lines)
  {
    if lines != [] {
      LinkedFirsts(session, base, lines[..|lines| - 1]);
    }
  }

  /** A file reads exactly when the entries it first meets are a tree that
      opens with the path to its base; then those are the session, and the
      rest are repeats. */
  lemma ReadsExactly(session: string, base: Id, lines: seq<Entry>)
    requires forall i | 0 <= i < |lines| :: ValidId(lines[i].id)
    ensures ReadLines(session, base, lines).Some? <==>
              Wf(session, Firsts(lines)) && (base == ROOT || exists prefix :: Based(base, prefix, Firsts(lines)))
    ensures ReadLines(session, base, lines).Some? ==>
              ReadLines(session, base, lines).value.entries == Firsts(lines) && ReadLines(session, base, lines).value.repeated == Again(lines)
    ensures ScanLines(session, base, lines).Some? <==> ReadLines(session, base, lines).Some?
  {
    hide Wf, Based, LinkAll, ScanLines, Firsts, Again;
    ReadersAgree(session, base, lines);
    if ReadLines(session, base, lines).Some? {
      LinkedFirsts(session, base, lines);
      ReadIsTree(session, base, lines);
    }
    if Wf(session, Firsts(lines)) {
      if base == ROOT {
        LinksAll(session, base, {}, Firsts(lines), 0, lines);
      } else if exists prefix :: Based(base, prefix, Firsts(lines)) {
        var prefix :| Based(base, prefix, Firsts(lines));
        var n := BaseAt(base, prefix, Firsts(lines));
        LinksAll(session, base, prefix, Firsts(lines), n, lines);
      }
    }
  }

  lemma BaseAt(base: Id, prefix: set<Id>, es: seq<Entry>) returns (n: nat)
    requires Based(base, prefix, es)
    ensures BasedAt(base, prefix, es, n) && base in Ids(es)
  {
    n :| BasedAt(base, prefix, es, n);
    assert es[n - 1].id == base;
  }

  /** The lines of any such tree read back as it, with nothing repeated. */
  lemma ReadsBack(session: string, base: Id, es: seq<Entry>)
    requires Wf(session, es) && (base == ROOT || exists prefix :: Based(base, prefix, es))
    ensures ReadLines(session, base, es).Some?
    ensures ReadLines(session, base, es).value.entries == es && ReadLines(session, base, es).value.repeated == []
    ensures ScanLines(session, base, es).Some?
  {
    hide Wf, Based, ReadLines, ScanLines;
    WfUnique(session, es);
    assert Distinct(es);
    AllFirst(es);
    ValidIds(session, es);
    AllValid(session, es);
    ReadsExactly(session, base, es);
  }

  lemma AllValid(session: string, es: seq<Entry>)
    requires Wf(session, es)
    ensures forall i | 0 <= i < |es| :: ValidId(es[i].id)
  {
    forall i | 0 <= i < |es| ensures ValidId(es[i].id) {
      assert Fits(session, es[..i], es[i]);
    }
  }

  lemma {:induction false} AllFirst(es: seq<Entry>)
    requires Distinct(es)
    ensures Firsts(es) == es && Again(es) == []
  {
    hide Firsts, Again, Distinct, Ids;
    if es == [] {
      NoFirsts();
    } else {
      LastDistinct(es);
      AllFirst(es[..|es| - 1]);
      FirstsOn(es);
      assert es[..|es| - 1] + [es[|es| - 1]] == es;
    }
  }

  lemma NoFirsts()
    ensures Firsts([]) == [] && Again([]) == []
  {}

  lemma FirstsOn(lines: seq<Entry>)
    requires lines != []
    ensures var (before, e) := (lines[..|lines| - 1], lines[|lines| - 1]);
            e.id !in Ids(Firsts(before)) ==> Firsts(lines) == Firsts(before) + [e] && Again(lines) == Again(before)
  {}

  lemma BasePath(session: string, base: Id, prefix: set<Id>, es: seq<Entry>, n: nat)
    requires Wf(session, es) && BasedAt(base, prefix, es, n)
    ensures PathTo(es, base) == es[..n]
  {
    hide PathTo, Wf, IsChain;
    IdsHas(es, n);
    ChainPath(session, es, n);
    PathPrefix(session, es, n, base);
  }

  datatype LineOutcome = Repeat | Refused | Taken

  /** Adds one decoded line to the session being read. */
  method LinkLine(s: Session, rule: BaseRule, e: Entry, ghost repeated: seq<Id>) returns (r: LineOutcome)
    requires s.Core() && ValidId(e.id)
    requires rule.rule.base != ROOT && rule.rule.prev != "" ==> ValidId(rule.rule.prev)
    modifies s, rule
    ensures s.Core() && s.prefix == old(s.prefix) && s.read == old(s.read)
    ensures rule.rule.base != ROOT && rule.rule.prev != "" ==> ValidId(rule.rule.prev)
    ensures var st := old(Lines(s.entries, repeated, rule.rule));
            match r
            case Repeat => Linked(s.header.id, st, e) == Some(st.(repeated := repeated + [e.id])) && s.entries == st.entries && rule.rule == st.rule
            case Refused => Linked(s.header.id, st, e) == None
            case Taken => Linked(s.header.id, st, e) == Some(Lines(s.entries, repeated, rule.rule))
  {
    hide RefsOk, Wf, Sessions.Session.Indexed;
    IndexKeys(s.entries);
    if e.id in s.byID {
      return Repeat;
    }
    if e.parent != ROOT && e.parent !in s.byID {
      return Refused;
    }
    var ok := rule.Line(e.id, e.parent);
    if !ok {
      return Refused;
    }
    ok := CheckRefs(e.parent, s.header.id, e.parents, s.byID.Keys);
    if !ok {
      return Refused;
    }
    s.Add(e, s.header.id);
    return Taken;
  }

  /** Links a file's lines into a new session, until one is refused. */
  method LinkLines(s: Session, lines: seq<Entry>) returns (ok: bool, repeated: seq<Id>)
    requires s.Core() && s.entries == [] && s.prefix == {} && forall i | 0 <= i < |lines| :: ValidId(lines[i].id)
    modifies s
    ensures s.Core() && s.prefix == {} && s.read == old(s.read)
    ensures var st := LinkAll(s.header.id, s.header.base, lines);
            && (ok <==> st.Some?)
            && (ok ==> s.entries == st.value.entries && repeated == st.value.repeated)
  {
    hide Wf, Linked, Sessions.Session.Indexed;
    var rule := new BaseRule(s.header.base);
    repeated := [];
    for i := 0 to |lines|
      invariant s.Core() && s.prefix == {} && s.read == old(s.read)
      invariant LinkAll(s.header.id, s.header.base, lines[..i]) == Some(Lines(s.entries, repeated, rule.rule))
      invariant rule.rule.base != ROOT && rule.rule.prev != "" ==> ValidId(rule.rule.prev)
      invariant fresh(rule)
    {
      assert lines[..i + 1] == lines[..i] + [lines[i]];
      LinkAllSnoc(s.header.id, s.header.base, lines[..i], lines[i]);
      var r := LinkLine(s, rule, lines[i], repeated);
      if r == Refused {
        LinkAllStops(s.header.id, s.header.base, lines, i + 1);
        return false, [];
      } else if r == Repeat {
        repeated := repeated + [lines[i].id];
      }
    }
    assert lines[..|lines|] == lines;
    return true, repeated;
  }

  /** Reads a file's lines into a session, and places the leaf. */
  method Read(h: Header, hash: Hash, lines: seq<Entry>) returns (s: Session?, repeated: seq<Id>)
    requires HashOk(hash) && forall i | 0 <= i < |lines| :: ValidId(lines[i].id)
    ensures s != null <==> ReadLines(h.id, h.base, lines).Some?
    ensures s != null ==>
              var st := ReadLines(h.id, h.base, lines).value;
              && fresh(s) && s.Valid() && s.header == h && s.entries == st.entries && repeated == st.repeated
              && (h.base == ROOT ==> s.prefix == {}) && (h.base != ROOT ==> s.prefix == Ids(PathTo(s.entries, h.base)))
              && s.leaf == Resolve(h.base, s.prefix, s.entries) && s.read == null
  {
    hide Wf, PathTo, Resolve, LinkAll, Index, Sessions.Session.Indexed;
    var session := new Session(h, hash);
    var ok;
    ok, repeated := LinkLines(session, lines);
    if !ok {
      return null, [];
    }
    IndexKeys(session.entries);
    if h.base != ROOT {
      if h.base !in session.byID {
        return null, [];
      }
      var path := session.Path(h.base);
      var prefix := session.OnPath(path);
      PathWithin(session.entries, h.base);
      session.prefix := prefix;
    }
    session.ResolveLeaf();
    s := session;
  }

  lemma LinkAllSnoc(session: string, base: Id, lines: seq<Entry>, e: Entry)
    ensures LinkAll(session, base, lines + [e])
         == match LinkAll(session, base, lines) case None => None case Some(st) => Linked(session, st, e)
  {
    assert (lines + [e])[..|lines|] == lines;
  }

  lemma {:induction false} LinkAllStops(session: string, base: Id, lines: seq<Entry>, n: nat)
    requires n <= |lines| && LinkAll(session, base, lines[..n]) == None
    ensures LinkAll(session, base, lines) == None
  {
    if n < |lines| {
      assert lines[..|lines| - 1][..n] == lines[..n];
      LinkAllStops(session, base, lines[..|lines| - 1], n);
    } else {
      assert lines[..n] == lines;
    }
  }

  /** One line met by the reader that keeps the ids seen alone. */
  method ScanLine(session: string, seen: set<Id>, rule: BaseRule, e: Entry, ghost repeated: seq<Id>) returns (r: LineOutcome, now: set<Id>)
    requires ValidId(e.id) && (rule.rule.base != ROOT && rule.rule.prev != "" ==> ValidId(rule.rule.prev))
    modifies rule
    ensures rule.rule.base != ROOT && rule.rule.prev != "" ==> ValidId(rule.rule.prev)
    ensures var st := Seen(seen, repeated, old(rule.rule));
            match r
            case Repeat => Scanned(session, st, e) == Some(st.(repeated := repeated + [e.id])) && now == seen && rule.rule == st.rule
            case Refused => Scanned(session, st, e) == None
            case Taken => Scanned(session, st, e) == Some(Seen(now, repeated, rule.rule))
  {
    hide RefsOk;
    if e.id in seen {
      return Repeat, seen;
    }
    if e.parent != ROOT && e.parent !in seen {
      return Refused, seen;
    }
    var ok := rule.Line(e.id, e.parent);
    if !ok {
      return Refused, seen;
    }
    ok := CheckRefs(e.parent, session, e.parents, seen);
    if !ok {
      return Refused, seen;
    }
    return Taken, seen + {e.id};
  }

  /** Reads a file's lines without a session. */
  method Scan(session: string, base: Id, lines: seq<Entry>) returns (ok: bool, seen: set<Id>, repeated: seq<Id>)
    requires forall i | 0 <= i < |lines| :: ValidId(lines[i].id)
    ensures ok <==> ScanLines(session, base, lines).Some?
    ensures ok ==> seen == ScanLines(session, base, lines).value.seen && repeated == ScanLines(session, base, lines).value.repeated
  {
    hide Scanned;
    var rule := new BaseRule(base);
    seen, repeated := {}, [];
    for i := 0 to |lines|
      invariant ScanAll(session, base, lines[..i]) == Some(Seen(seen, repeated, rule.rule))
      invariant rule.rule.base != ROOT && rule.rule.prev != "" ==> ValidId(rule.rule.prev)
      invariant fresh(rule)
    {
      assert lines[..i + 1] == lines[..i] + [lines[i]];
      ScanAllSnoc(session, base, lines[..i], lines[i]);
      var r, now := ScanLine(session, seen, rule, lines[i], repeated);
      if r == Refused {
        ScanAllStops(session, base, lines, i + 1);
        return false, seen, repeated;
      } else if r == Repeat {
        repeated := repeated + [lines[i].id];
      }
      seen := now;
    }
    assert lines[..|lines|] == lines;
    return base == ROOT || base in seen, seen, repeated;
  }

  lemma ScanAllSnoc(session: string, base: Id, lines: seq<Entry>, e: Entry)
    ensures ScanAll(session, base, lines + [e])
         == match ScanAll(session, base, lines) case None => None case Some(st) => Scanned(session, st, e)
  {
    assert (lines + [e])[..|lines|] == lines;
  }

  lemma {:induction false} ScanAllStops(session: string, base: Id, lines: seq<Entry>, n: nat)
    requires n <= |lines| && ScanAll(session, base, lines[..n]) == None
    ensures ScanAll(session, base, lines) == None
  {
    if n < |lines| {
      assert lines[..|lines| - 1][..n] == lines[..n];
      ScanAllStops(session, base, lines[..|lines| - 1], n);
    } else {
      assert lines[..n] == lines;
    }
  }

  /** An append keeps the session one tree through its base. */
  lemma AppendKeepsTree(h: Header, hash: Hash, st: State, d: Draft)
    requires HashOk(hash) && Wf(h.id, st.entries) && (h.base != ROOT ==> Based(h.base, st.prefix, st.entries))
    ensures var st' := Appended(h, hash, st, d);
            Wf(h.id, st'.entries) && (h.base != ROOT ==> Based(h.base, st'.prefix, st'.entries))
  {
    hide Based, RefsOk, CheckCallRules;
    var checked := Checked(h, hash, st, d);
    if checked.Ok? && !checked.value.1 {
      var e := checked.value.0;
      PreparedFits(h, hash, st, d);
      WfSnoc(h.id, st.entries, e);
      if h.base != ROOT {
        BasedSnoc(h.base, st.prefix, st.entries, e);
      }
    }
  }

  /** However it was read or forked, a session that appends and moves its leaf
      stays one tree in file order, and through its base. */
  lemma {:induction false} GrownIsTree(h: Header, hash: Hash, st: State, ops: seq<Op>)
    requires HashOk(hash) && Wf(h.id, st.entries) && (h.base != ROOT ==> Based(h.base, st.prefix, st.entries))
    ensures var st' := RunFrom(h, hash, st, ops);
            Wf(h.id, st'.entries) && (h.base != ROOT ==> Based(h.base, st'.prefix, st'.entries))
  {
    hide Wf, Based, Appended;
    if ops != [] {
      var before := RunFrom(h, hash, st, ops[..|ops| - 1]);
      GrownIsTree(h, hash, st, ops[..|ops| - 1]);
      if ops[|ops| - 1].AppendOp? {
        AppendKeepsTree(h, hash, before, ops[|ops| - 1].d);
      }
    }
  }

  // ----- forks -----

  /** No entry of the prefix converges an entry off it. */
  ghost predicate StandsAlone(path: seq<Entry>) {
    forall i, j | 0 <= i < |path| && 0 <= j < |path[i].parents| && path[i].parents[j].session == "" ::
      path[i].parents[j].entry in Ids(path)
  }

  /** A base is an entry that is no leaf label and whose path stands alone. */
  ghost predicate ForkOk(es: seq<Entry>, at: Id) {
    at in Index(es) && !IsLeafLabel(Index(es)[at]) && StandsAlone(PathTo(es, at))
  }

  /** What e names by the fork's own id is an earlier entry of the prefix,
      not its parent, and not named as the session's own as well. */
  ghost predicate NamesRight(fork: string, e: Entry, ids: set<Id>) {
    forall j | 0 <= j < |e.parents| && e.parents[j].session == fork && fork != "" ::
      e.parents[j].entry in ids && e.parents[j].entry != e.parent && Ref("", e.parents[j].entry) !in e.parents
  }

  ghost predicate NamesHeld(fork: string, path: seq<Entry>) {
    forall i | 0 <= i < |path| :: NamesRight(fork, path[i], Ids(path[..i]))
  }

  /** References right in the origin's terms, those into it among the ids on
      the path, are right in the fork's exactly when they name it right. */
  lemma RefsNarrow(origin: string, fork: string, e: Entry, ids: set<Id>, on: set<Id>)
    requires RefsOk(e.parent, origin, e.parents, ids)
    requires forall j | 0 <= j < |e.parents| && e.parents[j].session == "" :: e.parents[j].entry in on
    ensures RefsOk(e.parent, fork, e.parents, on) <==> NamesRight(fork, e, on)
  {
    var refs := e.parents;
    if RefsOk(e.parent, fork, refs, on) && fork != "" {
      forall j | 0 <= j < |refs| && refs[j].session == fork
        ensures refs[j].entry in on && refs[j].entry != e.parent && Ref("", refs[j].entry) !in refs
      {
        assert Local(fork, refs[j]) == Ref("", refs[j].entry) != refs[j];
        assert forall k | 0 <= k < |refs| && k != j :: Local(fork, refs[k]) != Local(fork, refs[j]);
        assert forall k | 0 <= k < |refs| :: refs[k] != Ref("", refs[j].entry);
      }
    }
    if NamesRight(fork, e, on) {
      forall i, j | 0 <= i < j < |refs| ensures Local(fork, refs[i]) != Local(fork, refs[j]) {
        assert Local(origin, refs[i]) != Local(origin, refs[j]);
        assert refs[i] in refs && refs[j] in refs;
      }
      forall j | 0 <= j < |refs| && Local(fork, refs[j]).session == ""
        ensures refs[j].entry != e.parent && refs[j].entry in on
      {
        assert refs[j].session == "" ==> Local(origin, refs[j]).session == "";
      }
    }
  }

  /** A path whose convergences stay on it is a tree of its own in the fork's
      terms exactly when what it names by the fork's id it holds. */
  lemma {:induction false} ForkIsTree(origin: string, es: seq<Entry>, at: Id, fork: string)
    requires Wf(origin, es) && StandsAlone(PathTo(es, at))
    ensures Wf(fork, PathTo(es, at)) <==> NamesHeld(fork, PathTo(es, at))
    decreases |es|
  {
    if es != [] {
      hide RefsOk, StandsAlone, NamesHeld, NamesRight, Wf;
      var n := |es| - 1;
      WfPrefix(origin, es, n);
      if es[n].id == at {
        var p := PathTo(es[..n], es[n].parent);
        PathWithin(es[..n], es[n].parent);
        FitsAt(origin, es, n);
        AloneShorter(origin, es[..n], es[n], p);
        ForkIsTree(origin, es[..n], es[n].parent, fork);
        LastStands(origin, es[..n], es[n], fork, p);
        LastFits(fork, p, es[n]);
        LastNames(fork, p, es[n]);
      } else {
        ForkIsTree(origin, es[..n], at, fork);
      }
    } else {
      assert PathTo(es, at) == [];
    }
  }

  lemma LastFits(session: string, es: seq<Entry>, e: Entry)
    ensures Wf(session, es + [e]) <==> Wf(session, es) && Fits(session, es, e)
  {
    hide Fits;
    var all := es + [e];
    assert all[..|es|] == es && all[|es|] == e;
    if Wf(session, all) {
      WfPrefix(session, all, |es|);
    }
    if Wf(session, es) && Fits(session, es, e) {
      WfSnoc(session, es, e);
    }
  }

  lemma LastNames(fork: string, p: seq<Entry>, e: Entry)
    ensures NamesHeld(fork, p + [e]) <==> NamesHeld(fork, p) && NamesRight(fork, e, Ids(p))
  {
    hide NamesRight;
    var q := p + [e];
    assert q[..|p|] == p && q[|p|] == e;
    assert forall i | 0 <= i < |p| :: q[..i] == p[..i] && q[i] == p[i];
  }

  lemma ParentOnPath(session: string, es: seq<Entry>, id: Id)
    requires Wf(session, es) && id in Ids(es)
    ensures id in Ids(PathTo(es, id))
  {
    PathIsChain(session, es, id);
  }

  lemma AloneShorter(origin: string, es: seq<Entry>, e: Entry, p: seq<Entry>)
    requires Wf(origin, es) && Fits(origin, es, e)
    requires forall i | 0 <= i < |p| :: p[i] in es
    requires StandsAlone(p + [e])
    ensures StandsAlone(p)
  {
    var q := p + [e];
    IdsSnoc(p, e);
    forall i, j | 0 <= i < |p| && 0 <= j < |p[i].parents| && p[i].parents[j].session == ""
      ensures p[i].parents[j].entry in Ids(p)
    {
      assert q[i] == p[i];
      var k :| 0 <= k < |es| && es[k] == p[i];
      assert Fits(origin, es[..k], es[k]);
      assert Local(origin, p[i].parents[j]).session == "";
      IdsPrefix(es, k, |es|);
      assert es[..|es|] == es;
    }
  }

  lemma LastStands(origin: string, es: seq<Entry>, e: Entry, fork: string, p: seq<Entry>)
    requires Wf(origin, es) && Fits(origin, es, e) && p == PathTo(es, e.parent)
    requires forall i | 0 <= i < |p| :: p[i] in es
    requires StandsAlone(p + [e])
    ensures Fits(fork, p, e) <==> NamesRight(fork, e, Ids(p))
  {
    hide Wf, PathTo, NamesRight;
    var q := p + [e];
    assert q[|p|] == e;
    IdsSnoc(p, e);
    forall j | 0 <= j < |e.parents| && e.parents[j].session == "" ensures e.parents[j].entry in Ids(p) {
      assert q[|p|].parents[j].entry in Ids(q);
      assert Local(origin, e.parents[j]).session == "";
    }
    RefsNarrow(origin, fork, e, Ids(es), Ids(p));
    if e.parent != ROOT {
      ParentOnPath(origin, es, e.parent);
    }
  }

  /** A fork opens with the path to its base and nothing else. */
  lemma ForkIsBased(origin: string, es: seq<Entry>, at: Id)
    requires Wf(origin, es) && at in Ids(es)
    ensures var p := PathTo(es, at); Based(at, Ids(p), p)
  {
    PathIsChain(origin, es, at);
    var p := PathTo(es, at);
    assert p[..|p|] == p;
    assert BasedAt(at, Ids(p), p, |p|);
  }

  /** Starts a session at an entry of another, sharing the path down to it. What
      the prefix names by the new id is not looked at: the session is a tree in
      its own terms exactly when it holds what is so named. */
  method Fork(origin: Session, at: Id, id: string, promised: bool) returns (s: Session?)
    requires origin.Valid() && at != ROOT
    ensures s != null <==> ForkOk(origin.entries, at)
    ensures s != null ==>
              && fresh(s) && s.header == Header(id, at, promised) && s.read == null
              && s.entries == PathTo(origin.entries, at) && s.prefix == Ids(s.entries) && s.leaf == at
              && s.CoreIn("") && Based(at, s.prefix, s.entries)
              && (s.Valid() <==> NamesHeld(id, s.entries))
  {
    hide Wf, PathTo, NamesHeld, StandsAlone, Based, Sessions.Session.Indexed;
    IndexKeys(origin.entries);
    if at !in origin.byID {
      return null;
    }
    var path := origin.Path(at);
    if IsLeafLabel(origin.byID[at]) {
      return null;
    }
    var alone := CheckAlone(origin, path);
    if !alone {
      return null;
    }
    ForkIsTree(origin.header.id, origin.entries, at, id);
    ForkIsTree(origin.header.id, origin.entries, at, "");
    NothingNamed(path);
    ForkIsBased(origin.header.id, origin.entries, at);
    var fork := new Session(Header(id, at, promised), origin.hash);
    AddPath(fork, path);
    fork.leaf := at;
    return fork;
  }

  /** Adds the prefix, a tree in its own terms, to a new session. */
  method AddPath(s: Session, path: seq<Entry>)
    requires s.CoreIn("") && s.entries == [] && s.prefix == {} && Wf("", path)
    modifies s
    ensures s.CoreIn("") && s.read == old(s.read) && s.entries == path && s.prefix == Ids(path)
  {
    hide Wf, Index, Sessions.Session.Indexed;
    for i := 0 to |path|
      invariant s.CoreIn("") && s.read == old(s.read) && s.prefix == Ids(path[..i]) && s.entries == path[..i]
    {
      FitsAt("", path, i);
      s.Add(path[i], "");
      IdsSnoc(path[..i], path[i]);
      assert path[..i + 1] == path[..i] + [path[i]];
      s.prefix := s.prefix + {path[i].id};
    }
    assert path[..|path|] == path;
  }

  lemma NothingNamed(path: seq<Entry>)
    ensures NamesHeld("", path) && Wf("", [])
  {}

  lemma FitsAt(session: string, es: seq<Entry>, i: nat)
    requires Wf(session, es) && i < |es|
    ensures Fits(session, es[..i], es[i])
  {}

  method CheckAlone(origin: Session, path: seq<Entry>) returns (alone: bool)
    requires origin.Core()
    ensures alone == StandsAlone(path)
  {
    var on := origin.OnPath(path);
    for i := 0 to |path|
      invariant forall k, j | 0 <= k < i && 0 <= j < |path[k].parents| && path[k].parents[j].session == "" :: path[k].parents[j].entry in on
    {
      var refs := path[i].parents;
      for j := 0 to |refs|
        invariant forall m | 0 <= m < j && refs[m].session == "" :: refs[m].entry in on
      {
        if refs[j].session == "" && refs[j].entry !in on {
          return false;
        }
      }
    }
    return true;
  }

  /** One way to fail: a reference by the fork's own id to an entry the
      fork does not hold. */
  lemma NamedForkIsNoTree()
    ensures var es := [Entry("a", ROOT, [Ref("fork", "x")], OtherBody(""))];
            Wf("origin", es) && ForkOk(es, "a") && !NamesHeld("fork", PathTo(es, "a")) && !Wf("fork", PathTo(es, "a"))
  {
    var e := Entry("a", ROOT, [Ref("fork", "x")], OtherBody(""));
    assert [e][..0] == [] && PathTo([e], "a") == [e];
    assert Fits("origin", [e][..0], [e][0]);
    IndexSnoc([], e);
    assert [] + [e] == [e];
    var p := PathTo([e], "a");
    assert !NamesRight("fork", p[0], Ids(p[..0])) by {
      assert p[0].parents[0].session == "fork";
    }
    ForkIsTree("origin", [e], "a", "fork");
  }
}

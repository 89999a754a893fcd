/** The links of a session: what a writer is held to when it adds one, what that
    keeps for the whole session, and when the check of a path's links agrees. */
module Links {
  import opened Entries
  import opened Tree
  import opened CallRules
  import opened CallSafety
  import opened Leaf
  import opened Growth

  // ----- what holds of all the links of a session -----

  predicate Continues(e: Entry) {
    e.body.LinkBody? && e.body.link.rel.ContinuedIn?
  }

  /** Once a session was continued, every later such link names the same one. */
  ghost predicate OneSuccessor(es: seq<Entry>) {
    forall i, j | 0 <= i < j < |es| && Continues(es[i]) && Continues(es[j]) && es[i].body.link.session != "" ::
      es[j].body.link.session == es[i].body.link.session
  }

  /** How each relation is anchored: a subsession once, a peer to a call and to
      somewhere. */
  predicate Anchored(l: Link) {
    && (l.rel.Subsession? ==> (l.callId == "") != (l.spawnId == ""))
    && (l.rel.Peer? && !l.cancel ==> l.callId != "" && (l.url != "" || l.session != ""))
  }

  ghost predicate LinksOk(es: seq<Entry>) {
    OneSuccessor(es) && forall i | 0 <= i < |es| && es[i].body.LinkBody? :: Anchored(es[i].body.link)
  }

  lemma {:induction false} SuccessorIs(es: seq<Entry>)
    requires OneSuccessor(es)
    ensures SupersededBy(es) == "" ==> forall i | 0 <= i < |es| && Continues(es[i]) :: es[i].body.link.session == ""
    ensures forall i | 0 <= i < |es| && Continues(es[i]) && es[i].body.link.session != "" :: SupersededBy(es) == es[i].body.link.session
    ensures SupersededBy(es) != "" ==> exists i :: 0 <= i < |es| && Continues(es[i]) && es[i].body.link.session == SupersededBy(es)
  {
    if es != [] {
      SuccessorIs(es[..|es| - 1]);
    }
  }

  /** A writer may add a link exactly when the session's links stay as they
      should, and a cancel notice finds what it cancels on the path that is
      looked at. */
  lemma NewRuleExactly(es: seq<Entry>, leaf: Id, d: Draft, e: Entry)
    requires LinksOk(es) && e.body == d.body
    ensures NewRule(es, leaf, d) == None <==>
              && LinksOk(es + [e])
              && (e.body.LinkBody? && IsCallee(e.body.link.rel) && e.body.link.cancel ==>
                    NoticeOk(PathTo(es, if d.parent == ROOT then leaf else d.parent), e.body.link))
  {
    hide PathTo, NoticeOk;
    SuccessorIs(es);
    AddedLinks(es, e);
  }

  lemma AddedLinks(es: seq<Entry>, e: Entry)
    requires LinksOk(es)
    ensures LinksOk(es + [e]) <==>
              && (e.body.LinkBody? ==> Anchored(e.body.link))
              && (Continues(e) ==> forall i | 0 <= i < |es| && Continues(es[i]) && es[i].body.link.session != "" :: e.body.link.session == es[i].body.link.session)
  {
    var all := es + [e];
    assert all[|es|] == e && forall i | 0 <= i < |es| :: all[i] == es[i];
    if LinksOk(all) {
      forall i | 0 <= i < |es| && Continues(es[i]) && es[i].body.link.session != "" && Continues(e)
        ensures e.body.link.session == es[i].body.link.session
      {
        assert Continues(all[i]) && Continues(all[|es|]);
      }
    }
  }

  lemma AppendKeepsLinks(h: Header, hash: Hash, st: State, d: Draft)
    requires LinksOk(st.entries)
    ensures LinksOk(Appended(h, hash, st, d).entries)
  {
    hide LinksOk, NewRule, CheckCallRules, RefsOk, MovedLeaf;
    var r := Checked(h, hash, st, d);
    if r.Ok? && !r.value.1 {
      NewRuleExactly(st.entries, st.leaf, d, r.value.0);
    }
  }

  /** Whatever is appended, a session continues in one successor, and each of
      its links is anchored as its relation asks. */
  lemma {:induction false} GrownLinks(h: Header, hash: Hash, ops: seq<Op>)
    ensures LinksOk(Run(h, hash, ops).entries)
  {
    hide LinksOk, Appended;
    if ops == [] {
      NoLinks();
    } else {
      GrownLinks(h, hash, ops[..|ops| - 1]);
      var (before, op) := (Run(h, hash, ops[..|ops| - 1]), ops[|ops| - 1]);
      if op.AppendOp? {
        AppendKeepsLinks(h, hash, before, op.d);
      }
    }
  }

  lemma NoLinks()
    ensures LinksOk([])
  {}

  // ----- what holds of the links of a path -----

  predicate IsCalleeLink(e: Entry) {
    e.body.LinkBody? && IsCallee(e.body.link.rel)
  }

  /** e is a link, no notice itself, that the notice l may cancel. */
  predicate Cancels(l: Link, e: Entry) {
    IsCalleeLink(e) && !e.body.link.cancel && e.id == l.target
    && e.body.link.rel == l.rel && e.body.link.callId == l.callId && e.body.link.spawnId == l.spawnId
  }

  /** What the check of a path asks of the link at i: a notice cancels a link of
      its call, spawn and relation above it, and a peer with a url names its
      call. */
  ghost predicate CalleeRight(path: seq<Entry>, i: nat)
    requires i < |path|
  {
    IsCalleeLink(path[i]) ==>
      if path[i].body.link.cancel then exists j :: 0 <= j < i && Cancels(path[i].body.link, path[j])
      else path[i].body.link.rel.Peer? && path[i].body.link.url != "" ==> path[i].body.link.callId != ""
  }

  ghost predicate CalleesRight(path: seq<Entry>) {
    forall i | 0 <= i < |path| :: CalleeRight(path, i)
  }

  /** The loop over a path, with the links met so far by id. */
  method VerifyCallees(path: seq<Entry>) returns (ok: bool)
    requires Distinct(path)
    ensures ok <==> CalleesRight(path)
  {
    hide CalleeRight, Seen;
    var seen: map<Id, Entry> := map[];
    NoneSeen(path);
    for n := 0 to |path|
      invariant forall i | 0 <= i < n :: CalleeRight(path, i)
      invariant Seen(path, n, seen)
    {
      var e := path[n];
      SeenOn(path, n, seen);
      if IsCalleeLink(e) {
        var l := e.body.link;
        var found := l.target in seen && Cancels(l, seen[l.target]);
        SeenNotice(path, n, seen, l);
        RightIs(path, n);
        if if l.cancel then !found else l.rel.Peer? && l.url != "" && l.callId == "" {
          return false;
        }
        if !l.cancel {
          seen := seen[e.id := e];
        }
      } else {
        RightIs(path, n);
      }
    }
    return true;
  }

  /** The links of the first n entries that a notice may cancel, by id. */
  ghost predicate Seen(path: seq<Entry>, n: nat, seen: map<Id, Entry>) {
    && n <= |path|
    && (forall id | id in seen :: exists i :: 0 <= i < n && path[i] == seen[id] && path[i].id == id && IsCalleeLink(path[i]) && !path[i].body.link.cancel)
    && (forall i | 0 <= i < n && IsCalleeLink(path[i]) && !path[i].body.link.cancel :: path[i].id in seen && seen[path[i].id] == path[i])
  }

  lemma NoneSeen(path: seq<Entry>)
    ensures Seen(path, 0, map[])
  {}

  lemma SeenOn(path: seq<Entry>, n: nat, seen: map<Id, Entry>)
    requires Distinct(path) && n < |path| && Seen(path, n, seen)
    ensures Seen(path, n + 1, if IsCalleeLink(path[n]) && !path[n].body.link.cancel then seen[path[n].id := path[n]] else seen)
  {}

  lemma RightIs(path: seq<Entry>, i: nat)
    requires i < |path|
    ensures CalleeRight(path, i) <==>
              (IsCalleeLink(path[i]) ==>
                 if path[i].body.link.cancel then exists j :: 0 <= j < i && Cancels(path[i].body.link, path[j])
                 else path[i].body.link.rel.Peer? && path[i].body.link.url != "" ==> path[i].body.link.callId != "")
  {}

  lemma SeenNotice(path: seq<Entry>, n: nat, seen: map<Id, Entry>, l: Link)
    requires n <= |path| && Seen(path, n, seen)
    ensures (exists j :: 0 <= j < n && Cancels(l, path[j])) <==> l.target in seen && Cancels(l, seen[l.target])
  {
    if exists j :: 0 <= j < n && Cancels(l, path[j]) {
      var i :| 0 <= i < n && Cancels(l, path[i]);
      assert path[i].id in seen;
    }
  }

  lemma NoticeIs(path: seq<Entry>, l: Link)
    ensures NoticeOk(path, l) <==> exists j :: 0 <= j < |path| && Cancels(l, path[j])
  {
    if NoticeOk(path, l) {
      var j :| 0 <= j < |path| && Notices(path[j], l);
      assert Cancels(l, path[j]);
    }
    if exists j :: 0 <= j < |path| && Cancels(l, path[j]) {
      var j :| 0 <= j < |path| && Cancels(l, path[j]);
      assert Notices(path[j], l);
    }
  }

  /** A draft is taken as a new entry exactly when the session stays a tree with
      it, its parent is not above the base, the id the caller set is its own,
      its links stay as they should, its notice is found where it is looked
      for, and it breaks no rule of calls. */
  lemma LandsExactly(h: Header, hash: Hash, st: State, d: Draft)
    requires HashOk(hash) && Wf(h.id, st.entries) && LinksOk(st.entries)
    ensures var parent := if d.parent == ROOT && d.want == "" then st.leaf else d.parent;
            var e := Entry(hash(parent, d.parents, d.ts, d.body), parent, d.parents, d.body);
            Lands(h, hash, st, d) <==>
              && Wf(h.id, st.entries + [e])
              && (h.base != ROOT ==> parent != ROOT && (parent == h.base || parent !in st.prefix))
              && d.want in {"", e.id}
              && LinksOk(st.entries + [e])
              && (IsCalleeLink(e) && e.body.link.cancel ==> NoticeOk(PathTo(st.entries, if d.parent == ROOT then st.leaf else d.parent), e.body.link))
              && CheckCallRules(h, st.prefix, st.entries, e, PathTo(st.entries, parent)) == None
  {
    hide CheckCallRules, RefsOk, PathTo, NewRule, LinksOk, NoticeOk, Wf;
    var parent := if d.parent == ROOT && d.want == "" then st.leaf else d.parent;
    var e := Entry(hash(parent, d.parents, d.ts, d.body), parent, d.parents, d.body);
    NewRuleExactly(st.entries, st.leaf, d, e);
    FitsExactly(h.id, st.entries, e);
  }

  lemma FitsExactly(session: string, es: seq<Entry>, e: Entry)
    requires Wf(session, es)
    ensures Wf(session, es + [e]) <==> Fits(session, es, e)
  {
    hide RefsOk;
    if Wf(session, es + [e]) {
      assert Fits(session, (es + [e])[..|es|], (es + [e])[|es|]);
      assert (es + [e])[..|es|] == es;
    }
    if Fits(session, es, e) {
      WfSnoc(session, es, e);
    }
  }

  /** The draft is accepted as a new entry. */
  ghost predicate Lands(h: Header, hash: Hash, st: State, d: Draft) {
    Checked(h, hash, st, d).Ok? && !Checked(h, hash, st, d).value.1
  }

  /** A notice that names its own id and hangs from the root: its target is
      looked for on the path to the leaf, which is not the path it joins. */
  predicate Rootless(d: Draft) {
    d.body.LinkBody? && IsCallee(d.body.link.rel) && d.body.link.cancel && d.parent == ROOT && d.want != ""
  }

  lemma CalleesOn(path: seq<Entry>, e: Entry)
    requires CalleesRight(path)
    ensures CalleesRight(path + [e]) <==> CalleeRight(path + [e], |path|)
  {
    var more := path + [e];
    forall i | 0 <= i < |path| ensures CalleeRight(more, i) {
      assert forall j | 0 <= j <= i :: more[j] == path[j];
      assert CalleeRight(path, i);
    }
  }

  /** The path an accepted entry ends passes the check of its links exactly when
      it is no such notice. */
  lemma JoinsRight(h: Header, hash: Hash, st: State, d: Draft)
    requires LinksOk(st.entries) && HashOk(hash) && SessionInv(h, st)
    requires Checked(h, hash, st, d).Ok? && !Checked(h, hash, st, d).value.1
    requires CalleesRight(PathTo(st.entries, Checked(h, hash, st, d).value.0.parent))
    ensures var e := Checked(h, hash, st, d).value.0;
            CalleesRight(PathTo(Appended(h, hash, st, d).entries, e.id)) <==> !Rootless(d)
  {
    hide LinksOk, CheckCallRules, RefsOk, MovedLeaf, CalleesRight, SessionInv, PathTo, NewRule;
    var e := Checked(h, hash, st, d).value.0;
    var path := PathTo(st.entries, e.parent);
    PathSnoc(st.entries, e, e.id);
    CalleesOn(path, e);
    NewRuleExactly(st.entries, st.leaf, d, e);
    NewAnchored(st.entries, e);
    assert forall j | 0 <= j < |path| :: (path + [e])[j] == path[j];
    if e.body.LinkBody? {
      NoticeIs(path, e.body.link);
    }
    if e.parent == ROOT {
      RootPath(h, st);
    }
  }

  lemma RootPath(h: Header, st: State)
    requires SessionInv(h, st)
    ensures PathTo(st.entries, ROOT) == []
  {
    hide RefsOk, PathInv;
    ValidIds(h.id, st.entries);
    PathNowhere(st.entries, ROOT);
  }

  lemma NewAnchored(es: seq<Entry>, e: Entry)
    requires LinksOk(es) && LinksOk(es + [e])
    ensures e.body.LinkBody? ==> Anchored(e.body.link)
  {
    AddedLinks(es, e);
  }

  ghost predicate AllRight(es: seq<Entry>) {
    forall id :: CalleesRight(PathTo(es, id))
  }

  lemma AppendRight(h: Header, hash: Hash, st: State, d: Draft)
    requires LinksOk(st.entries) && HashOk(hash) && SessionInv(h, st)
    ensures AllRight(Appended(h, hash, st, d).entries) <==> AllRight(st.entries) && !(Lands(h, hash, st, d) && Rootless(d))
  {
    hide LinksOk, CheckCallRules, RefsOk, MovedLeaf, CalleesRight, SessionInv, NewRule, PathTo, Rootless;
    if Lands(h, hash, st, d) {
      var e := Checked(h, hash, st, d).value.0;
      var es := st.entries;
      LandsNew(h, hash, st, d);
      forall id ensures PathTo(es + [e], id) == if id == e.id then PathTo(es, e.parent) + [e] else PathTo(es, id) {
        PathSnoc(es, e, id);
      }
      if AllRight(es) {
        JoinsRight(h, hash, st, d);
      }
      if AllRight(es + [e]) {
        forall id ensures CalleesRight(PathTo(es, id)) {
          if id == e.id {
            PathNowhere(es, id);
            NoCallees();
          } else {
            assert CalleesRight(PathTo(es + [e], id));
          }
        }
        JoinsRight(h, hash, st, d);
        assert CalleesRight(PathTo(es + [e], e.id));
      }
    }
  }

  lemma NoCallees()
    ensures CalleesRight([])
  {}

  lemma LandsNew(h: Header, hash: Hash, st: State, d: Draft)
    requires Lands(h, hash, st, d)
    ensures Checked(h, hash, st, d).value.0.id !in Ids(st.entries)
    ensures Appended(h, hash, st, d).entries == st.entries + [Checked(h, hash, st, d).value.0]
  {
    hide CheckCallRules, RefsOk, MovedLeaf, NewRule;
  }

  /** The op appends such a notice, and it is accepted. */
  ghost predicate Strays(h: Header, hash: Hash, ops: seq<Op>, k: nat) {
    k < |ops| && ops[k].AppendOp? && Rootless(ops[k].d) && Lands(h, hash, Run(h, hash, ops[..k]), ops[k].d)
  }

  /** Every path of a grown session passes the check of its links if and only if
      no notice that names its own id and no parent was among what it took. */
  lemma {:induction false} GrownCallees(h: Header, hash: Hash, ops: seq<Op>)
    requires HashOk(hash)
    ensures AllRight(Run(h, hash, ops).entries) <==> forall k: nat :: !Strays(h, hash, ops, k)
  {
    if ops == [] {
      NoPaths();
    } else {
      RunOn(h, hash, ops);
      hide LinksOk, SessionInv, AllRight, Appended, Lands, Rootless, Strays, RunFrom;
      var (rest, op) := (ops[..|ops| - 1], ops[|ops| - 1]);
      var st := Run(h, hash, rest);
      GrownCallees(h, hash, rest);
      GrownLinks(h, hash, rest);
      NewInv(h);
      GrownInv(h, hash, NEW, rest);
      if op.AppendOp? {
        AppendRight(h, hash, st, op.d);
      }
      StraysOn(h, hash, ops);
    }
  }

  lemma StraysOn(h: Header, hash: Hash, ops: seq<Op>)
    requires ops != []
    ensures var (rest, op) := (ops[..|ops| - 1], ops[|ops| - 1]);
            (forall k: nat :: !Strays(h, hash, ops, k)) <==>
              (forall k: nat :: !Strays(h, hash, rest, k)) && !(op.AppendOp? && Rootless(op.d) && Lands(h, hash, Run(h, hash, rest), op.d))
  {
    hide Run, Lands, Rootless;
    var (rest, n) := (ops[..|ops| - 1], |ops| - 1);
    forall k: nat ensures Strays(h, hash, ops, k) <==> if k == n then ops[n].AppendOp? && Rootless(ops[n].d) && Lands(h, hash, Run(h, hash, rest), ops[n].d) else Strays(h, hash, rest, k) {
      if k <= n {
        assert ops[..k] == rest[..k] && rest[..n] == rest;
      }
    }
    assert !Strays(h, hash, rest, n);
    if forall k: nat :: !Strays(h, hash, ops, k) {
      assert !Strays(h, hash, ops, n);
      forall k: nat ensures !Strays(h, hash, rest, k) {
        assert !Strays(h, hash, ops, k);
      }
    }
  }

  lemma NoPaths()
    ensures AllRight([])
  {
    assert forall id :: PathTo([], id) == [];
  }

  /** A subsession link, and at once a notice that cancels it, which names its
      own id and hangs from the root: both are taken, and the path of the
      notice fails the check. */
  lemma StrayNotice(hash: Hash)
    requires HashOk(hash)
    requires var l := LinkBody(Link(Subsession, "s", "k", "", "", "", false));
             var first := hash(ROOT, [], 0, l);
             hash(ROOT, [], 0, LinkBody(Link(Subsession, "s", "k", "", first, "", true))) != first
    ensures var h := Header("a", ROOT, false);
            var first := hash(ROOT, [], 0, LinkBody(Link(Subsession, "s", "k", "", "", "", false)));
            var notice := LinkBody(Link(Subsession, "s", "k", "", first, "", true));
            var id := hash(ROOT, [], 0, notice);
            var ops := [AppendOp(Draft("", ROOT, [], 0, LinkBody(Link(Subsession, "s", "k", "", "", "", false)))), AppendOp(Draft(id, ROOT, [], 0, notice))];
            && |Run(h, hash, ops).entries| == 2
            && !CalleesRight(PathTo(Run(h, hash, ops).entries, id))
  {
    hide Run, RunFrom, Appended, CalleesRight, PathTo;
    var h := Header("a", ROOT, false);
    var l := Link(Subsession, "s", "k", "", "", "", false);
    var first := hash(ROOT, [], 0, LinkBody(l));
    var n := Link(Subsession, "s", "k", "", first, "", true);
    var id := hash(ROOT, [], 0, LinkBody(n));
    var (a, b) := (Draft("", ROOT, [], 0, LinkBody(l)), Draft(id, ROOT, [], 0, LinkBody(n)));
    var e := Entry(first, ROOT, [], LinkBody(l));
    FirstLink(hash, a, e);
    SecondLink(hash, e, b);
    RunTwo(h, hash, AppendOp(a), AppendOp(b));
    StrayPath(e, Entry(id, ROOT, [], LinkBody(n)));
  }

  lemma RunTwo(h: Header, hash: Hash, a: Op, b: Op)
    ensures Run(h, hash, [a, b]) == Next(h, hash, Next(h, hash, NEW, a), b)
  {
    hide Next;
    assert [a, b][..1] == [a] && [a][..0] == [];
    RunOn(h, hash, [a, b]);
    RunOn(h, hash, [a]);
  }

  lemma StrayPath(e: Entry, f: Entry)
    requires e.id != ROOT && f.parent == ROOT && IsCalleeLink(f) && f.body.link.cancel
    ensures !CalleesRight(PathTo([e] + [f], f.id))
  {
    RootPathOf(e);
    PathSnoc([e], f, f.id);
    assert PathTo([e] + [f], f.id) == [f];
    assert !CalleeRight([f], 0);
  }

  lemma RunOn(h: Header, hash: Hash, ops: seq<Op>)
    requires ops != []
    ensures Run(h, hash, ops) == Next(h, hash, Run(h, hash, ops[..|ops| - 1]), ops[|ops| - 1])
  {}

  lemma FirstLink(hash: Hash, d: Draft, e: Entry)
    requires HashOk(hash) && d == Draft("", ROOT, [], 0, e.body) && e == Entry(hash(ROOT, [], 0, d.body), ROOT, [], d.body)
    requires e.body.LinkBody? && e.body.link.rel.Subsession? && !e.body.link.cancel && e.body.link.callId != "" && e.body.link.spawnId == ""
    ensures Next(Header("a", ROOT, false), hash, NEW, AppendOp(d)) == State({}, [e], e.id)
  {}

  lemma SecondLink(hash: Hash, e: Entry, d: Draft)
    requires HashOk(hash) && IsCalleeLink(e) && !e.body.link.cancel && e.parent == ROOT && e.id != ROOT
    requires d == Draft(hash(ROOT, [], 0, d.body), ROOT, [], 0, d.body) && d.want != e.id && d.body.LinkBody?
    requires d.body.link.rel.Subsession? && d.body.link.callId != "" && d.body.link.spawnId == "" && Notices(e, d.body.link)
    ensures Appended(Header("a", ROOT, false), hash, State({}, [e], e.id), d).entries == [e] + [Entry(d.want, ROOT, [], d.body)]
  {
    NoticeTaken(e, d);
    SecondPrepared(hash, e, d);
    hide NewRule, Prepared, MovedLeaf;
  }

  lemma NoticeTaken(e: Entry, d: Draft)
    requires e.id != ROOT && d.parent == ROOT && d.body.LinkBody? && Notices(e, d.body.link)
    requires d.body.link.rel.Subsession? && d.body.link.callId != "" && d.body.link.spawnId == ""
    ensures NewRule([e], e.id, d) == None
  {
    assert [] + [e] == [e];
    PathSnoc([], e, e.id);
    hide PathTo;
    assert Notices(PathTo([e], e.id)[0], d.body.link);
  }

  lemma SecondPrepared(hash: Hash, e: Entry, d: Draft)
    requires HashOk(hash) && d == Draft(hash(ROOT, [], 0, d.body), ROOT, [], 0, d.body) && d.want != e.id
    requires d.body.LinkBody? && d.body.link.spawnId == ""
    ensures Prepared(Header("a", ROOT, false), hash, State({}, [e], e.id), d) == Ok((Entry(d.want, ROOT, [], d.body), false))
  {
    hide PathTo;
  }

  lemma RootPathOf(e: Entry)
    requires e.id != ROOT
    ensures PathTo([e], ROOT) == []
  {
    assert [e][..0] == [];
  }
}

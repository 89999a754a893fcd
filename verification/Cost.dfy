/** The work a path delegated: the sessions its links name, the sessions theirs
    name, and so on over a graph that may be cyclic, each counted once. */
module Cost {
  import opened Entries
  import opened Tree
  import C = Calls
  import R = Requests

  /** A session a reader can resolve, and the leaf it resumes at. */
  datatype Child = Child(entries: seq<Entry>, leaf: Id)

  type Graph = map<string, Child>

  datatype Leaf = Leaf(entry: Id, named: bool)

  /** parent is the session that named it first, "" for the path; scanned how
      many of its leaves its links were read on. */
  datatype Node = Node(link: Id, parent: string, leaves: seq<Leaf>, scanned: nat)

  datatype Why = Elsewhere | NotFound | NoEntry(leaf: Id)

  datatype Unread = Unread(link: Id, session: string, why: Why)

  datatype Work = Work(nodes: map<string, Node>, order: seq<string>, failed: set<string>, missing: set<(string, Id)>, unread: seq<Unread>)

  const NO_WORK := Work(map[], [], {}, {}, [])

  // ----- the leaf a link counts -----

  predicate Delegates(e: Entry) {
    e.body.LinkBody? && e.body.link.rel.Subsession? && !e.body.link.cancel && e.body.link.session != ""
  }

  /** The references of the entry with an id. */
  function RefsAt(p: seq<Entry>, id: Id): seq<Ref> {
    if p == [] then [] else if p[0].id == id then p[0].parents else RefsAt(p[1..], id)
  }

  /** The references each call's output carries, the last call of an id. */
  function OutputsOf(p: seq<Entry>, calls: seq<C.Call>): map<string, seq<Ref>> {
    if calls == [] then map[]
    else
      var c := calls[|calls| - 1];
      var before := OutputsOf(p, calls[..|calls| - 1]);
      if c.output.Some? then before[c.callId := RefsAt(p, c.output.value.id)] else before
  }

  ghost function Outputs(ps: seq<seq<Entry>>): map<string, seq<Ref>> {
    if ps == [] then map[]
    else
      var p := ps[|ps| - 1];
      Outputs(ps[..|ps| - 1]) + OutputsOf(p, C.FoldOf(p).calls)
  }

  method ReadOutputs(ps: seq<seq<Entry>>) returns (outputs: map<string, seq<Ref>>)
    ensures outputs == Outputs(ps)
  {
    hide C.FoldOf, OutputsOf;
    outputs := map[];
    for k := 0 to |ps|
      invariant outputs == Outputs(ps[..k])
    {
      assert ps[..k + 1][..k] == ps[..k];
      var calls := C.CallsOn(ps[k]);
      outputs := AddOutputs(ps[k], calls, outputs);
    }
    assert ps[..|ps|] == ps;
  }

  method AddOutputs(p: seq<Entry>, calls: seq<C.Call>, before: map<string, seq<Ref>>) returns (outputs: map<string, seq<Ref>>)
    ensures outputs == before + OutputsOf(p, calls)
  {
    outputs := before;
    for i := 0 to |calls|
      invariant outputs == before + OutputsOf(p, calls[..i])
    {
      assert calls[..i + 1][..i] == calls[..i];
      if calls[i].output.Some? {
        outputs := outputs[calls[i].callId := RefsAt(p, calls[i].output.value.id)];
      }
    }
    assert calls[..|calls|] == calls;
  }

  function NamedIn(refs: seq<Ref>, session: string): Option<Id> {
    if refs == [] then None
    else if refs[0].session == session then Some(refs[0].entry)
    else NamedIn(refs[1..], session)
  }

  /** The references of the first entry that names the session. */
  function FirstNaming(later: seq<Entry>, session: string): seq<Ref> {
    if later == [] then []
    else if NamedIn(later[0].parents, session).Some? then later[0].parents
    else FirstNaming(later[1..], session)
  }

  /** The leaf of the child a link counts: taken from the output of the call, or
      from the first later entry that names one when no call started it. */
  function Named(outputs: map<string, seq<Ref>>, p: seq<Entry>, i: nat): Option<Id>
    requires i < |p| && Delegates(p[i])
  {
    var l := p[i].body.link;
    if l.callId == "" then NamedIn(FirstNaming(p[i + 1..], l.session), l.session)
    else if l.callId in outputs then NamedIn(outputs[l.callId], l.session)
    else None
  }

  function LeafOf(child: Child, named: Option<Id>): Leaf {
    match named case Some(id) => Leaf(id, true) case None => Leaf(child.leaf, false)
  }

  // ----- one link -----

  function IndexOf(leaves: seq<Leaf>, id: Id): (i: nat)
    ensures i <= |leaves| && (i < |leaves| ==> leaves[i].entry == id)
    ensures forall k | 0 <= k < i :: leaves[k].entry != id
  {
    if leaves == [] || leaves[0].entry == id then 0 else IndexOf(leaves[1..], id) + 1
  }

  function AddLeaf(g: Graph, w: Work, link: Id, s: string, leaf: Leaf): Work
    requires s in w.nodes && s in g
  {
    var n := w.nodes[s];
    var at := IndexOf(n.leaves, leaf.entry);
    if at < |n.leaves| then
      w.(nodes := w.nodes[s := n.(leaves := n.leaves[at := Leaf(leaf.entry, n.leaves[at].named || leaf.named)])])
    else if PathTo(g[s].entries, leaf.entry) == [] then
      if (s, leaf.entry) in w.missing then w
      else w.(missing := w.missing + {(s, leaf.entry)}, unread := w.unread + [Unread(link, s, NoEntry(leaf.entry))])
    else w.(nodes := w.nodes[s := n.(leaves := n.leaves + [leaf])])
  }

  function AddNode(w: Work, link: Id, from: string, s: string): Work {
    if s in w.nodes then w else w.(nodes := w.nodes[s := Node(link, from, [], 0)], order := w.order + [s])
  }

  function Register(g: Graph, from: string, link: Entry, named: Option<Id>, w: Work): Work
    requires Delegates(link) && forall s | s in w.nodes :: s in g
  {
    var l := link.body.link;
    if l.session !in w.nodes && l.session !in g then
      w.(failed := w.failed + {l.session},
         unread := w.unread + [Unread(link.id, l.session, if l.url != "" then Elsewhere else NotFound)])
    else AddLeaf(g, AddNode(w, link.id, from, l.session), link.id, l.session, LeafOf(g[l.session], named))
  }

  // ----- one scan -----

  ghost predicate Resolves(g: Graph, w: Work) {
    forall s | s in w.nodes :: s in g
  }

  datatype Scanning = Scanning(w: Work, done: set<Id>)

  function StepAt(g: Graph, from: string, outputs: map<string, seq<Ref>>, p: seq<Entry>, i: nat, st: Scanning): (r: Scanning)
    requires i < |p| && Resolves(g, st.w)
    ensures Resolves(g, r.w)
  {
    if !Delegates(p[i]) || p[i].id in st.done || p[i].body.link.session in st.w.failed then st
    else Scanning(Register(g, from, p[i], Named(outputs, p, i), st.w), st.done + {p[i].id})
  }

  function ScanPath(g: Graph, from: string, outputs: map<string, seq<Ref>>, p: seq<Entry>, i: nat, st: Scanning): (r: Scanning)
    requires i <= |p| && Resolves(g, st.w)
    ensures Resolves(g, r.w)
    decreases |p| - i
  {
    if i == |p| then st else ScanPath(g, from, outputs, p, i + 1, StepAt(g, from, outputs, p, i, st))
  }

  function ScanPaths(g: Graph, from: string, outputs: map<string, seq<Ref>>, ps: seq<seq<Entry>>, k: nat, st: Scanning): (r: Scanning)
    requires k <= |ps| && Resolves(g, st.w)
    ensures Resolves(g, r.w)
    decreases |ps| - k
  {
    if k == |ps| then st else ScanPaths(g, from, outputs, ps, k + 1, ScanPath(g, from, outputs, ps[k], 0, st))
  }

  ghost function Scanned(g: Graph, from: string, ps: seq<seq<Entry>>, w: Work): (r: Work)
    requires Resolves(g, w)
    ensures Resolves(g, r)
  {
    ScanPaths(g, from, Outputs(ps), ps, 0, Scanning(w, {})).w
  }

  method Scan(g: Graph, from: string, ps: seq<seq<Entry>>, w: Work) returns (r: Work)
    requires Resolves(g, w)
    ensures r == Scanned(g, from, ps, w)
  {
    hide Outputs, StepAt, Named, Register;
    var outputs := ReadOutputs(ps);
    var st := Scanning(w, {});
    for k := 0 to |ps|
      invariant Resolves(g, st.w) && ScanPaths(g, from, outputs, ps, 0, Scanning(w, {})) == ScanPaths(g, from, outputs, ps, k, st)
    {
      var p := ps[k];
      ghost var start := st;
      for i := 0 to |p|
        invariant Resolves(g, st.w) && ScanPath(g, from, outputs, p, 0, start) == ScanPath(g, from, outputs, p, i, st)
      {
        st := StepAt(g, from, outputs, p, i, st);
      }
    }
    return st.w;
  }

  // ----- what a scan keeps -----

  function EntriesOf(leaves: seq<Leaf>): (ids: seq<Id>)
    ensures |ids| == |leaves| && forall i | 0 <= i < |ids| :: ids[i] == leaves[i].entry
  {
    seq(|leaves|, i requires 0 <= i < |leaves| => leaves[i].entry)
  }

  /** Distinct entries the child holds. */
  ghost predicate NodeOk(g: Graph, s: string, n: Node) {
    && s in g && s != "" && n.scanned <= |n.leaves|
    && (forall i, j | 0 <= i < j < |n.leaves| :: n.leaves[i].entry != n.leaves[j].entry)
    && (forall i | 0 <= i < |n.leaves| :: PathTo(g[s].entries, n.leaves[i].entry) != [])
  }

  ghost predicate Before(order: seq<string>, p: string, i: nat) {
    exists j :: 0 <= j < i && j < |order| && order[j] == p
  }

  /** Each session once. */
  ghost predicate Listed(w: Work) {
    && (forall i | 0 <= i < |w.order| :: w.order[i] in w.nodes)
    && (forall i, j | 0 <= i < j < |w.order| :: w.order[i] != w.order[j])
    && (forall s | s in w.nodes :: s in w.order)
  }

  ghost predicate NamedFrom(w: Work, i: nat, p: string) {
    p == "" || (p in w.nodes && Before(w.order, p, i))
  }

  /** After the one that named it first, which counts a leaf. */
  ghost predicate OrderOk(w: Work) {
    && Listed(w)
    && (forall i | 0 <= i < |w.order| :: NamedFrom(w, i, w.nodes[w.order[i]].parent))
    && (forall s | s in w.nodes :: MayName(w, w.nodes[s].parent))
  }

  ghost predicate MayName(w: Work, from: string) {
    from == "" || (from in w.nodes && w.nodes[from].leaves != [])
  }

  ghost predicate Inv(g: Graph, w: Work) {
    && (forall s | s in w.nodes :: NodeOk(g, s, w.nodes[s]))
    && OrderOk(w)
    && (forall s | s in w.failed :: s !in g)
    && (forall m | m in w.missing :: m.0 in g && PathTo(g[m.0].entries, m.1) == [])
  }

  /** A leaf stays where it is, and named once it is. */
  ghost predicate NamesKept(a: seq<Leaf>, b: seq<Leaf>) {
    |a| <= |b| && forall i | 0 <= i < |a| :: b[i].entry == a[i].entry && (a[i].named ==> b[i].named)
  }

  /** The leaf is among those counted, as named if it is. */
  ghost predicate CountsLeaf(leaves: seq<Leaf>, leaf: Leaf) {
    exists i :: 0 <= i < |leaves| && CountsAt(leaves, leaf, i)
  }

  ghost predicate CountsAt(leaves: seq<Leaf>, leaf: Leaf, i: nat)
    requires i < |leaves|
  {
    leaves[i].entry == leaf.entry && (leaf.named ==> leaves[i].named)
  }

  lemma CountsGrow(a: seq<Leaf>, b: seq<Leaf>, leaf: Leaf)
    requires CountsLeaf(a, leaf) && NamesKept(a, b)
    ensures CountsLeaf(b, leaf)
  {
    var i :| 0 <= i < |a| && CountsAt(a, leaf, i);
    assert CountsAt(b, leaf, i);
  }

  ghost predicate NodeGrew(n: Node, m: Node) {
    && n.link == m.link && n.parent == m.parent && n.scanned == m.scanned && EntriesOf(n.leaves) <= EntriesOf(m.leaves)
    && NamesKept(n.leaves, m.leaves)
  }

  ghost predicate Grew(w: Work, v: Work) {
    && w.order <= v.order && w.failed <= v.failed && w.missing <= v.missing && w.unread <= v.unread
    && (forall s | s in w.nodes :: s in v.nodes && NodeGrew(w.nodes[s], v.nodes[s]))
    && (forall s | s in v.nodes && s !in w.nodes :: v.nodes[s].scanned == 0)
  }

  lemma GrewOn(a: Work, b: Work, c: Work)
    requires Grew(a, b) && Grew(b, c)
    ensures Grew(a, c)
  {
    hide EntriesOf;
    forall s | s in a.nodes ensures s in c.nodes && NodeGrew(a.nodes[s], c.nodes[s]) {
      assert NodeGrew(a.nodes[s], b.nodes[s]) && NodeGrew(b.nodes[s], c.nodes[s]);
    }
    forall s | s in c.nodes && s !in a.nodes ensures c.nodes[s].scanned == 0 {
      if s in b.nodes {
        assert NodeGrew(b.nodes[s], c.nodes[s]);
      }
    }
  }

  /** The session a link names could not be read, or counts the leaf. */
  ghost predicate Settled(g: Graph, w: Work, s: string, named: Option<Id>) {
    || s in w.failed
    || (s in g && s in w.nodes
        && (CountsLeaf(w.nodes[s].leaves, LeafOf(g[s], named)) || (s, LeafOf(g[s], named).entry) in w.missing))
  }

  lemma SettledGrows(g: Graph, w: Work, v: Work, s: string, named: Option<Id>)
    requires Settled(g, w, s, named) && Grew(w, v)
    ensures Settled(g, v, s, named)
  {
    hide CountsLeaf, NamesKept;
    if s !in w.failed {
      assert NodeGrew(w.nodes[s], v.nodes[s]);
      if CountsLeaf(w.nodes[s].leaves, LeafOf(g[s], named)) {
        CountsGrow(w.nodes[s].leaves, v.nodes[s].leaves, LeafOf(g[s], named));
      }
    }
  }

  lemma AddNodeKeeps(g: Graph, w: Work, link: Id, from: string, s: string)
    requires Inv(g, w) && MayName(w, from) && s in g && s != ""
    ensures Inv(g, AddNode(w, link, from, s)) && Grew(w, AddNode(w, link, from, s)) && s in AddNode(w, link, from, s).nodes
  {
    hide OrderOk, NodeGrew, MayName;
    SameNodes(w);
    if s !in w.nodes {
      AddNodeOrder(w, link, from, s);
    }
  }

  lemma AddNodeOrder(w: Work, link: Id, from: string, s: string)
    requires OrderOk(w) && MayName(w, from) && s !in w.nodes && s != ""
    ensures OrderOk(AddNode(w, link, from, s))
  {
    hide Before;
    var v := AddNode(w, link, from, s);
    forall i | 0 <= i < |v.order| ensures v.order[i] in v.nodes && NamedFrom(v, i, v.nodes[v.order[i]].parent) {
      if i < |w.order| {
        assert v.order[i] == w.order[i] && NamedFrom(w, i, w.nodes[w.order[i]].parent);
        NamedLonger(w, v, s, i, w.nodes[w.order[i]].parent);
      } else {
        Foremost(w, from);
        NamedLonger(w, v, s, i, from);
      }
    }
    AddNodeListed(w, link, from, s);
  }

  lemma AddNodeListed(w: Work, link: Id, from: string, s: string)
    requires Listed(w) && s !in w.nodes
    ensures Listed(AddNode(w, link, from, s))
  {
    var v := AddNode(w, link, from, s);
    forall x | x in v.nodes ensures x in v.order {
      assert x != s ==> x in w.order;
    }
    forall i, j | 0 <= i < j < |v.order| ensures v.order[i] != v.order[j] {
      assert v.order[i] == w.order[i];
    }
  }

  lemma Foremost(w: Work, from: string)
    requires Listed(w) && MayName(w, from)
    ensures NamedFrom(w, |w.order|, from)
  {
    if from != "" {
      var j :| 0 <= j < |w.order| && w.order[j] == from;
    }
  }

  lemma NamedLonger(w: Work, v: Work, s: string, i: nat, p: string)
    requires i <= |w.order| && NamedFrom(w, i, p) && v.order == w.order + [s] && w.nodes.Keys <= v.nodes.Keys
    ensures NamedFrom(v, i, p)
  {
    if p != "" {
      var j :| 0 <= j < i && j < |w.order| && w.order[j] == p;
      assert v.order[j] == p;
    }
  }

  /** A node that keeps its place and only gains leaves keeps all else. */
  lemma NodeKeeps(g: Graph, w: Work, s: string, n: Node)
    requires Inv(g, w) && s in w.nodes && NodeOk(g, s, n) && NodeGrew(w.nodes[s], n)
    ensures Inv(g, w.(nodes := w.nodes[s := n])) && Grew(w, w.(nodes := w.nodes[s := n]))
  {
    hide OrderOk, NodeGrew, NodeOk;
    SameNodes(w);
    NodeGrewCounts(w.nodes[s], n);
    OrderKeeps(w, s, n);
  }

  lemma NodeGrewCounts(n: Node, m: Node)
    requires NodeGrew(n, m)
    ensures m.parent == n.parent && (n.leaves != [] ==> m.leaves != [])
  {
    assert |EntriesOf(n.leaves)| <= |EntriesOf(m.leaves)|;
  }

  lemma OrderKeeps(w: Work, s: string, n: Node)
    requires OrderOk(w) && s in w.nodes && n.parent == w.nodes[s].parent && (w.nodes[s].leaves != [] ==> n.leaves != [])
    ensures OrderOk(w.(nodes := w.nodes[s := n]))
  {
    hide Before;
    var v := w.(nodes := w.nodes[s := n]);
    assert v.nodes.Keys == w.nodes.Keys;
    forall x | x in v.nodes ensures MayName(v, v.nodes[x].parent) {
      assert MayName(w, w.nodes[x].parent);
    }
    forall i | 0 <= i < |v.order| ensures NamedFrom(v, i, v.nodes[v.order[i]].parent) {
      assert NamedFrom(w, i, w.nodes[w.order[i]].parent);
    }
  }

  lemma AddLeafKeeps(g: Graph, w: Work, link: Id, s: string, leaf: Leaf)
    requires Inv(g, w) && s in w.nodes && s in g
    ensures var v := AddLeaf(g, w, link, s, leaf);
            Inv(g, v) && Grew(w, v) && s in v.nodes && (CountsLeaf(v.nodes[s].leaves, leaf) || (s, leaf.entry) in v.missing)
  {
    hide OrderOk, NodeOk, NodeGrew, EntriesOf, CountsLeaf;
    var n := w.nodes[s];
    var at := IndexOf(n.leaves, leaf.entry);
    SameNodes(w);
    if at < |n.leaves| {
      var m := n.(leaves := n.leaves[at := Leaf(leaf.entry, n.leaves[at].named || leaf.named)]);
      LeafNamed(g, s, n, leaf, at);
      NodeKeeps(g, w, s, m);
    } else if PathTo(g[s].entries, leaf.entry) != [] {
      LeafAdded(g, s, n, leaf);
      NodeKeeps(g, w, s, n.(leaves := n.leaves + [leaf]));
    } else {
      OtherwiseSame(w, AddLeaf(g, w, link, s, leaf));
    }
  }

  lemma OtherwiseSame(w: Work, v: Work)
    requires OrderOk(w) && v.nodes == w.nodes && v.order == w.order
    ensures OrderOk(v)
  {
    hide Before;
    forall i | 0 <= i < |v.order| ensures v.order[i] in v.nodes && NamedFrom(v, i, v.nodes[v.order[i]].parent) {
      assert NamedFrom(w, i, w.nodes[w.order[i]].parent);
    }
    forall s | s in v.nodes ensures MayName(v, v.nodes[s].parent) {
      assert MayName(w, w.nodes[s].parent);
    }
  }

  lemma LeafNamed(g: Graph, s: string, n: Node, leaf: Leaf, at: nat)
    requires NodeOk(g, s, n) && at < |n.leaves| && n.leaves[at].entry == leaf.entry
    ensures var m := n.(leaves := n.leaves[at := Leaf(leaf.entry, n.leaves[at].named || leaf.named)]);
            NodeOk(g, s, m) && NodeGrew(n, m) && CountsLeaf(m.leaves, leaf)
  {
    var m := n.(leaves := n.leaves[at := Leaf(leaf.entry, n.leaves[at].named || leaf.named)]);
    assert EntriesOf(m.leaves) == EntriesOf(n.leaves);
    assert CountsAt(m.leaves, leaf, at);
  }

  lemma LeafAdded(g: Graph, s: string, n: Node, leaf: Leaf)
    requires NodeOk(g, s, n) && PathTo(g[s].entries, leaf.entry) != [] && IndexOf(n.leaves, leaf.entry) == |n.leaves|
    ensures var m := n.(leaves := n.leaves + [leaf]); NodeOk(g, s, m) && NodeGrew(n, m) && CountsLeaf(m.leaves, leaf)
  {
    var m := n.(leaves := n.leaves + [leaf]);
    assert EntriesOf(m.leaves) == EntriesOf(n.leaves) + [leaf.entry];
    assert CountsAt(m.leaves, leaf, |n.leaves|);
  }

  lemma RegisterKeeps(g: Graph, from: string, link: Entry, named: Option<Id>, w: Work)
    requires Inv(g, w) && MayName(w, from) && Delegates(link)
    ensures Resolves(g, w)
    ensures var v := Register(g, from, link, named, w);
            Inv(g, v) && Grew(w, v) && MayName(v, from) && Settled(g, v, link.body.link.session, named)
  {
    hide OrderOk, NodeGrew, AddLeaf, AddNode;
    var s := link.body.link.session;
    var v := Register(g, from, link, named, w);
    NodesResolve(g, w);
    if s !in w.nodes && s !in g {
      FailKeeps(g, w, v, s);
    } else {
      var u := AddNode(w, link.id, from, s);
      AddNodeKeeps(g, w, link.id, from, s);
      AddLeafKeeps(g, u, link.id, s, LeafOf(g[s], named));
      GrewOn(w, u, v);
    }
    StillNames(w, v, from);
  }

  lemma FailKeeps(g: Graph, w: Work, v: Work, s: string)
    requires Inv(g, w) && s !in g && v == w.(failed := w.failed + {s}, unread := v.unread) && w.unread <= v.unread
    ensures Inv(g, v) && Grew(w, v)
  {
    SameNodes(w);
  }

  lemma NodesResolve(g: Graph, w: Work)
    requires Inv(g, w)
    ensures Resolves(g, w)
  {}

  lemma SameNodes(w: Work)
    ensures forall s | s in w.nodes :: NodeGrew(w.nodes[s], w.nodes[s])
  {}

  lemma StillNames(w: Work, v: Work, from: string)
    requires Grew(w, v) && MayName(w, from)
    ensures MayName(v, from)
  {
    if from != "" {
      assert NodeGrew(w.nodes[from], v.nodes[from]);
      assert |EntriesOf(w.nodes[from].leaves)| <= |EntriesOf(v.nodes[from].leaves)|;
    }
  }

  // ----- a scan settles every link it reads -----

  /** A scan meets positions path by path. */
  predicate Earlier(k: nat, i: nat, m: nat, j: nat) {
    k < m || (k == m && i < j)
  }

  predicate LinkAt(ps: seq<seq<Entry>>, k: nat, i: nat, id: Id) {
    k < |ps| && i < |ps[k]| && Delegates(ps[k][i]) && ps[k][i].id == id
  }

  /** A link with the id stands before (m, j). */
  ghost predicate MetBefore(ps: seq<seq<Entry>>, m: nat, j: nat, id: Id) {
    exists k: nat, i: nat :: LinkAt(ps, k, i, id) && Earlier(k, i, m, j)
  }

  /** ps[k][i] is a subsession link, met there first. */
  ghost predicate FirstMet(ps: seq<seq<Entry>>, k: nat, i: nat) {
    k < |ps| && i < |ps[k]| && Delegates(ps[k][i]) && !MetBefore(ps, k, i, ps[k][i].id)
  }

  /** A link first met there counts its leaf. */
  ghost predicate SettledAt(g: Graph, w: Work, outputs: map<string, seq<Ref>>, ps: seq<seq<Entry>>, k: nat, i: nat) {
    FirstMet(ps, k, i) ==> Settled(g, w, ps[k][i].body.link.session, Named(outputs, ps[k], i))
  }

  /** Every link on the paths is settled where it is first met. */
  ghost predicate Covered(g: Graph, w: Work, ps: seq<seq<Entry>>) {
    forall k, i | 0 <= k < |ps| && 0 <= i < |ps[k]| :: SettledAt(g, w, Outputs(ps), ps, k, i)
  }

  lemma SettledAtGrows(g: Graph, w: Work, v: Work, outputs: map<string, seq<Ref>>, ps: seq<seq<Entry>>, k: nat, i: nat)
    requires SettledAt(g, w, outputs, ps, k, i) && Grew(w, v)
    ensures SettledAt(g, v, outputs, ps, k, i)
  {
    hide Named, Settled, Grew, MetBefore;
    if FirstMet(ps, k, i) {
      SettledGrows(g, w, v, ps[k][i].body.link.session, Named(outputs, ps[k], i));
    }
  }

  lemma CoveredGrows(g: Graph, w: Work, v: Work, ps: seq<seq<Entry>>)
    requires Covered(g, w, ps) && Grew(w, v)
    ensures Covered(g, v, ps)
  {
    hide SettledAt, Grew;
    forall k, i | 0 <= k < |ps| && 0 <= i < |ps[k]| ensures SettledAt(g, v, Outputs(ps), ps, k, i) {
      SettledAtGrows(g, w, v, Outputs(ps), ps, k, i);
    }
  }

  /** Only links met so far are done. */
  ghost predicate DoneOk(ps: seq<seq<Entry>>, k: nat, i: nat, done: set<Id>) {
    forall id | id in done :: MetBefore(ps, k, i, id)
  }

  ghost predicate ScanInv(g: Graph, from: string, ps: seq<seq<Entry>>, k: nat, i: nat, st: Scanning) {
    Inv(g, st.w) && MayName(st.w, from) && DoneOk(ps, k, i, st.done)
  }

  lemma DoneOn(ps: seq<seq<Entry>>, k: nat, i: nat, m: nat, j: nat, done: set<Id>)
    requires DoneOk(ps, k, i, done)
    requires forall k1: nat, i1: nat, id | LinkAt(ps, k1, i1, id) && Earlier(k1, i1, k, i) :: Earlier(k1, i1, m, j)
    ensures DoneOk(ps, m, j, done)
  {
    hide LinkAt, Earlier;
    forall id | id in done ensures MetBefore(ps, m, j, id) {
      assert MetBefore(ps, k, i, id);
      var k1: nat, i1: nat :| LinkAt(ps, k1, i1, id) && Earlier(k1, i1, k, i);
      assert Earlier(k1, i1, m, j);
    }
  }

  lemma NowMet(ps: seq<seq<Entry>>, k: nat, i: nat)
    requires k < |ps| && i < |ps[k]| && Delegates(ps[k][i])
    ensures MetBefore(ps, k, i + 1, ps[k][i].id)
  {
    assert LinkAt(ps, k, i, ps[k][i].id) && Earlier(k, i, k, i + 1);
  }

  lemma StepKeeps(g: Graph, from: string, outputs: map<string, seq<Ref>>, ps: seq<seq<Entry>>, k: nat, i: nat, st: Scanning)
    requires k < |ps| && i < |ps[k]| && ScanInv(g, from, ps, k, i, st)
    ensures Resolves(g, st.w)
    ensures var r := StepAt(g, from, outputs, ps[k], i, st);
            ScanInv(g, from, ps, k, i + 1, r) && Grew(st.w, r.w) && SettledAt(g, r.w, outputs, ps, k, i)
  {
    hide Inv, Grew, MayName, Register, Named, MetBefore;
    NodesResolve(g, st.w);
    var p := ps[k];
    var r := StepAt(g, from, outputs, p, i, st);
    DoneOn(ps, k, i, k, i + 1, st.done);
    if Delegates(p[i]) && p[i].id !in st.done && p[i].body.link.session !in st.w.failed {
      RegisterKeeps(g, from, p[i], Named(outputs, p, i), st.w);
      NowMet(ps, k, i);
    } else {
      GrewNone(st.w);
    }
  }

  lemma GrewNone(w: Work)
    ensures Grew(w, w)
  {}

  lemma {:induction false} PathKeeps(g: Graph, from: string, outputs: map<string, seq<Ref>>, ps: seq<seq<Entry>>, k: nat, i: nat, st: Scanning)
    requires k < |ps| && i <= |ps[k]| && ScanInv(g, from, ps, k, i, st)
    ensures Resolves(g, st.w)
    ensures var r := ScanPath(g, from, outputs, ps[k], i, st);
            ScanInv(g, from, ps, k + 1, 0, r) && Grew(st.w, r.w) && forall j | i <= j < |ps[k]| :: SettledAt(g, r.w, outputs, ps, k, j)
    decreases |ps[k]| - i
  {
    NodesResolve(g, st.w);
    if i < |ps[k]| {
      hide ScanInv, Grew, StepAt, SettledAt, Inv;
      StepKeeps(g, from, outputs, ps, k, i, st);
      var next := StepAt(g, from, outputs, ps[k], i, st);
      PathKeeps(g, from, outputs, ps, k, i + 1, next);
      var r := ScanPath(g, from, outputs, ps[k], i + 1, next);
      GrewOn(st.w, next.w, r.w);
      SettledAtGrows(g, next.w, r.w, outputs, ps, k, i);
    } else {
      hide Inv;
      GrewNone(st.w);
      DoneOn(ps, k, i, k + 1, 0, st.done);
    }
  }

  lemma {:induction false} PathsKeep(g: Graph, from: string, outputs: map<string, seq<Ref>>, ps: seq<seq<Entry>>, k: nat, st: Scanning)
    requires k <= |ps| && ScanInv(g, from, ps, k, 0, st)
    ensures Resolves(g, st.w)
    ensures var r := ScanPaths(g, from, outputs, ps, k, st);
            Inv(g, r.w) && Grew(st.w, r.w) && forall m, j | k <= m < |ps| && 0 <= j < |ps[m]| :: SettledAt(g, r.w, outputs, ps, m, j)
    decreases |ps| - k
  {
    NodesResolve(g, st.w);
    if k < |ps| {
      hide ScanInv, Grew, ScanPath, SettledAt, Inv;
      PathKeeps(g, from, outputs, ps, k, 0, st);
      var next := ScanPath(g, from, outputs, ps[k], 0, st);
      PathsKeep(g, from, outputs, ps, k + 1, next);
      var r := ScanPaths(g, from, outputs, ps, k + 1, next);
      GrewOn(st.w, next.w, r.w);
      forall j | 0 <= j < |ps[k]| ensures SettledAt(g, r.w, outputs, ps, k, j) {
        SettledAtGrows(g, next.w, r.w, outputs, ps, k, j);
      }
    } else {
      GrewNone(st.w);
    }
  }

  /** A scan keeps the worklist well formed, loses nothing, and settles every
      link on its paths. */
  lemma ScanCovers(g: Graph, from: string, ps: seq<seq<Entry>>, w: Work)
    requires Inv(g, w) && MayName(w, from)
    ensures Resolves(g, w)
    ensures var v := Scanned(g, from, ps, w); Inv(g, v) && Grew(w, v) && Covered(g, v, ps)
  {
    hide Inv, Grew, MayName, ScanPaths, SettledAt;
    PathsKeep(g, from, Outputs(ps), ps, 0, Scanning(w, {}));
  }

  // ----- nothing else is counted -----

  function PathsOf(g: Graph, s: string, ids: seq<Id>): seq<seq<Entry>>
    requires s in g
  {
    seq(|ids|, i requires 0 <= i < |ids| => PathTo(g[s].entries, ids[i]))
  }

  /** Paths a scan read: the path, or those to the first leaves a node counts. */
  ghost predicate Scans(g: Graph, path: seq<Entry>, w: Work, from: string, ps: seq<seq<Entry>>) {
    if from == "" then ps == [path]
    else
      && from in w.nodes && from in g
      && exists m: nat :: m <= |w.nodes[from].leaves| && ps == PathsOf(g, from, EntriesOf(w.nodes[from].leaves)[..m])
  }

  ghost predicate LinkOn(g: Graph, path: seq<Entry>, w: Work, s: string, from: string, ps: seq<seq<Entry>>, k: nat, i: nat) {
    Scans(g, path, w, from, ps) && k < |ps| && i < |ps[k]| && Delegates(ps[k][i]) && ps[k][i].body.link.session == s
  }

  ghost predicate NodeBy(g: Graph, path: seq<Entry>, w: Work, s: string, ps: seq<seq<Entry>>, k: nat, i: nat)
    requires s in w.nodes
  {
    LinkOn(g, path, w, s, w.nodes[s].parent, ps, k, i) && ps[k][i].id == w.nodes[s].link
  }

  ghost predicate LeafBy(g: Graph, path: seq<Entry>, w: Work, s: string, leaf: Leaf, from: string, ps: seq<seq<Entry>>, k: nat, i: nat) {
    s in g && LinkOn(g, path, w, s, from, ps, k, i) && leaf == LeafOf(g[s], Named(Outputs(ps), ps[k], i))
  }

  /** Why the session a link names, or its leaf, could not be read. */
  ghost predicate UnreadFor(g: Graph, outputs: map<string, seq<Ref>>, p: seq<Entry>, i: nat, u: Unread)
    requires i < |p| && Delegates(p[i])
  {
    var l := p[i].body.link;
    && u.session == l.session && u.link == p[i].id
    && match u.why
       case Elsewhere => l.session !in g && l.url != ""
       case NotFound => l.session !in g && l.url == ""
       case NoEntry(leaf) =>
         l.session in g && leaf == LeafOf(g[l.session], Named(outputs, p, i)).entry && PathTo(g[l.session].entries, leaf) == []
  }

  ghost predicate UnreadBy(g: Graph, path: seq<Entry>, w: Work, u: Unread, from: string, ps: seq<seq<Entry>>, k: nat, i: nat) {
    LinkOn(g, path, w, u.session, from, ps, k, i) && UnreadFor(g, Outputs(ps), ps[k], i, u)
  }

  ghost predicate NodeJustified(g: Graph, path: seq<Entry>, w: Work, s: string)
    requires s in w.nodes
  {
    exists ps, k: nat, i: nat :: NodeBy(g, path, w, s, ps, k, i)
  }

  ghost predicate LeafJustified(g: Graph, path: seq<Entry>, w: Work, s: string, leaf: Leaf) {
    exists from, ps, k: nat, i: nat :: LeafBy(g, path, w, s, leaf, from, ps, k, i)
  }

  ghost predicate UnreadJustified(g: Graph, path: seq<Entry>, w: Work, u: Unread) {
    exists from, ps, k: nat, i: nat :: UnreadBy(g, path, w, u, from, ps, k, i)
  }

  /** Every node was named by a subsession link on paths a scan read, and every
      leaf it counts, or misses, is one such a link names. */
  ghost predicate Justified(g: Graph, path: seq<Entry>, w: Work) {
    && (forall s | s in w.nodes :: NodeJustified(g, path, w, s))
    && (forall s | s in w.nodes :: forall i | 0 <= i < |w.nodes[s].leaves| :: LeafJustified(g, path, w, s, w.nodes[s].leaves[i]))
    && (forall i | 0 <= i < |w.unread| :: UnreadJustified(g, path, w, w.unread[i]))
    && Reported(w)
  }

  ghost predicate Reports(w: Work, u: Unread) {
    match u.why
    case NoEntry(leaf) => (u.session, leaf) in w.missing
    case _ => u.session in w.failed
  }

  ghost predicate SameReport(u: Unread, v: Unread) {
    u.session == v.session && if u.why.NoEntry? then u.why == v.why else !v.why.NoEntry?
  }

  /** What could not be read is reported once, and nothing else. */
  ghost predicate Reported(w: Work) {
    && (forall i, j | 0 <= i < j < |w.unread| :: !SameReport(w.unread[i], w.unread[j]))
    && (forall i | 0 <= i < |w.unread| :: Reports(w, w.unread[i]))
    && (forall s | s in w.failed :: exists i :: 0 <= i < |w.unread| && w.unread[i].session == s && !w.unread[i].why.NoEntry?)
    && (forall m | m in w.missing :: exists i :: 0 <= i < |w.unread| && w.unread[i].session == m.0 && w.unread[i].why == NoEntry(m.1))
  }

  lemma ScansGrow(g: Graph, path: seq<Entry>, w: Work, v: Work, from: string, ps: seq<seq<Entry>>)
    requires Scans(g, path, w, from, ps) && Grew(w, v)
    ensures Scans(g, path, v, from, ps)
  {
    if from != "" {
      assert NodeGrew(w.nodes[from], v.nodes[from]);
      var (a, b) := (EntriesOf(w.nodes[from].leaves), EntriesOf(v.nodes[from].leaves));
      var m: nat :| m <= |w.nodes[from].leaves| && ps == PathsOf(g, from, a[..m]);
      assert a[..m] == b[..m];
    }
  }

  /** What a scan of w read, one of v could have. */
  ghost predicate ScansKept(g: Graph, path: seq<Entry>, w: Work, v: Work) {
    forall from, ps | Scans(g, path, w, from, ps) :: Scans(g, path, v, from, ps)
  }

  lemma ScansAllGrow(g: Graph, path: seq<Entry>, w: Work, v: Work)
    requires Grew(w, v)
    ensures ScansKept(g, path, w, v)
  {
    hide Scans, Grew;
    forall from, ps | Scans(g, path, w, from, ps) ensures Scans(g, path, v, from, ps) {
      ScansGrow(g, path, w, v, from, ps);
    }
  }

  lemma PlacesKept(w: Work, v: Work)
    requires Grew(w, v)
    ensures forall s | s in w.nodes :: s in v.nodes && v.nodes[s].link == w.nodes[s].link && v.nodes[s].parent == w.nodes[s].parent
  {
    hide EntriesOf, NamesKept;
    forall s | s in w.nodes ensures s in v.nodes && v.nodes[s].link == w.nodes[s].link && v.nodes[s].parent == w.nodes[s].parent {
      assert NodeGrew(w.nodes[s], v.nodes[s]);
    }
  }

  lemma NodeJustifiedGrows(g: Graph, path: seq<Entry>, w: Work, v: Work, s: string)
    requires s in w.nodes && NodeJustified(g, path, w, s) && ScansKept(g, path, w, v)
    requires s in v.nodes && v.nodes[s].link == w.nodes[s].link && v.nodes[s].parent == w.nodes[s].parent
    ensures NodeJustified(g, path, v, s)
  {
    hide Scans;
    var ps, k: nat, i: nat :| NodeBy(g, path, w, s, ps, k, i);
    assert NodeBy(g, path, v, s, ps, k, i);
  }

  lemma LeafJustifiedGrows(g: Graph, path: seq<Entry>, w: Work, v: Work, s: string, leaf: Leaf)
    requires LeafJustified(g, path, w, s, leaf) && ScansKept(g, path, w, v)
    ensures LeafJustified(g, path, v, s, leaf)
  {
    hide Scans, Named, Outputs, LeafOf;
    var from, ps, k: nat, i: nat :| LeafBy(g, path, w, s, leaf, from, ps, k, i);
    assert LeafBy(g, path, v, s, leaf, from, ps, k, i);
  }

  lemma UnreadGrows(g: Graph, path: seq<Entry>, w: Work, v: Work, u: Unread)
    requires UnreadJustified(g, path, w, u) && ScansKept(g, path, w, v)
    ensures UnreadJustified(g, path, v, u)
  {
    hide Scans, UnreadFor, Outputs;
    var from, ps, k: nat, i: nat :| UnreadBy(g, path, w, u, from, ps, k, i);
    assert UnreadBy(g, path, v, u, from, ps, k, i);
  }

  /** The leaf at a place was counted before, or is the one registered. */
  ghost predicate LeafStays(w: Work, s: string, leaf: Leaf) {
    s in w.nodes && leaf in w.nodes[s].leaves
  }

  /** What registering the link p[i] can add. */
  ghost predicate Adds(g: Graph, from: string, outputs: map<string, seq<Ref>>, p: seq<Entry>, i: nat, w: Work, v: Work)
    requires i < |p| && Delegates(p[i])
  {
    var s := p[i].body.link.session;
    && (forall x | x in v.nodes && x !in w.nodes :: x == s && v.nodes[x].link == p[i].id && v.nodes[x].parent == from)
    && (forall x, j | x in v.nodes && 0 <= j < |v.nodes[x].leaves| ::
          LeafStays(w, x, v.nodes[x].leaves[j]) || (x == s && s in g && v.nodes[x].leaves[j] == LeafOf(g[s], Named(outputs, p, i))))
    && (forall j | 0 <= j < |v.unread| :: v.unread[j] in w.unread || UnreadFor(g, outputs, p, i, v.unread[j]))
  }

  lemma RegisterAdds(g: Graph, from: string, outputs: map<string, seq<Ref>>, p: seq<Entry>, i: nat, w: Work)
    requires i < |p| && Delegates(p[i]) && Resolves(g, w) && p[i].body.link.session !in w.failed
    ensures var v := Register(g, from, p[i], Named(outputs, p, i), w);
            Adds(g, from, outputs, p, i, w, v) && (Reported(w) ==> Reported(v))
  {
    var (l, named) := (p[i].body.link, Named(outputs, p, i));
    if l.session in w.nodes || l.session in g {
      NodeAdds(g, from, outputs, p, i, w);
    } else {
      hide LeafOf, Reported, PathTo, Named, AddLeaf, AddNode;
      var v := Register(g, from, p[i], named, w);
      ReportedOn(w, v, v.unread[|w.unread|]);
      forall x, j | x in v.nodes && 0 <= j < |v.nodes[x].leaves| ensures LeafStays(w, x, v.nodes[x].leaves[j]) {
      }
    }
  }

  lemma NodeAdds(g: Graph, from: string, outputs: map<string, seq<Ref>>, p: seq<Entry>, i: nat, w: Work)
    requires i < |p| && Delegates(p[i]) && Resolves(g, w) && p[i].body.link.session !in w.failed && p[i].body.link.session in g
    ensures var s := p[i].body.link.session;
            var v := AddLeaf(g, AddNode(w, p[i].id, from, s), p[i].id, s, LeafOf(g[s], Named(outputs, p, i)));
            Adds(g, from, outputs, p, i, w, v) && (Reported(w) ==> Reported(v))
  {
    hide Named, LeafOf, Reported, PathTo;
    var s := p[i].body.link.session;
    var (u, leaf) := (AddNode(w, p[i].id, from, s), LeafOf(g[s], Named(outputs, p, i)));
    AddLeafAdds(g, u, p[i].id, s, leaf);
    ReportedAs(w, u);
    hide AddLeaf;
    var v := AddLeaf(g, u, p[i].id, s, leaf);
    forall x, j | x in v.nodes && 0 <= j < |v.nodes[x].leaves| ensures LeafStays(w, x, v.nodes[x].leaves[j]) || (x == s && v.nodes[x].leaves[j] == leaf) {
      assert v.nodes[x].leaves[j] in u.nodes[x].leaves || (x == s && v.nodes[x].leaves[j] == leaf);
    }
  }

  lemma ReportedAs(w: Work, v: Work)
    requires v.unread == w.unread && v.failed == w.failed && v.missing == w.missing
    ensures Reported(w) ==> Reported(v)
  {}

  lemma ReportedOn(w: Work, v: Work, u: Unread)
    requires if u.why.NoEntry? then (u.session, u.why.leaf) !in w.missing else u.session !in w.failed
    requires v.unread == w.unread + [u]
    requires v.failed == w.failed + if u.why.NoEntry? then {} else {u.session}
    requires v.missing == w.missing + if u.why.NoEntry? then {(u.session, u.why.leaf)} else {}
    ensures Reported(w) ==> Reported(v)
  {
    if Reported(w) {
      assert forall i | 0 <= i < |w.unread| :: v.unread[i] == w.unread[i];
      assert v.unread[|w.unread|] == u;
      forall i | 0 <= i < |v.unread| ensures Reports(v, v.unread[i]) {
        assert i < |w.unread| ==> Reports(w, w.unread[i]);
      }
      forall s | s in v.failed ensures exists i :: 0 <= i < |v.unread| && v.unread[i].session == s && !v.unread[i].why.NoEntry? {
        if s in w.failed {
          var i :| 0 <= i < |w.unread| && w.unread[i].session == s && !w.unread[i].why.NoEntry?;
          assert v.unread[i].session == s;
        }
      }
      forall m | m in v.missing ensures exists i :: 0 <= i < |v.unread| && v.unread[i].session == m.0 && v.unread[i].why == NoEntry(m.1) {
        if m in w.missing {
          var i :| 0 <= i < |w.unread| && w.unread[i].session == m.0 && w.unread[i].why == NoEntry(m.1);
          assert v.unread[i].session == m.0;
        }
      }
    }
  }

  lemma AddLeafAdds(g: Graph, w: Work, link: Id, s: string, leaf: Leaf)
    requires s in w.nodes && s in g
    ensures var v := AddLeaf(g, w, link, s, leaf);
            && v.nodes.Keys == w.nodes.Keys && v.failed == w.failed
            && (forall x | x in v.nodes :: v.nodes[x].link == w.nodes[x].link && v.nodes[x].parent == w.nodes[x].parent)
            && (forall x, i | x in v.nodes && 0 <= i < |v.nodes[x].leaves| ::
                  v.nodes[x].leaves[i] in w.nodes[x].leaves || (x == s && v.nodes[x].leaves[i] == leaf))
            && (forall j | 0 <= j < |v.unread| :: v.unread[j] in w.unread || (v.unread[j] == Unread(link, s, NoEntry(leaf.entry)) && PathTo(g[s].entries, leaf.entry) == []))
            && (Reported(w) ==> Reported(v))
  {
    var n := w.nodes[s];
    var at := IndexOf(n.leaves, leaf.entry);
    var v := AddLeaf(g, w, link, s, leaf);
    hide Reported, PathTo;
    if v.unread == w.unread {
      ReportedAs(w, v);
    } else {
      ReportedOn(w, v, v.unread[|w.unread|]);
    }
    if at < |n.leaves| {
      assert n.leaves[at] in n.leaves;
    }
  }

  lemma JustifiedGrows(g: Graph, path: seq<Entry>, w: Work, v: Work, from: string, ps: seq<seq<Entry>>, k: nat, i: nat)
    requires Justified(g, path, w) && Grew(w, v) && Scans(g, path, w, from, ps)
    requires k < |ps| && i < |ps[k]| && Delegates(ps[k][i]) && Adds(g, from, Outputs(ps), ps[k], i, w, v) && Reported(v)
    ensures Justified(g, path, v)
  {
    hide Scans, ScansKept, Grew, Named, Outputs, LeafOf, Reported, UnreadFor, NodeJustified, LeafJustified;
    ScansGrow(g, path, w, v, from, ps);
    ScansAllGrow(g, path, w, v);
    PlacesKept(w, v);
    var s := ps[k][i].body.link.session;
    assert LinkOn(g, path, v, s, from, ps, k, i);
    forall x | x in v.nodes ensures NodeJustified(g, path, v, x) {
      if x in w.nodes {
        NodeJustifiedGrows(g, path, w, v, x);
      } else {
        NodeHere(g, path, v, x, ps, k, i);
      }
    }
    forall x, j | x in v.nodes && 0 <= j < |v.nodes[x].leaves| ensures LeafJustified(g, path, v, x, v.nodes[x].leaves[j]) {
      var leaf := v.nodes[x].leaves[j];
      if LeafStays(w, x, leaf) {
        var b :| 0 <= b < |w.nodes[x].leaves| && w.nodes[x].leaves[b] == leaf;
        LeafJustifiedGrows(g, path, w, v, x, leaf);
      } else {
        LeafHere(g, path, v, x, leaf, from, ps, k, i);
      }
    }
    forall j | 0 <= j < |v.unread| ensures UnreadJustified(g, path, v, v.unread[j]) {
      if v.unread[j] in w.unread {
        var b :| 0 <= b < |w.unread| && w.unread[b] == v.unread[j];
        UnreadGrows(g, path, w, v, w.unread[b]);
      } else {
        UnreadHere(g, path, v, v.unread[j], from, ps, k, i);
      }
    }
  }

  lemma NodeHere(g: Graph, path: seq<Entry>, w: Work, s: string, ps: seq<seq<Entry>>, k: nat, i: nat)
    requires s in w.nodes && NodeBy(g, path, w, s, ps, k, i)
    ensures NodeJustified(g, path, w, s)
  {}

  lemma LeafHere(g: Graph, path: seq<Entry>, w: Work, s: string, leaf: Leaf, from: string, ps: seq<seq<Entry>>, k: nat, i: nat)
    requires LeafBy(g, path, w, s, leaf, from, ps, k, i)
    ensures LeafJustified(g, path, w, s, leaf)
  {}

  lemma UnreadHere(g: Graph, path: seq<Entry>, w: Work, u: Unread, from: string, ps: seq<seq<Entry>>, k: nat, i: nat)
    requires Scans(g, path, w, from, ps) && k < |ps| && i < |ps[k]| && Delegates(ps[k][i]) && UnreadFor(g, Outputs(ps), ps[k], i, u)
    ensures UnreadJustified(g, path, w, u)
  {
    assert UnreadBy(g, path, w, u, from, ps, k, i);
  }

  lemma StepJustified(g: Graph, path: seq<Entry>, from: string, ps: seq<seq<Entry>>, k: nat, i: nat, st: Scanning)
    requires k < |ps| && i < |ps[k]| && ScanInv(g, from, ps, k, i, st)
    requires Justified(g, path, st.w) && Scans(g, path, st.w, from, ps)
    ensures Resolves(g, st.w) && Justified(g, path, StepAt(g, from, Outputs(ps), ps[k], i, st).w)
  {
    hide ScanInv, Justified, Grew, Named, Outputs, Scans, Register, SettledAt, Adds;
    StepKeeps(g, from, Outputs(ps), ps, k, i, st);
    if StepAt(g, from, Outputs(ps), ps[k], i, st) != st {
      RegisterAdds(g, from, Outputs(ps), ps[k], i, st.w);
      JustifiedReports(g, path, st.w);
      JustifiedGrows(g, path, st.w, Register(g, from, ps[k][i], Named(Outputs(ps), ps[k], i), st.w), from, ps, k, i);
    }
  }

  lemma JustifiedReports(g: Graph, path: seq<Entry>, w: Work)
    requires Justified(g, path, w)
    ensures Reported(w)
  {}

  lemma {:induction false} PathJustified(g: Graph, path: seq<Entry>, from: string, ps: seq<seq<Entry>>, k: nat, i: nat, st: Scanning)
    requires k < |ps| && i <= |ps[k]| && ScanInv(g, from, ps, k, i, st)
    requires Justified(g, path, st.w) && Scans(g, path, st.w, from, ps)
    ensures Resolves(g, st.w) && Justified(g, path, ScanPath(g, from, Outputs(ps), ps[k], i, st).w)
    decreases |ps[k]| - i
  {
    hide ScanInv, Justified, Scans, StepAt, Grew, Outputs, SettledAt;
    PathKeeps(g, from, Outputs(ps), ps, k, i, st);
    if i < |ps[k]| {
      StepKeeps(g, from, Outputs(ps), ps, k, i, st);
      StepJustified(g, path, from, ps, k, i, st);
      var next := StepAt(g, from, Outputs(ps), ps[k], i, st);
      ScansGrow(g, path, st.w, next.w, from, ps);
      PathJustified(g, path, from, ps, k, i + 1, next);
    }
  }

  lemma {:induction false} PathsJustified(g: Graph, path: seq<Entry>, from: string, ps: seq<seq<Entry>>, k: nat, st: Scanning)
    requires k <= |ps| && ScanInv(g, from, ps, k, 0, st)
    requires Justified(g, path, st.w) && Scans(g, path, st.w, from, ps)
    ensures Resolves(g, st.w) && Justified(g, path, ScanPaths(g, from, Outputs(ps), ps, k, st).w)
    decreases |ps| - k
  {
    hide ScanInv, Justified, Scans, ScanPath, Grew, Outputs, SettledAt;
    PathsKeep(g, from, Outputs(ps), ps, k, st);
    if k < |ps| {
      PathKeeps(g, from, Outputs(ps), ps, k, 0, st);
      PathJustified(g, path, from, ps, k, 0, st);
      var next := ScanPath(g, from, Outputs(ps), ps[k], 0, st);
      ScansGrow(g, path, st.w, next.w, from, ps);
      PathsJustified(g, path, from, ps, k + 1, next);
    }
  }

  lemma ScanJustified(g: Graph, path: seq<Entry>, from: string, ps: seq<seq<Entry>>, w: Work)
    requires Inv(g, w) && MayName(w, from) && Justified(g, path, w) && Scans(g, path, w, from, ps)
    ensures Resolves(g, w) && Justified(g, path, Scanned(g, from, ps, w))
  {
    hide Inv, MayName, Justified, Scans, ScanPaths;
    PathsJustified(g, path, from, ps, 0, Scanning(w, {}));
  }

  // ----- the worklist -----

  /** The links of the path, and of each node's paths scanned so far, are settled. */
  ghost predicate Worked(g: Graph, path: seq<Entry>, w: Work) {
    && Inv(g, w) && Justified(g, path, w)
    && Covered(g, w, [path])
    && forall s | s in w.nodes :: CoveredNode(g, w, s)
  }

  ghost predicate CoveredNode(g: Graph, w: Work, s: string)
    requires s in w.nodes
  {
    s in g && w.nodes[s].scanned <= |w.nodes[s].leaves|
    && Covered(g, w, PathsOf(g, s, EntriesOf(w.nodes[s].leaves)[..w.nodes[s].scanned]))
  }

  /** Every link of the path and of every counted path is settled, and nothing
      is counted but what one names. */
  ghost predicate Fixpoint(g: Graph, path: seq<Entry>, w: Work) {
    && Inv(g, w) && Justified(g, path, w)
    && Covered(g, w, [path])
    && forall s | s in w.nodes :: s in g && Covered(g, w, PathsOf(g, s, EntriesOf(w.nodes[s].leaves)))
  }

  /** The leaves the children in keys may still gain. */
  ghost function Budget(g: Graph, w: Work, keys: seq<string>): int {
    if keys == [] then 0
    else
      var k := keys[0];
      (if k in g then |g[k].entries| else 0) - (if k in w.nodes then w.nodes[k].scanned else 0) + Budget(g, w, keys[1..])
  }

  lemma {:induction false} DistinctFew(ids: seq<Id>, all: set<Id>)
    requires (forall i, j | 0 <= i < j < |ids| :: ids[i] != ids[j]) && forall i | 0 <= i < |ids| :: ids[i] in all
    ensures |ids| <= |all|
  {
    if ids != [] {
      DistinctFew(ids[1..], all - {ids[0]});
    }
  }

  lemma {:induction false} IdsFew(es: seq<Entry>)
    ensures |Ids(es)| <= |es|
  {
    if es != [] {
      IdsSplit(es);
      IdsFew(es[..|es| - 1]);
    }
  }

  /** No child has more leaves than entries. */
  lemma LeavesFew(g: Graph, s: string, n: Node)
    requires NodeOk(g, s, n)
    ensures n.scanned <= |n.leaves| <= |g[s].entries|
  {
    var es := g[s].entries;
    forall i | 0 <= i < |n.leaves| ensures EntriesOf(n.leaves)[i] in Ids(es) {
      if n.leaves[i].entry !in Ids(es) {
        PathNowhere(es, n.leaves[i].entry);
      }
    }
    DistinctFew(EntriesOf(n.leaves), Ids(es));
    IdsFew(es);
  }

  lemma {:induction false} BudgetLeft(g: Graph, w: Work, keys: seq<string>)
    requires Inv(g, w)
    ensures Budget(g, w, keys) >= 0
  {
    if keys != [] {
      hide NodeOk, OrderOk;
      if keys[0] in w.nodes {
        LeavesFew(g, keys[0], w.nodes[keys[0]]);
      }
      BudgetLeft(g, w, keys[1..]);
    }
  }

  lemma {:induction false} BudgetSame(g: Graph, w: Work, v: Work, keys: seq<string>)
    requires Grew(w, v)
    ensures Budget(g, v, keys) == Budget(g, w, keys)
  {
    if keys != [] {
      if keys[0] in w.nodes {
        assert NodeGrew(w.nodes[keys[0]], v.nodes[keys[0]]);
      }
      BudgetSame(g, w, v, keys[1..]);
    }
  }

  lemma {:induction false} BudgetSpent(g: Graph, w: Work, keys: seq<string>, s: string, n: Node)
    requires s in w.nodes && n.scanned > w.nodes[s].scanned
    ensures Budget(g, w.(nodes := w.nodes[s := n]), keys) <= Budget(g, w, keys)
    ensures s in keys ==> Budget(g, w.(nodes := w.nodes[s := n]), keys) < Budget(g, w, keys)
  {
    if keys != [] {
      BudgetSpent(g, w, keys[1..], s, n);
    }
  }

  /** The sessions that can be resolved, in some order. */
  lemma {:induction false} KeysOf(m: set<string>) returns (keys: seq<string>)
    ensures forall s | s in m :: s in keys
  {
    keys := [];
    if m != {} {
      var s :| s in m;
      var rest := KeysOf(m - {s});
      keys := [s] + rest;
    }
  }

  /** Reading a node's links once more, over the union of its paths. */
  method ScanNode(g: Graph, path: seq<Entry>, s: string, w: Work, ghost keys: seq<string>) returns (r: Work)
    requires Worked(g, path, w) && s in w.nodes && w.nodes[s].scanned != |w.nodes[s].leaves|
    requires forall x | x in g :: x in keys
    ensures Worked(g, path, r) && w.order <= r.order
    ensures 0 <= Budget(g, r, keys) < Budget(g, w, keys)
  {
    hide OrderOk, Scanned, Covered, EntriesOf, NodeGrew, Justified, Scans, PathsOf;
    NodeFits(g, w, s);
    var n := w.nodes[s];
    var ids := EntriesOf(n.leaves);
    var m := n.(scanned := |n.leaves|);
    var u := w.(nodes := w.nodes[s := m]);
    OrderKeeps(w, s, m);
    NodeScanned(g, s, n, m);
    assert Inv(g, u);
    MayNameLeaf(u, s);
    BudgetSpent(g, w, keys, s, m);
    ScanCovers(g, s, PathsOf(g, s, ids), u);
    RescannedJustified(g, path, w, s, m);
    PathsOn(g, path, u, s);
    ScanJustified(g, path, s, PathsOf(g, s, ids), u);
    r := Scan(g, s, PathsOf(g, s, ids), u);
    BudgetSame(g, u, r, keys);
    BudgetLeft(g, r, keys);
    ScannedWorked(g, path, w, s, m, r);
  }

  lemma NodeFits(g: Graph, w: Work, s: string)
    requires Inv(g, w) && s in w.nodes
    ensures NodeOk(g, s, w.nodes[s]) && s in g
  {}

  lemma NodeScanned(g: Graph, s: string, n: Node, m: Node)
    requires NodeOk(g, s, n) && m == n.(scanned := |n.leaves|)
    ensures NodeOk(g, s, m)
  {}

  lemma MayNameLeaf(w: Work, s: string)
    requires s in w.nodes && w.nodes[s].leaves != []
    ensures MayName(w, s)
  {}

  lemma ScannedWorked(g: Graph, path: seq<Entry>, w: Work, s: string, m: Node, r: Work)
    requires Worked(g, path, w) && s in w.nodes && s in g && m == w.nodes[s].(scanned := |w.nodes[s].leaves|)
    requires Inv(g, r) && Grew(w.(nodes := w.nodes[s := m]), r)
    requires Covered(g, r, PathsOf(g, s, EntriesOf(m.leaves))) && Justified(g, path, r)
    ensures Worked(g, path, r)
  {
    hide Inv, Covered, OrderOk, Justified;
    var u := w.(nodes := w.nodes[s := m]);
    CoveredRescanned(g, w, s, m, [path]);
    CoveredGrows(g, u, r, [path]);
    forall x | x in r.nodes ensures CoveredNode(g, r, x) {
      NodeFits(g, r, x);
      var (scanned, ids) := (r.nodes[x].scanned, EntriesOf(r.nodes[x].leaves));
      if x == s {
        assert NodeGrew(u.nodes[x], r.nodes[x]);
        assert ids[..scanned] == EntriesOf(m.leaves);
      } else if x in w.nodes {
        assert NodeGrew(u.nodes[x], r.nodes[x]) && u.nodes[x] == w.nodes[x];
        assert CoveredNode(g, w, x);
        assert ids[..scanned] == EntriesOf(w.nodes[x].leaves)[..scanned];
        CoveredRescanned(g, w, s, m, PathsOf(g, x, ids[..scanned]));
        CoveredGrows(g, u, r, PathsOf(g, x, ids[..scanned]));
      } else {
        assert PathsOf(g, x, ids[..0]) == [];
        CoveredNothing(g, r);
      }
    }
  }

  /** Nor does what justifies it. */
  lemma RescannedJustified(g: Graph, path: seq<Entry>, w: Work, s: string, m: Node)
    requires s in w.nodes && m == w.nodes[s].(scanned := m.scanned) && Justified(g, path, w)
    ensures Justified(g, path, w.(nodes := w.nodes[s := m]))
  {
    hide Justified;
    JustifiedAs(g, path, w, w.(nodes := w.nodes[s := m]));
  }

  ghost predicate SameNode(n: Node, m: Node) {
    n.link == m.link && n.parent == m.parent && n.leaves == m.leaves
  }

  lemma JustifiedAs(g: Graph, path: seq<Entry>, w: Work, u: Work)
    requires Justified(g, path, w) && u.nodes.Keys == w.nodes.Keys && forall s | s in w.nodes :: SameNode(w.nodes[s], u.nodes[s])
    requires u.unread == w.unread && u.failed == w.failed && u.missing == w.missing
    ensures Justified(g, path, u)
  {
    RescannedScans(g, path, w, u);
    ReportedAs(w, u);
    hide Reported, ScansKept, NodeJustified, LeafJustified, UnreadJustified;
    forall x | x in u.nodes
      ensures NodeJustified(g, path, u, x) && forall j | 0 <= j < |u.nodes[x].leaves| :: LeafJustified(g, path, u, x, u.nodes[x].leaves[j])
    {
      assert SameNode(w.nodes[x], u.nodes[x]);
      NodeJustifiedGrows(g, path, w, u, x);
      forall j | 0 <= j < |u.nodes[x].leaves| ensures LeafJustified(g, path, u, x, u.nodes[x].leaves[j]) {
        LeafJustifiedGrows(g, path, w, u, x, w.nodes[x].leaves[j]);
      }
    }
    forall j | 0 <= j < |u.unread| ensures UnreadJustified(g, path, u, u.unread[j]) {
      UnreadGrows(g, path, w, u, w.unread[j]);
    }
  }

  lemma RescannedScans(g: Graph, path: seq<Entry>, w: Work, u: Work)
    requires u.nodes.Keys == w.nodes.Keys && forall s | s in w.nodes :: SameNode(w.nodes[s], u.nodes[s])
    ensures ScansKept(g, path, w, u)
  {}

  lemma PathsOn(g: Graph, path: seq<Entry>, w: Work, s: string)
    requires s in w.nodes && s in g && s != ""
    ensures Scans(g, path, w, s, PathsOf(g, s, EntriesOf(w.nodes[s].leaves)))
  {
    var ids := EntriesOf(w.nodes[s].leaves);
    assert ids[..|w.nodes[s].leaves|] == ids;
  }

  lemma CoveredNothing(g: Graph, w: Work)
    ensures Covered(g, w, [])
  {}

  /** What is settled does not depend on how many leaves were scanned. */
  lemma CoveredRescanned(g: Graph, w: Work, s: string, m: Node, ps: seq<seq<Entry>>)
    requires s in w.nodes && m.leaves == w.nodes[s].leaves && Covered(g, w, ps)
    ensures Covered(g, w.(nodes := w.nodes[s := m]), ps)
  {
    hide Named, Outputs, FirstMet;
    var u := w.(nodes := w.nodes[s := m]);
    forall k, i | 0 <= k < |ps| && 0 <= i < |ps[k]| ensures SettledAt(g, u, Outputs(ps), ps, k, i) {
      assert SettledAt(g, w, Outputs(ps), ps, k, i);
    }
  }

  /** The loop: a child's links are read again while any gains a leaf. It ends
      on every finite graph, cyclic ones included, at a fixpoint. */
  method WorkList(path: seq<Entry>, g: Graph) returns (w: Work)
    ensures Fixpoint(g, path, w)
  {
    hide Inv, Covered, Scanned, PathsOf, Budget, Justified, Scans;
    ghost var keys := KeysOf(g.Keys);
    NoWorkOk(g);
    ScanCovers(g, "", [path], NO_WORK);
    RootOn(g, path);
    ScanJustified(g, path, "", [path], NO_WORK);
    w := Scan(g, "", [path], NO_WORK);
    NothingScanned(g, path, w);
    BudgetLeft(g, w, keys);
    var changed := true;
    while changed
      invariant Worked(g, path, w) && Budget(g, w, keys) >= 0
      invariant !changed ==> forall s | s in w.order :: s in w.nodes && w.nodes[s].scanned == |w.nodes[s].leaves|
      decreases Budget(g, w, keys) + if changed then 1 else 0
    {
      ghost var was := Budget(g, w, keys);
      changed := false;
      var i := 0;
      while i < |w.order|
        invariant 0 <= i <= |w.order| && Worked(g, path, w)
        invariant 0 <= Budget(g, w, keys) <= was && (changed ==> Budget(g, w, keys) < was)
        invariant !changed ==> forall k | 0 <= k < i :: w.order[k] in w.nodes && w.nodes[w.order[k]].scanned == |w.nodes[w.order[k]].leaves|
        decreases Budget(g, w, keys), |w.order| - i
      {
        InNodes(g, w, i);
        var s := w.order[i];
        if w.nodes[s].scanned != |w.nodes[s].leaves| {
          w := ScanNode(g, path, s, w, keys);
          changed := true;
        }
        i := i + 1;
      }
    }
    AllScanned(g, path, w);
  }

  lemma NoWorkOk(g: Graph)
    ensures Inv(g, NO_WORK) && MayName(NO_WORK, "")
  {}

  lemma RootOn(g: Graph, path: seq<Entry>)
    ensures Justified(g, path, NO_WORK) && Scans(g, path, NO_WORK, "", [path])
  {}

  lemma InNodes(g: Graph, w: Work, i: nat)
    requires Inv(g, w) && i < |w.order|
    ensures w.order[i] in w.nodes
  {}

  lemma NothingScanned(g: Graph, path: seq<Entry>, w: Work)
    requires Inv(g, w) && Grew(NO_WORK, w) && Covered(g, w, [path]) && Justified(g, path, w)
    ensures Worked(g, path, w)
  {
    hide Inv, Covered, OrderOk, Justified;
    forall s | s in w.nodes ensures CoveredNode(g, w, s) {
      NodeFits(g, w, s);
      assert PathsOf(g, s, EntriesOf(w.nodes[s].leaves)[..0]) == [];
      CoveredNothing(g, w);
    }
  }

  lemma AllScanned(g: Graph, path: seq<Entry>, w: Work)
    requires Worked(g, path, w) && forall s | s in w.order :: s in w.nodes && w.nodes[s].scanned == |w.nodes[s].leaves|
    ensures Fixpoint(g, path, w)
  {
    hide Covered;
    forall s | s in w.nodes ensures s in g && Covered(g, w, PathsOf(g, s, EntriesOf(w.nodes[s].leaves))) {
      assert CoveredNode(g, w, s);
      assert EntriesOf(w.nodes[s].leaves)[..|w.nodes[s].leaves|] == EntriesOf(w.nodes[s].leaves);
    }
  }

  // ----- model calls, each once -----

  datatype ModelCall = ModelCall(entry: Id, model: string, calls: nat)

  function InForce(path: seq<Entry>): string {
    if path == [] then "" else ModelAfter(path[|path| - 1], InForce(path[..|path| - 1]))
  }

  /** The model calls an entry records, priced at the model in force when it
      names none. */
  function CallsAt(e: Entry, model: string): Option<ModelCall> {
    match e.body
    case ResponseBody(m, calls) => Some(ModelCall(e.id, if m != "" then m else model, if calls > 1 then calls else 1))
    case CompactionBody(c) => Some(ModelCall(e.id, c.config.model, 1))
    case BranchSummaryBody(_) => Some(ModelCall(e.id, model, 1))
    case _ => None
  }

  function ModelCalls(path: seq<Entry>): seq<ModelCall> {
    if path == [] then []
    else
      ModelCalls(path[..|path| - 1])
      + match CallsAt(path[|path| - 1], InForce(path)) case Some(c) => [c] case None => []
  }

  method ReadModelCalls(path: seq<Entry>) returns (out: seq<ModelCall>)
    ensures out == ModelCalls(path)
  {
    out := [];
    var model := "";
    for i := 0 to |path|
      invariant out == ModelCalls(path[..i]) && model == InForce(path[..i])
    {
      assert path[..i + 1][..i] == path[..i];
      match path[i].body {
        case ConfigBody(c) =>
          if c.replace {
            model := "";
          }
          if c.model != "" {
            model := c.model;
          }
        case CompactionBody(c) =>
          model := c.config.model;
        case _ =>
      }
      var c := CallsAt(path[i], model);
      if c.Some? {
        out := out + [c.value];
      }
    }
    assert path[..|path|] == path;
  }

  function Counted(calls: seq<ModelCall>): set<Id> {
    set c | c in calls :: c.entry
  }

  /** The calls not counted yet, in order. */
  function Uncounted(calls: seq<ModelCall>, i: nat, out: seq<ModelCall>): seq<ModelCall>
    requires i <= |calls|
    decreases |calls| - i
  {
    if i == |calls| then out
    else Uncounted(calls, i + 1, if calls[i].entry in Counted(out) then out else out + [calls[i]])
  }

  /** The calls on the union of the paths. */
  function Union(ps: seq<seq<Entry>>): seq<ModelCall> {
    if ps == [] then [] else Uncounted(ModelCalls(ps[|ps| - 1]), 0, Union(ps[..|ps| - 1]))
  }

  method CountCalls(ps: seq<seq<Entry>>) returns (out: seq<ModelCall>)
    ensures out == Union(ps)
  {
    out := [];
    var counted: set<Id> := {};
    for k := 0 to |ps|
      invariant out == Union(ps[..k]) && counted == Counted(out)
    {
      assert ps[..k + 1][..k] == ps[..k];
      var calls := ReadModelCalls(ps[k]);
      ghost var start := out;
      for i := 0 to |calls|
        invariant counted == Counted(out) && Uncounted(calls, 0, start) == Uncounted(calls, i, out)
      {
        if calls[i].entry !in counted {
          counted := counted + {calls[i].entry};
          out := out + [calls[i]];
        }
      }
    }
    assert ps[..|ps|] == ps;
  }

  ghost predicate EachOnce(calls: seq<ModelCall>) {
    forall i, j | 0 <= i < j < |calls| :: calls[i].entry != calls[j].entry
  }

  lemma CountedSnoc(out: seq<ModelCall>, c: ModelCall)
    ensures Counted(out + [c]) == Counted(out) + {c.entry}
    ensures EachOnce(out) && c.entry !in Counted(out) ==> EachOnce(out + [c])
  {
    forall k | 0 <= k < |out| ensures out[k].entry in Counted(out) {
      assert out[k] in out;
    }
    assert (out + [c])[|out|] == c;
    forall id | id in Counted(out) ensures id in Counted(out + [c]) {
      var x :| x in out && x.entry == id;
      assert x in out + [c];
    }
  }

  lemma CountedFirst(calls: seq<ModelCall>, i: nat)
    requires i < |calls|
    ensures Counted(calls[i..]) == {calls[i].entry} + Counted(calls[i + 1..])
  {
    assert calls[i..] == [calls[i]] + calls[i + 1..];
    assert calls[i] in calls[i..];
  }

  lemma {:induction false} UncountedOnce(calls: seq<ModelCall>, i: nat, out: seq<ModelCall>)
    requires i <= |calls| && EachOnce(out)
    ensures EachOnce(Uncounted(calls, i, out))
    ensures Counted(Uncounted(calls, i, out)) == Counted(out) + Counted(calls[i..])
    decreases |calls| - i
  {
    if i < |calls| {
      var more := if calls[i].entry in Counted(out) then out else out + [calls[i]];
      CountedSnoc(out, calls[i]);
      CountedFirst(calls, i);
      hide Counted, EachOnce;
      UncountedOnce(calls, i + 1, more);
    }
  }

  ghost function EntriesPaid(ps: seq<seq<Entry>>): set<Id> {
    set p, c | p in ps && c in ModelCalls(p) :: c.entry
  }

  lemma PaidSnoc(ps: seq<seq<Entry>>, p: seq<Entry>)
    ensures EntriesPaid(ps + [p]) == EntriesPaid(ps) + Counted(ModelCalls(p))
  {
    hide ModelCalls;
    assert forall q | q in ps :: q in ps + [p];
    assert p in ps + [p];
    forall c | c in ModelCalls(p) ensures c.entry in EntriesPaid(ps + [p]) {
    }
  }

  /** The union holds each entry that records a call once, and no other. */
  lemma {:induction false} UnionOnce(ps: seq<seq<Entry>>)
    ensures EachOnce(Union(ps)) && Counted(Union(ps)) == EntriesPaid(ps)
  {
    hide ModelCalls, Counted, EachOnce, Uncounted;
    if ps != [] {
      var (rest, p) := (ps[..|ps| - 1], ps[|ps| - 1]);
      UnionOnce(rest);
      UncountedOnce(ModelCalls(p), 0, Union(rest));
      assert ModelCalls(p)[0..] == ModelCalls(p);
      assert ps == rest + [p];
      PaidSnoc(rest, p);
    } else {
      NothingPaid();
    }
  }

  lemma NothingPaid()
    ensures EachOnce(Union([])) && Counted(Union([])) == EntriesPaid([]) == {}
  {}

  /** An entry is priced alike on every path it is on: the path to it is one. */
  lemma {:induction false} PricedAlike(path: seq<Entry>, n: nat)
    requires n <= |path|
    ensures ModelCalls(path[..n]) <= ModelCalls(path)
    decreases |path|
  {
    if n < |path| {
      assert path[..|path| - 1][..n] == path[..n];
      PricedAlike(path[..|path| - 1], n);
    } else {
      assert path[..n] == path;
    }
  }

  predicate Records(e: Entry) {
    e.body.ResponseBody? || e.body.CompactionBody? || e.body.BranchSummaryBody?
  }

  /** Where the entries that record calls stand. */
  ghost function Paying(path: seq<Entry>): seq<nat> {
    if path == [] then []
    else Paying(path[..|path| - 1]) + if Records(path[|path| - 1]) then [|path| - 1] else []
  }

  /** The call an entry records: priced at its own model, or, naming none, at
      the one last set above it. */
  ghost predicate PricedAt(path: seq<Entry>, t: nat, c: ModelCall) {
    t < |path| && c.entry == path[t].id
    && match path[t].body
       case ResponseBody(m, calls) =>
         (if m != "" then c.model == m else R.InForceAt(path, t, c.model)) && c.calls >= 1 && (calls >= 1 ==> c.calls == calls) && (calls == 0 ==> c.calls == 1)
       case CompactionBody(k) => c.model == k.config.model && c.calls == 1
       case BranchSummaryBody(_) => R.InForceAt(path, t, c.model) && c.calls == 1
       case _ => false
  }

  lemma {:induction false} PayingExact(path: seq<Entry>)
    ensures var at := Paying(path);
            && Rising(at, |path|)
            && (forall i | 0 <= i < |at| :: Records(path[at[i]]))
            && (forall t | 0 <= t < |path| && Records(path[t]) :: t in at)
  {
    if path != [] {
      hide Records, Rising;
      var last := |path| - 1;
      PayingExact(path[..last]);
      var (before, at) := (Paying(path[..last]), Paying(path));
      RisingSnoc(before, last);
      RisingWithin(before, last);
      assert at == if Records(path[last]) then before + [last] else before;
      forall i | 0 <= i < |at| ensures at[i] < |path| && Records(path[at[i]]) {
        assert i < |before| ==> at[i] == before[i] && path[..last][before[i]] == path[before[i]];
      }
      forall t | 0 <= t < |path| && Records(path[t]) ensures t in at {
        assert t < last ==> path[..last][t] == path[t];
      }
    }
  }

  lemma PricedLonger(path: seq<Entry>, e: Entry, t: nat, c: ModelCall)
    requires PricedAt(path, t, c)
    ensures PricedAt(path + [e], t, c)
  {
    hide R.SetsModel, R.ModelSet;
    assert (path + [e])[t] == path[t] && forall k | 0 <= k < t :: (path + [e])[k] == path[k];
    if R.InForceAt(path, t, c.model) {
      R.InForceWithin(path, path + [e], t, c.model);
    }
  }

  lemma InForceIs(path: seq<Entry>, e: Entry)
    requires R.InForceAt(path, |path|, InForce(path))
    ensures R.InForceAt(path + [e], |path|, InForce(path)) && R.InForceAt(path + [e], |path| + 1, InForce(path + [e]))
  {
    assert (path + [e])[..|path|] == path;
    R.InForceWithin(path, path + [e], |path|, InForce(path));
    R.InForceOn(path + [e], |path|, InForce(path));
  }

  lemma LastPriced(path: seq<Entry>, e: Entry)
    requires R.InForceAt(path + [e], |path|, InForce(path))
    ensures match CallsAt(e, InForce(path + [e])) case Some(c) => Records(e) && PricedAt(path + [e], |path|, c) case None => !Records(e)
  {
    hide R.InForceAt;
    assert (path + [e])[..|path|] == path;
  }

  /** A path's calls are those of the entries that record any, in order, each
      at its model. */
  lemma {:induction false} PricedExactly(path: seq<Entry>)
    ensures |ModelCalls(path)| == |Paying(path)| && forall i | 0 <= i < |Paying(path)| :: PricedAt(path, Paying(path)[i], ModelCalls(path)[i])
    ensures R.InForceAt(path, |path|, InForce(path))
  {
    if path != [] {
      hide PricedAt, CallsAt, R.InForceAt, InForce, Records;
      var (before, e) := (path[..|path| - 1], path[|path| - 1]);
      PricedExactly(before);
      assert path == before + [e];
      InForceIs(before, e);
      LastPriced(before, e);
      forall i | 0 <= i < |Paying(before)| ensures PricedAt(path, Paying(before)[i], ModelCalls(before)[i]) {
        PricedLonger(before, e, Paying(before)[i], ModelCalls(before)[i]);
      }
    }
  }

  /** The union holds the calls of its paths, as they are on them. */
  lemma {:induction false} UnionFrom(ps: seq<seq<Entry>>, c: ModelCall)
    requires c in Union(ps)
    ensures exists n :: 0 <= n < |ps| && c in ModelCalls(ps[n])
  {
    hide ModelCalls;
    var (before, p) := (ps[..|ps| - 1], ps[|ps| - 1]);
    UncountedFrom(ModelCalls(p), 0, Union(before), c);
    if c in Union(before) {
      UnionFrom(before, c);
      var n :| 0 <= n < |before| && c in ModelCalls(before[n]);
      assert ps[n] == before[n];
    }
  }

  lemma {:induction false} UncountedFrom(calls: seq<ModelCall>, i: nat, out: seq<ModelCall>, c: ModelCall)
    requires i <= |calls| && c in Uncounted(calls, i, out)
    ensures c in out || c in calls
    decreases |calls| - i
  {
    if i < |calls| {
      UncountedFrom(calls, i + 1, if calls[i].entry in Counted(out) then out else out + [calls[i]], c);
    }
  }

  // ----- the result, a tree of sessions -----

  datatype Delegated = Delegated(link: Id, session: string, leaves: seq<Leaf>, calls: seq<ModelCall>, children: seq<Delegated>)

  /** A session's place in the order of discovery, 0 for the path itself. */
  function Rank(order: seq<string>, s: string): (n: nat)
    ensures n <= |order| + 1
    ensures forall i | 0 <= i < |order| && order[i] == s :: n <= i + 1
  {
    if s == "" then 0 else if order == [] || order[0] == s then 1 else Rank(order[1..], s) + 1
  }

  lemma {:induction false} RankAt(order: seq<string>, i: nat)
    requires i < |order| && order[i] != "" && forall k, l | 0 <= k < l < |order| :: order[k] != order[l]
    ensures Rank(order, order[i]) == i + 1
    decreases i
  {
    if i > 0 {
      assert order[1..][i - 1] == order[i];
      RankAt(order[1..], i - 1);
    }
  }

  /** Each session is found after its parent, so the recursion ends. */
  lemma ParentsFirst(g: Graph, w: Work, i: nat)
    requires Inv(g, w) && i < |w.order|
    ensures w.order[i] in w.nodes && Rank(w.order, w.order[i]) == i + 1 && Rank(w.order, w.nodes[w.order[i]].parent) < i + 1
    ensures w.order[i] in g
  {
    var s := w.order[i];
    assert NodeOk(g, s, w.nodes[s]);
    RankAt(w.order, i);
    assert NamedFrom(w, i, w.nodes[s].parent);
  }

  ghost function Build(g: Graph, w: Work, parent: string, i: nat): seq<Delegated>
    requires Inv(g, w) && i <= |w.order|
    decreases |w.order| + 1 - Rank(w.order, parent), |w.order| - i
  {
    if i == |w.order| then []
    else
      ParentsFirst(g, w, i);
      var s := w.order[i];
      var n := w.nodes[s];
      (if n.parent != parent || n.leaves == [] then []
       else [Delegated(n.link, s, n.leaves, Union(PathsOf(g, s, EntriesOf(n.leaves))), Build(g, w, s, 0))])
      + Build(g, w, parent, i + 1)
  }

  lemma BuildStep(g: Graph, w: Work, parent: string, i: nat)
    requires Inv(g, w) && i < |w.order|
    ensures w.order[i] in w.nodes && w.order[i] in g
    ensures var n := w.nodes[w.order[i]];
            if n.parent != parent || n.leaves == [] then Build(g, w, parent, i) == Build(g, w, parent, i + 1)
            else
              && Rank(w.order, parent) < Rank(w.order, w.order[i]) <= |w.order|
              && Build(g, w, parent, i)
              == [Delegated(n.link, w.order[i], n.leaves, Union(PathsOf(g, w.order[i], EntriesOf(n.leaves))), Build(g, w, w.order[i], 0))]
                 + Build(g, w, parent, i + 1)
  {
    hide Inv, Union, PathsOf;
    ParentsFirst(g, w, i);
    assert [] + Build(g, w, parent, i + 1) == Build(g, w, parent, i + 1);
  }

  method BuildTree(g: Graph, w: Work, parent: string) returns (out: seq<Delegated>)
    requires Inv(g, w)
    ensures out == Build(g, w, parent, 0)
    decreases |w.order| + 1 - Rank(w.order, parent)
  {
    hide Inv, Union, PathsOf, Rank, Build;
    out := [];
    BuildDone(g, w, parent);
    for i := 0 to |w.order|
      invariant out + Build(g, w, parent, i) == Build(g, w, parent, 0)
    {
      BuildStep(g, w, parent, i);
      var s := w.order[i];
      var n := w.nodes[s];
      if n.parent != parent || n.leaves == [] {
        continue;
      }
      var calls := CountCalls(PathsOf(g, s, EntriesOf(n.leaves)));
      var children := BuildTree(g, w, s);
      var one := Delegated(n.link, s, n.leaves, calls, children);
      assert out + ([one] + Build(g, w, parent, i + 1)) == out + [one] + Build(g, w, parent, i + 1);
      out := out + [one];
    }
  }

  lemma BuildDone(g: Graph, w: Work, parent: string)
    requires Inv(g, w)
    ensures Build(g, w, parent, |w.order|) == []
  {}

  /** Each session of a forest, with what it counts, under the one that named
      it first. */
  ghost predicate IsForest(w: Work, parent: string, ds: seq<Delegated>)
    decreases ds
  {
    forall i | 0 <= i < |ds| ::
      && ds[i].session in w.nodes
      && w.nodes[ds[i].session].parent == parent && ds[i].link == w.nodes[ds[i].session].link
      && ds[i].leaves == w.nodes[ds[i].session].leaves != []
      && IsForest(w, ds[i].session, ds[i].children)
  }

  lemma {:induction false} BuildForest(g: Graph, w: Work, parent: string, i: nat)
    requires Inv(g, w) && i <= |w.order|
    ensures IsForest(w, parent, Build(g, w, parent, i))
    decreases |w.order| + 1 - Rank(w.order, parent), |w.order| - i
  {
    hide Inv, Union, PathsOf, Rank, Build;
    if i == |w.order| {
      BuildDone(g, w, parent);
    } else {
      BuildStep(g, w, parent, i);
      BuildForest(g, w, parent, i + 1);
      var n := w.nodes[w.order[i]];
      if n.parent == parent && n.leaves != [] {
        BuildForest(g, w, w.order[i], 0);
      }
    }
  }

  /** How often a forest lists a session. */
  ghost function Times(ds: seq<Delegated>, s: string): nat {
    if ds == [] then 0
    else (if ds[0].session == s then 1 else 0) + Times(ds[0].children, s) + Times(ds[1..], s)
  }

  /** The session found from parent that s is, or hangs from; none when s hangs
      elsewhere. */
  ghost function Under(g: Graph, w: Work, parent: string, s: string): Option<string>
    requires Inv(g, w) && s in w.nodes
    decreases Rank(w.order, s)
  {
    RankOf(g, w, s);
    var p := w.nodes[s].parent;
    if p == parent then Some(s)
    else if p == "" then None
    else
      ParentIn(g, w, s);
      Under(g, w, parent, p)
  }

  lemma RankOf(g: Graph, w: Work, s: string)
    requires Inv(g, w) && s in w.nodes
    ensures 0 < Rank(w.order, s) <= |w.order| && w.order[Rank(w.order, s) - 1] == s
    ensures Rank(w.order, w.nodes[s].parent) < Rank(w.order, s)
  {
    assert s in w.order;
    var i :| 0 <= i < |w.order| && w.order[i] == s;
    ParentsFirst(g, w, i);
  }

  lemma ParentIn(g: Graph, w: Work, s: string)
    requires Inv(g, w) && s in w.nodes && w.nodes[s].parent != ""
    ensures w.nodes[s].parent in w.nodes && w.nodes[w.nodes[s].parent].leaves != []
  {
    assert MayName(w, w.nodes[s].parent);
  }

  /** Nothing hangs from itself: what is under parent ranks after it. */
  lemma {:induction false} UnderAfter(g: Graph, w: Work, parent: string, s: string)
    requires Inv(g, w) && s in w.nodes && Under(g, w, parent, s).Some?
    ensures Under(g, w, parent, s).value in w.nodes && w.nodes[Under(g, w, parent, s).value].parent == parent
    ensures Rank(w.order, parent) < Rank(w.order, s)
    ensures s != Under(g, w, parent, s).value ==> Under(g, w, Under(g, w, parent, s).value, s).Some?
    decreases Rank(w.order, s)
  {
    hide Inv;
    RankOf(g, w, s);
    var p := w.nodes[s].parent;
    if p != parent {
      ParentIn(g, w, s);
      UnderAfter(g, w, parent, p);
    }
  }

  lemma {:induction false} UnderOn(g: Graph, w: Work, parent: string, c: string, s: string)
    requires Inv(g, w) && s in w.nodes && c in w.nodes && w.nodes[c].parent == parent && Under(g, w, c, s).Some?
    ensures Under(g, w, parent, s) == Some(c)
    decreases Rank(w.order, s)
  {
    hide Inv;
    RankOf(g, w, s);
    var p := w.nodes[s].parent;
    UnderAfter(g, w, c, s);
    RankOf(g, w, c);
    if p == c {
      assert Under(g, w, parent, c) == Some(c);
    } else {
      ParentIn(g, w, s);
      UnderOn(g, w, parent, c, p);
      UnderAfter(g, w, c, p);
    }
  }

  lemma {:induction false} TimesInBuild(g: Graph, w: Work, parent: string, i: nat, s: string)
    requires Inv(g, w) && i <= |w.order| && s in w.nodes
    ensures var u := Under(g, w, parent, s);
            Times(Build(g, w, parent, i), s) == if w.nodes[s].leaves != [] && u.Some? && Rank(w.order, u.value) > i then 1 else 0
    decreases |w.order| + 1 - Rank(w.order, parent), |w.order| - i
  {
    hide Inv, Union, PathsOf, Rank, Build, Under;
    var u := Under(g, w, parent, s);
    if u.Some? {
      UnderAfter(g, w, parent, s);
      RankOf(g, w, u.value);
    }
    if i == |w.order| {
      BuildDone(g, w, parent);
    } else {
      BuildStep(g, w, parent, i);
      TimesInBuild(g, w, parent, i + 1, s);
      ParentsFirst(g, w, i);
      var c := w.order[i];
      var n := w.nodes[c];
      if n.parent == parent && n.leaves != [] {
        TimesInBuild(g, w, c, 0, s);
        var one := Delegated(n.link, c, n.leaves, Union(PathsOf(g, c, EntriesOf(n.leaves))), Build(g, w, c, 0));
        TimesFirst(one, Build(g, w, parent, i + 1), s);
        if Under(g, w, c, s).Some? {
          UnderAfter(g, w, c, s);
          UnderOn(g, w, parent, c, s);
          RankOf(g, w, Under(g, w, c, s).value);
        } else if s == c {
          UnderSelf(g, w, parent, c);
        }
      } else if u == Some(c) && s != c {
        NodeFits(g, w, c);
        UnderAfter(g, w, c, s);
        ParentIn(g, w, Under(g, w, c, s).value);
      }
    }
  }

  lemma TimesFirst(one: Delegated, rest: seq<Delegated>, s: string)
    ensures Times([one] + rest, s) == (if one.session == s then 1 else 0) + Times(one.children, s) + Times(rest, s)
  {
    assert ([one] + rest)[1..] == rest;
  }

  lemma UnderSelf(g: Graph, w: Work, parent: string, s: string)
    requires Inv(g, w) && s in w.nodes && w.nodes[s].parent == parent
    ensures Under(g, w, parent, s) == Some(s)
  {}

  lemma {:induction false} UnderPath(g: Graph, w: Work, s: string)
    requires Inv(g, w) && s in w.nodes
    ensures Under(g, w, "", s).Some?
    decreases Rank(w.order, s)
  {
    hide Inv;
    RankOf(g, w, s);
    if w.nodes[s].parent != "" {
      ParentIn(g, w, s);
      UnderPath(g, w, w.nodes[s].parent);
    }
  }

  lemma {:induction false} TimesOutside(g: Graph, w: Work, parent: string, i: nat, s: string)
    requires Inv(g, w) && i <= |w.order| && s !in w.nodes
    ensures Times(Build(g, w, parent, i), s) == 0
    decreases |w.order| + 1 - Rank(w.order, parent), |w.order| - i
  {
    hide Inv, Union, PathsOf, Rank, Build;
    if i == |w.order| {
      BuildDone(g, w, parent);
    } else {
      BuildStep(g, w, parent, i);
      TimesOutside(g, w, parent, i + 1, s);
      var c := w.order[i];
      var n := w.nodes[c];
      if n.parent == parent && n.leaves != [] {
        TimesOutside(g, w, c, 0, s);
        TimesFirst(Delegated(n.link, c, n.leaves, Union(PathsOf(g, c, EntriesOf(n.leaves))), Build(g, w, c, 0)), Build(g, w, parent, i + 1), s);
      }
    }
  }

  /** The tree lists every session that counts a leaf, once. */
  lemma ListedOnce(g: Graph, w: Work, s: string)
    requires Inv(g, w)
    ensures Times(Build(g, w, "", 0), s) == if s in w.nodes && w.nodes[s].leaves != [] then 1 else 0
  {
    hide Inv, Build, Under, Times;
    if s in w.nodes {
      UnderPath(g, w, s);
      UnderAfter(g, w, "", s);
      RankOf(g, w, Under(g, w, "", s).value);
      TimesInBuild(g, w, "", 0, s);
    } else {
      TimesOutside(g, w, "", 0, s);
    }
  }

  function Among(calls: seq<ModelCall>, e: Id): nat {
    if calls == [] then 0 else (if calls[0].entry == e then 1 else 0) + Among(calls[1..], e)
  }

  /** How often a forest counts the calls of an entry of a session. */
  ghost function Paid(ds: seq<Delegated>, s: string, e: Id): nat {
    if ds == [] then 0
    else (if ds[0].session == s then Among(ds[0].calls, e) else 0) + Paid(ds[0].children, s, e) + Paid(ds[1..], s, e)
  }

  lemma {:induction false} AmongOnce(calls: seq<ModelCall>, e: Id)
    requires EachOnce(calls)
    ensures Among(calls, e) == if e in Counted(calls) then 1 else 0
  {
    if calls != [] {
      assert forall k | 0 <= k < |calls[1..]| :: calls[1..][k] == calls[k + 1];
      AmongOnce(calls[1..], e);
      CountedFirst(calls, 0);
      assert calls[0..] == calls;
    } else {
      NothingPaid();
    }
  }

  lemma {:induction false} PaidInBuild(g: Graph, w: Work, parent: string, i: nat, s: string, e: Id)
    requires Inv(g, w) && i <= |w.order|
    ensures s in w.nodes ==> s in g
    ensures Paid(Build(g, w, parent, i), s, e)
         == if s in w.nodes && e in EntriesPaid(PathsOf(g, s, EntriesOf(w.nodes[s].leaves))) then Times(Build(g, w, parent, i), s) else 0
    decreases |w.order| + 1 - Rank(w.order, parent), |w.order| - i
  {
    hide Inv, Union, PathsOf, Rank, Build, EntriesPaid, EachOnce, Counted, Among;
    InGraph(g, w, s);
    if i == |w.order| {
      BuildDone(g, w, parent);
    } else {
      BuildStep(g, w, parent, i);
      PaidInBuild(g, w, parent, i + 1, s, e);
      var c := w.order[i];
      var n := w.nodes[c];
      if n.parent == parent && n.leaves != [] {
        PaidInBuild(g, w, c, 0, s, e);
        var ps := PathsOf(g, c, EntriesOf(n.leaves));
        var one := Delegated(n.link, c, n.leaves, Union(ps), Build(g, w, c, 0));
        TimesFirst(one, Build(g, w, parent, i + 1), s);
        PaidFirst(one, Build(g, w, parent, i + 1), s, e);
        UnionOnce(ps);
        AmongOnce(Union(ps), e);
      }
    }
  }

  lemma InGraph(g: Graph, w: Work, s: string)
    requires Inv(g, w)
    ensures s in w.nodes ==> s in g
  {}

  lemma PaidFirst(one: Delegated, rest: seq<Delegated>, s: string, e: Id)
    ensures Paid([one] + rest, s, e) == (if one.session == s then Among(one.calls, e) else 0) + Paid(one.children, s, e) + Paid(rest, s, e)
  {
    assert ([one] + rest)[1..] == rest;
  }

  /** A model call is counted once if it is on a counted path of its session,
      and otherwise not at all. */
  lemma PaidOnce(g: Graph, w: Work, s: string, e: Id)
    requires Inv(g, w)
    ensures s in w.nodes ==> s in g
    ensures Paid(Build(g, w, "", 0), s, e)
         == if s in w.nodes && e in EntriesPaid(PathsOf(g, s, EntriesOf(w.nodes[s].leaves))) then 1 else 0
  {
    hide Inv, Build, EntriesPaid, Times, Paid, PathsOf;
    PaidInBuild(g, w, "", 0, s, e);
    ListedOnce(g, w, s);
    if s in w.nodes && w.nodes[s].leaves == [] {
      NoPaths(g, s);
    }
  }

  lemma NoPaths(g: Graph, s: string)
    requires s in g
    ensures EntriesPaid(PathsOf(g, s, EntriesOf([]))) == {}
  {}

  /** The sessions a path delegated work to, and what could not be read. */
  method DelegatedWork(path: seq<Entry>, g: Graph) returns (children: seq<Delegated>, unread: seq<Unread>, ghost w: Work)
    ensures Fixpoint(g, path, w) && children == Build(g, w, "", 0) && unread == w.unread
    ensures IsForest(w, "", children)
    ensures forall s :: Times(children, s) == if s in w.nodes && w.nodes[s].leaves != [] then 1 else 0
    ensures forall s, e :: Paid(children, s, e) <= 1
  {
    hide *;
    var work := WorkList(path, g);
    w := work;
    FixpointInv(g, path, w);
    children := BuildTree(g, work, "");
    unread := work.unread;
    BuildForest(g, w, "", 0);
    forall s ensures Times(children, s) == if s in w.nodes && w.nodes[s].leaves != [] then 1 else 0 {
      ListedOnce(g, w, s);
    }
    forall s, e ensures Paid(children, s, e) <= 1 {
      PaidOnce(g, w, s, e);
    }
  }

  lemma FixpointInv(g: Graph, path: seq<Entry>, w: Work)
    requires Fixpoint(g, path, w)
    ensures Inv(g, w)
  {}
}

/** What a request leaves out: the groups of outputs sent with a text of
    their own, the merge of a delta into what is in force, and the delta that
    takes what is in force to what is wanted. */
module OmitRules {
  import opened Entries

  const OTHER_MODELS := "other_models"

  /** The non-empty ids of a list. */
  function IdSet(ids: seq<Id>): set<Id> {
    set id | id in ids && id != ""
  }

  /** a and then b, each id once, empty ones left out. */
  function Union(a: seq<Id>, b: seq<Id>): (r: seq<Id>)
    ensures IdSet(r) == IdSet(a) + IdSet(b)
    ensures "" !in r
  {
    Added(Added([], a), b)
  }

  function Added(out: seq<Id>, ids: seq<Id>): (r: seq<Id>)
    requires "" !in out
    ensures IdSet(r) == IdSet(out) + IdSet(ids) && "" !in r
    decreases |ids|
  {
    if ids == [] then out
    else
      assert IdSet(ids) == IdSet(ids[1..]) + IdSet([ids[0]]) by { assert ids == [ids[0]] + ids[1..]; }
      Added(if ids[0] == "" || ids[0] in out then out else out + [ids[0]], ids[1..])
  }

  // ----- the groups of outputs -----

  predicate HasDefault(o: OmitOutputs) {
    o.textSet || o.text != "" || o.items != [] || o.groups == []
  }

  /** The ids a list of groups sends with text. */
  ghost function GroupSet(gs: seq<OutputGroup>, text: string): set<Id> {
    set i, id | 0 <= i < |gs| && gs[i].text == text && id in IdSet(gs[i].items) :: id
  }

  ghost function DefaultSet(o: OmitOutputs): set<Id> {
    if HasDefault(o) then IdSet(o.items) else {}
  }

  ghost predicate DistinctTexts(gs: seq<OutputGroup>) {
    forall i, j | 0 <= i < j < |gs| :: gs[i].text != gs[j].text
  }

  /** The groups, with the default one counted, are disjoint, and their texts
      all differ. */
  ghost predicate WellFormed(o: OmitOutputs) {
    && DistinctTexts(o.groups)
    && (forall s, t | s != t :: GroupSet(o.groups, s) !! GroupSet(o.groups, t))
    && (forall t :: DefaultSet(o) !! GroupSet(o.groups, t))
  }

  /** Which group of o sends the entry, and with which text. */
  datatype Owner = Default | Group(text: string)

  ghost predicate Owns(o: OmitOutputs, k: Owner, id: Id) {
    match k
    case Default => id in DefaultSet(o)
    case Group(t) => id in GroupSet(o.groups, t)
  }

  /** Whether the entry is among the default items, or in one of the first n
      groups. */
  ghost predicate OwnsUpTo(o: OmitOutputs, n: nat, k: Owner, id: Id)
    requires n <= |o.groups|
  {
    match k
    case Default => id in DefaultSet(o)
    case Group(t) => id in GroupSet(o.groups[..n], t)
  }

  /** The groups of o as a map from id to owner, when o is well formed. */
  method Owners(o: OmitOutputs) returns (own: map<Id, Owner>, ok: bool)
    ensures ok == WellFormed(o)
    ensures ok ==> forall id, k :: id in own && own[id] == k <==> Owns(o, k, id)
  {
    hide GroupSet, WellFormed;
    own := if HasDefault(o) then map id | id in IdSet(o.items) :: Default else map[];
    var texts: set<string> := {};
    assert forall t :: GroupSet(o.groups[..0], t) == {} by { NoGroups(); }
    for n := 0 to |o.groups|
      invariant texts == set i | 0 <= i < n :: o.groups[i].text
      invariant DistinctTexts(o.groups[..n])
      invariant forall id, k :: id in own && own[id] == k <==> OwnsUpTo(o, n, k, id)
    {
      var g := o.groups[n];
      GroupSnoc(o.groups[..n], g);
      assert o.groups[..n + 1] == o.groups[..n] + [g];
      if g.text in texts {
        SharedText(o, n);
        return map[], false;
      }
      TextAbsent(o.groups[..n], g.text);
      if exists id :: id in g.items && id != "" && id in own {
        ghost var id :| id in g.items && id != "" && id in own;
        IllFormed(o, n, id, own[id]);
        return map[], false;
      }
      ghost var was := own;
      texts := texts + {g.text};
      own := own + map id | id in IdSet(g.items) :: Group(g.text);
      ghost var m := n + 1;
      forall id, k ensures id in own && own[id] == k <==> OwnsUpTo(o, m, k, id) {
        assert id in was && was[id] == k <==> OwnsUpTo(o, n, k, id);
      }
    }
    assert o.groups[..|o.groups|] == o.groups;
    assert forall id, k :: OwnsUpTo(o, |o.groups|, k, id) <==> Owns(o, k, id);
    assert forall id, k, k' | Owns(o, k, id) && Owns(o, k', id) :: k == k' by {
      forall id, k, k' | Owns(o, k, id) && Owns(o, k', id) ensures k == k' {
        assert OwnsUpTo(o, |o.groups|, k, id) && OwnsUpTo(o, |o.groups|, k', id);
      }
    }
    OneOwner(o);
    return own, true;
  }

  lemma NoGroups()
    ensures forall t :: GroupSet([], t) == {}
  {}

  lemma TextAbsent(gs: seq<OutputGroup>, text: string)
    requires forall i | 0 <= i < |gs| :: gs[i].text != text
    ensures GroupSet(gs, text) == {}
  {}

  lemma SharedText(o: OmitOutputs, n: nat)
    requires n < |o.groups| && exists i :: 0 <= i < n && o.groups[i].text == o.groups[n].text
    ensures !WellFormed(o)
  {}

  lemma OneOwner(o: OmitOutputs)
    requires DistinctTexts(o.groups)
    requires forall id, k, k' | Owns(o, k, id) && Owns(o, k', id) :: k == k'
    ensures WellFormed(o)
  {
    forall s, t | s != t ensures GroupSet(o.groups, s) !! GroupSet(o.groups, t) {
      forall id | id in GroupSet(o.groups, s) ensures id !in GroupSet(o.groups, t) {
        assert Owns(o, Group(s), id);
        assert !Owns(o, Group(t), id);
      }
    }
    forall t ensures DefaultSet(o) !! GroupSet(o.groups, t) {
      forall id | id in DefaultSet(o) ensures id !in GroupSet(o.groups, t) {
        assert Owns(o, Default, id);
        assert !Owns(o, Group(t), id);
      }
    }
  }

  lemma GroupSnoc(gs: seq<OutputGroup>, g: OutputGroup)
    ensures forall t :: GroupSet(gs + [g], t) == GroupSet(gs, t) + if g.text == t then IdSet(g.items) else {}
  {
    var all := gs + [g];
    assert all[|gs|] == g && forall i | 0 <= i < |gs| :: all[i] == gs[i];
    forall t ensures GroupSet(all, t) == GroupSet(gs, t) + if g.text == t then IdSet(g.items) else {} {
      forall id | id in GroupSet(gs, t) ensures id in GroupSet(all, t) {
        var i :| 0 <= i < |gs| && gs[i].text == t && id in IdSet(gs[i].items);
        assert all[i].text == t;
      }
    }
  }

  lemma IllFormed(o: OmitOutputs, n: nat, id: Id, k: Owner)
    requires n < |o.groups| && id in IdSet(o.groups[n].items)
    requires OwnsUpTo(o, n, k, id) && k != Group(o.groups[n].text)
    ensures !WellFormed(o)
  {
    assert id in GroupSet(o.groups, o.groups[n].text);
    if k.Group? {
      var i :| 0 <= i < n && o.groups[..n][i].text == k.text && id in IdSet(o.groups[..n][i].items);
      assert id in GroupSet(o.groups, o.groups[i].text);
    }
  }

  // ----- deltas -----

  /** Two groups of one delta, or one of it and one in force, would hold one
      entry. */
  ghost predicate Overlaps(held: Option<OmitOutputs>, d: OmitOutputs) {
    || !WellFormed(d)
    || (held.Some? && WellFormed(held.value)
        && exists id, k, k' :: Owns(held.value, k, id) && Owns(d, k', id) && k != k')
  }

  method OutputsOverlap(held: Option<OmitOutputs>, d: OmitOutputs) returns (r: bool)
    ensures r == Overlaps(held, d)
  {
    hide Owns, WellFormed;
    var dOwn, ok := Owners(d);
    if !ok {
      return true;
    }
    if held.None? {
      return false;
    }
    var hOwn, hOk := Owners(held.value);
    if !hOk {
      return false;
    }
    var both := dOwn.Keys * hOwn.Keys;
    r := exists id :: id in both && hOwn[id] != dOwn[id];
    if r {
      ghost var id :| id in both && hOwn[id] != dOwn[id];
      assert Owns(held.value, hOwn[id], id) && Owns(d, dOwn[id], id);
    }
    if Overlaps(held, d) {
      ghost var id, k, k' :| Owns(held.value, k, id) && Owns(d, k', id) && k != k';
      assert id in both;
    }
  }

  /** The first group with the text, or the number of groups. */
  function IndexOfText(gs: seq<OutputGroup>, text: string): (i: nat)
    ensures i <= |gs| && (i < |gs| ==> gs[i].text == text) && forall k | 0 <= k < i :: gs[k].text != text
  {
    if gs == [] || gs[0].text == text then 0 else IndexOfText(gs[1..], text) + 1
  }

  /** One of a delta's groups added to the groups in force. */
  function AddGroup(gs: seq<OutputGroup>, g: OutputGroup): seq<OutputGroup> {
    var i := IndexOfText(gs, g.text);
    if i == |gs| then gs + [OutputGroup(g.text, Union([], g.items))]
    else gs[i := OutputGroup(g.text, Union(gs[i].items, g.items))]
  }

  function AddGroups(gs: seq<OutputGroup>, ds: seq<OutputGroup>): seq<OutputGroup>
    decreases |ds|
  {
    if ds == [] then gs else AddGroup(AddGroups(gs, ds[..|ds| - 1]), ds[|ds| - 1])
  }

  const NO_OUTPUTS := OmitOutputs("", [], [], false)

  /** d laid over held, group by group. */
  function MergedOutputs(held: Option<OmitOutputs>, d: OmitOutputs): OmitOutputs {
    var out := if held.Some? then held.value else NO_OUTPUTS;
    var groups := AddGroups(out.groups, d.groups);
    if HasDefault(d) then OmitOutputs(d.text, Union(out.items, d.items), groups, true) else out.(groups := groups)
  }

  predicate IsZero(o: Omit) {
    o.reasoning == "" && o.outputs.None? && o.images.None? && IdSet(o.items) == {}
  }

  /** d laid over o, member by member; what d leaves unset stays. */
  ghost function Merged(o: Omit, d: Omit): Omit {
    if IsZero(d) then NO_OMIT
    else
      Omit(if d.reasoning == OTHER_MODELS then d.reasoning else o.reasoning,
           Union(o.items, d.items),
           if d.outputs.Some? && !Overlaps(o.outputs, d.outputs.value) then Some(MergedOutputs(o.outputs, d.outputs.value)) else o.outputs,
           if d.images.Some? then d.images else o.images)
  }

  method MergeOmit(o: Omit, d: Omit) returns (r: Omit)
    ensures r == Merged(o, d)
  {
    if IsZero(d) {
      return NO_OMIT;
    }
    r := o.(items := Union(o.items, d.items));
    if d.reasoning == OTHER_MODELS {
      r := r.(reasoning := d.reasoning);
    }
    if d.outputs.Some? {
      var clash := OutputsOverlap(o.outputs, d.outputs.value);
      if !clash {
        r := r.(outputs := Some(MergedOutputs(o.outputs, d.outputs.value)));
      }
    }
    if d.images.Some? {
      r := r.(images := d.images);
    }
  }

  // ----- every sequence of deltas keeps the groups disjoint -----

  lemma AddGroupSets(gs: seq<OutputGroup>, g: OutputGroup)
    requires DistinctTexts(gs)
    ensures DistinctTexts(AddGroup(gs, g))
    ensures forall t :: GroupSet(AddGroup(gs, g), t) == GroupSet(gs, t) + if g.text == t then IdSet(g.items) else {}
  {
    var i := IndexOfText(gs, g.text);
    var out := AddGroup(gs, g);
    if i == |gs| {
      GroupSnoc(gs, out[i]);
      assert forall a | 0 <= a < |gs| :: out[a] == gs[a];
    } else {
      forall t ensures GroupSet(out, t) == GroupSet(gs, t) + if g.text == t then IdSet(g.items) else {} {
        assert forall a | 0 <= a < |gs| && a != i :: out[a] == gs[a];
        assert IdSet(out[i].items) == IdSet(gs[i].items) + IdSet(g.items);
        forall id | id in GroupSet(gs, t) ensures id in GroupSet(out, t) {
          var a :| 0 <= a < |gs| && gs[a].text == t && id in IdSet(gs[a].items);
          assert out[a].text == t && id in IdSet(out[a].items);
        }
        if g.text == t {
          assert out[i].text == t;
        }
      }
    }
  }

  lemma {:induction false} AddGroupsSets(gs: seq<OutputGroup>, ds: seq<OutputGroup>)
    requires DistinctTexts(gs)
    ensures DistinctTexts(AddGroups(gs, ds))
    ensures forall t :: GroupSet(AddGroups(gs, ds), t) == GroupSet(gs, t) + GroupSet(ds, t)
    decreases |ds|
  {
    hide GroupSet, AddGroup;
    NoGroups();
    if ds != [] {
      var n := |ds| - 1;
      AddGroupsSets(gs, ds[..n]);
      AddGroupSets(AddGroups(gs, ds[..n]), ds[n]);
      GroupSnoc(ds[..n], ds[n]);
      assert ds == ds[..n] + [ds[n]];
    }
  }

  ghost function OwnedBy(o: Option<OmitOutputs>, k: Owner): set<Id> {
    if o.None? then {}
    else
      match k
      case Default => DefaultSet(o.value)
      case Group(t) => GroupSet(o.value.groups, t)
  }

  /** The merge gives each group its own entries and the delta's. */
  lemma MergedSets(held: Option<OmitOutputs>, d: OmitOutputs)
    requires held.Some? ==> DistinctTexts(held.value.groups)
    ensures var m := MergedOutputs(held, d);
            && DistinctTexts(m.groups)
            && forall k :: OwnedBy(Some(m), k) == OwnedBy(held, k) + OwnedBy(Some(d), k)
  {
    hide GroupSet, AddGroups;
    NoGroups();
    var out := if held.Some? then held.value else NO_OUTPUTS;
    AddGroupsSets(out.groups, d.groups);
    var m := MergedOutputs(held, d);
    assert OwnedBy(Some(m), Default) == OwnedBy(held, Default) + OwnedBy(Some(d), Default);
  }

  lemma MergedWellFormed(held: Option<OmitOutputs>, d: OmitOutputs)
    requires held.Some? ==> WellFormed(held.value)
    requires !Overlaps(held, d)
    ensures WellFormed(MergedOutputs(held, d))
  {
    hide GroupSet, MergedOutputs, DefaultSet;
    MergedSets(held, d);
    var m := MergedOutputs(held, d);
    forall id, k, k' | Owns(m, k, id) && Owns(m, k', id) ensures k == k' {
      assert id in OwnedBy(Some(m), k) && id in OwnedBy(Some(m), k');
      assert id in OwnedBy(held, k) ==> Owns(held.value, k, id);
      assert id in OwnedBy(held, k') ==> Owns(held.value, k', id);
      assert id in OwnedBy(Some(d), k) ==> Owns(d, k, id);
      assert id in OwnedBy(Some(d), k') ==> Owns(d, k', id);
    }
    OneOwner(m);
  }

  ghost function MergeAll(ds: seq<Omit>): Omit {
    if ds == [] then NO_OMIT else Merged(MergeAll(ds[..|ds| - 1]), ds[|ds| - 1])
  }

  /** However many deltas are merged, the groups stay disjoint and their texts
      distinct. */
  lemma {:induction false} GroupsStayDisjoint(ds: seq<Omit>)
    ensures MergeAll(ds).outputs.Some? ==> WellFormed(MergeAll(ds).outputs.value)
  {
    if ds != [] {
      hide WellFormed, Overlaps, MergedOutputs;
      var o := MergeAll(ds[..|ds| - 1]);
      var d := ds[|ds| - 1];
      GroupsStayDisjoint(ds[..|ds| - 1]);
      if d.outputs.Some? && !Overlaps(o.outputs, d.outputs.value) {
        MergedWellFormed(o.outputs, d.outputs.value);
      }
    }
  }

  // ----- the delta to what is wanted -----

  /** What is sent in place of the output entry id holds, if anything is. */
  function TextFor(o: OmitOutputs, id: Id): Option<string> {
    var t := GroupTextFor(o.groups, id);
    if t.Some? then t
    else if HasDefault(o) && id in o.items then Some(o.text)
    else None
  }

  function GroupTextFor(gs: seq<OutputGroup>, id: Id): Option<string> {
    if gs == [] then None
    else if id in gs[0].items then Some(gs[0].text)
    else GroupTextFor(gs[1..], id)
  }

  function SentAs(o: Option<OmitOutputs>, id: Id): Option<string> {
    if o.Some? then TextFor(o.value, id) else None
  }

  function GroupItems(gs: seq<OutputGroup>, text: string): set<Id> {
    var i := IndexOfText(gs, text);
    if i < |gs| then IdSet(gs[i].items) else {}
  }

  /** No output is treated differently by the two. */
  predicate SameOutputs(a: Option<OmitOutputs>, b: Option<OmitOutputs>) {
    if a.None? || b.None? then a.None? && b.None?
    else
      var (x, y) := (a.value, b.value);
      && HasDefault(x) == HasDefault(y)
      && (HasDefault(x) ==> x.text == y.text && IdSet(x.items) == IdSet(y.items))
      && |x.groups| == |y.groups|
      && forall i | 0 <= i < |x.groups| ::
           IndexOfText(y.groups, x.groups[i].text) < |y.groups|
           && IdSet(x.groups[i].items) == GroupItems(y.groups, x.groups[i].text)
  }

  /** The ids of a list that have does not hold, each once. */
  function Missing(have: set<Id>, ids: seq<Id>): (r: seq<Id>)
    ensures IdSet(r) == IdSet(ids) - have
    ensures r == [] <==> IdSet(ids) <= have
    decreases |ids|
  {
    if ids == [] then []
    else
      assert IdSet(ids) == IdSet(ids[1..]) + IdSet([ids[0]]) by { assert ids == [ids[0]] + ids[1..]; }
      if ids[0] == "" || ids[0] in have then Missing(have, ids[1..])
      else
        var rest := Missing(have + {ids[0]}, ids[1..]);
        assert IdSet([ids[0]] + rest) == {ids[0]} + IdSet(rest);
        assert ids[0] in ([ids[0]] + rest);
        [ids[0]] + rest
  }

  /** The groups a delta writes: each wanted group not in force, and the
      items of one in force it does not hold yet. */
  function NewGroups(have: seq<OutputGroup>, want: seq<OutputGroup>): seq<OutputGroup>
    decreases |want|
  {
    if want == [] then []
    else
      var n := |want| - 1;
      var added := Missing(GroupItems(have, want[n].text), want[n].items);
      NewGroups(have, want[..n])
      + if IndexOfText(have, want[n].text) == |have| || added != [] then [OutputGroup(want[n].text, added)] else []
  }

  /** Every group of have is one of want, with no item want's lacks. */
  predicate GroupsWithin(have: seq<OutputGroup>, want: seq<OutputGroup>) {
    forall i | 0 <= i < |have| ::
      IndexOfText(want, have[i].text) < |want| && IdSet(have[i].items) <= GroupItems(want, have[i].text)
  }

  /** The groups to write so that want follows from have, or the reason a merge
      could never get there. */
  ghost function OutputsDelta(have: Option<OmitOutputs>, want: Option<OmitOutputs>): Result<Option<OmitOutputs>, ()> {
    if want.None? then (if have.None? then Ok(None) else Err(()))
    else if !WellFormed(want.value) then Err(())
    else
      var w := want.value;
      var hasDefault := have.Some? && HasDefault(have.value);
      var listed := if hasDefault then IdSet(have.value.items) else {};
      var haveGroups := if have.Some? then have.value.groups else [];
      var added := Missing(listed, w.items);
      var writesDefault := HasDefault(w) && (!hasDefault || have.value.text != w.text || added != []);
      if HasDefault(w) && !(listed <= IdSet(w.items)) then Err(())
      else if !HasDefault(w) && listed != {} then Err(())
      else if !GroupsWithin(haveGroups, w.groups) then Err(())
      else
        var d := OmitOutputs(if writesDefault then w.text else "", if writesDefault then added else [],
                             NewGroups(haveGroups, w.groups), writesDefault);
        if Overlaps(have, d) then Err(()) else Ok(Some(d))
  }

  /** The member that takes have to want: none when it is in force, and an
      error when no single member does. */
  ghost function OmitDelta(have: Omit, want: Omit): Result<Option<Omit>, ()> {
    var sameItems := IdSet(have.items) == IdSet(want.items);
    if have.reasoning == want.reasoning && sameItems && SameOutputs(have.outputs, want.outputs) && have.images == want.images then Ok(None)
    else if IsZero(want) then Ok(Some(NO_OMIT))
    else if (want.reasoning != "" && want.reasoning != OTHER_MODELS) || (have.reasoning != "" && want.reasoning == "") then Err(())
    else
      var outputs := OutputsDelta(have.outputs, want.outputs);
      if !(IdSet(have.items) <= IdSet(want.items)) || outputs.Err? || (have.images.Some? && want.images.None?) then Err(())
      else
        Ok(Some(Omit(if want.reasoning != have.reasoning then want.reasoning else "",
                     Missing(IdSet(have.items), want.items),
                     if SameOutputs(have.outputs, want.outputs) then None else outputs.value,
                     if have.images != want.images then want.images else None)))
  }

  // ----- the delta is right -----

  lemma {:induction false} GroupTextIs(gs: seq<OutputGroup>, id: Id)
    requires DistinctTexts(gs) && id != ""
    ensures match GroupTextFor(gs, id)
            case Some(t) => id in GroupSet(gs, t)
            case None => forall t :: id !in GroupSet(gs, t)
  {
    if gs != [] {
      assert gs == [gs[0]] + gs[1..];
      assert id in gs[0].items ==> id in IdSet(gs[0].items);
      if id !in gs[0].items {
        GroupTextIs(gs[1..], id);
        forall t | id in GroupSet(gs[1..], t) ensures id in GroupSet(gs, t) {
          var i :| 0 <= i < |gs[1..]| && gs[1..][i].text == t && id in IdSet(gs[1..][i].items);
          assert gs[i + 1].text == t;
        }
        forall t | id in GroupSet(gs, t) ensures id in GroupSet(gs[1..], t) {
          var i :| 0 <= i < |gs| && gs[i].text == t && id in IdSet(gs[i].items);
          assert gs[1..][i - 1].text == t;
        }
      }
    }
  }

  /** In a well-formed member the text is that of the one group that owns the
      entry. */
  lemma TextIsOwner(o: OmitOutputs, id: Id)
    requires WellFormed(o) && id != ""
    ensures forall t :: id in GroupSet(o.groups, t) ==> TextFor(o, id) == Some(t)
    ensures id in DefaultSet(o) ==> TextFor(o, id) == Some(o.text)
    ensures TextFor(o, id).Some? ==> id in DefaultSet(o) || id in GroupSet(o.groups, TextFor(o, id).value)
  {
    GroupTextIs(o.groups, id);
    forall t | id in GroupSet(o.groups, t) ensures TextFor(o, id) == Some(t) {
      var u := GroupTextFor(o.groups, id).value;
      assert id in GroupSet(o.groups, u);
      assert u != t ==> GroupSet(o.groups, u) !! GroupSet(o.groups, t);
    }
  }

  /** Members whose groups own the same entries, each with its text, send
      them alike. */
  lemma SameOwners(a: Option<OmitOutputs>, b: Option<OmitOutputs>, id: Id)
    requires (a.Some? ==> WellFormed(a.value)) && (b.Some? ==> WellFormed(b.value)) && id != ""
    requires forall k :: OwnedBy(a, k) == OwnedBy(b, k)
    requires OwnedBy(a, Default) != {} ==> a.Some? && b.Some? && a.value.text == b.value.text
    ensures SentAs(a, id) == SentAs(b, id)
  {
    SentByOwner(a, b, id);
    SentByOwner(b, a, id);
  }

  lemma SentByOwner(a: Option<OmitOutputs>, b: Option<OmitOutputs>, id: Id)
    requires (a.Some? ==> WellFormed(a.value)) && (b.Some? ==> WellFormed(b.value)) && id != ""
    requires forall k :: OwnedBy(a, k) == OwnedBy(b, k)
    requires OwnedBy(a, Default) != {} ==> a.Some? && b.Some? && a.value.text == b.value.text
    ensures SentAs(a, id).Some? ==> SentAs(b, id) == SentAs(a, id)
  {
    hide GroupSet, TextFor, WellFormed;
    if a.Some? {
      TextIsOwner(a.value, id);
    }
    if b.Some? {
      TextIsOwner(b.value, id);
    }
    if SentAs(a, id).Some? {
      if id in OwnedBy(a, Default) {
        assert id in OwnedBy(b, Default);
      } else {
        assert id in OwnedBy(a, Group(SentAs(a, id).value));
        assert id in OwnedBy(b, Group(SentAs(a, id).value));
      }
    }
  }

  lemma GroupItemsIs(gs: seq<OutputGroup>, text: string)
    requires DistinctTexts(gs)
    ensures GroupItems(gs, text) == GroupSet(gs, text)
  {
    var i := IndexOfText(gs, text);
    forall id | id in GroupSet(gs, text) ensures id in GroupItems(gs, text) {
      var k :| 0 <= k < |gs| && gs[k].text == text && id in IdSet(gs[k].items);
      assert i == k;
    }
  }

  lemma {:induction false} NewGroupsSets(have: seq<OutputGroup>, want: seq<OutputGroup>)
    requires DistinctTexts(have) && DistinctTexts(want)
    ensures forall t :: GroupSet(NewGroups(have, want), t) == GroupSet(want, t) - GroupSet(have, t)
    decreases |want|
  {
    hide GroupSet, IndexOfText, GroupItems;
    NoGroups();
    if want != [] {
      var n := |want| - 1;
      var g := want[n];
      NewGroupsSets(have, want[..n]);
      assert want == want[..n] + [g];
      GroupSnoc(want[..n], g);
      TextAbsent(want[..n], g.text);
      GroupItemsIs(have, g.text);
      var added := Missing(GroupItems(have, g.text), g.items);
      GroupSnoc(NewGroups(have, want[..n]), OutputGroup(g.text, added));
      assert NewGroups(have, want[..n]) + [] == NewGroups(have, want[..n]);
    }
  }

  function Texts(gs: seq<OutputGroup>): set<string> {
    set i | 0 <= i < |gs| :: gs[i].text
  }

  lemma TextsSnoc(gs: seq<OutputGroup>, x: OutputGroup)
    ensures Texts(gs + [x]) == Texts(gs) + {x.text}
    ensures DistinctTexts(gs + [x]) <==> DistinctTexts(gs) && x.text !in Texts(gs)
  {
    var all := gs + [x];
    assert all[|gs|] == x;
    assert forall i | 0 <= i < |gs| :: all[i] == gs[i] && gs[i].text in Texts(gs);
    forall t | t in Texts(gs) ensures t in Texts(all) {
      var i :| 0 <= i < |gs| && gs[i].text == t;
      assert all[i].text == t;
    }
    if x.text in Texts(gs) {
      var i :| 0 <= i < |gs| && gs[i].text == x.text;
      assert all[i].text == all[|gs|].text;
    }
  }

  /** A list of groups has as many texts as groups just when they differ. */
  lemma {:induction false} TextCount(gs: seq<OutputGroup>)
    ensures |Texts(gs)| <= |gs|
    ensures |Texts(gs)| == |gs| <==> DistinctTexts(gs)
  {
    if gs == [] {
      assert Texts(gs) == {};
    } else {
      hide Texts, DistinctTexts;
      var n := |gs| - 1;
      TextCount(gs[..n]);
      assert gs == gs[..n] + [gs[n]];
      TextsSnoc(gs[..n], gs[n]);
      if gs[n].text in Texts(gs[..n]) {
        assert Texts(gs) == Texts(gs[..n]);
      }
    }
  }

  lemma SubsetOfSameSize<T>(a: set<T>, b: set<T>)
    requires a <= b && |b| <= |a|
    ensures a == b
  {
    if a != b {
      var x :| x in b && x !in a;
      assert a <= b - {x} && |b - {x}| == |b| - 1;
      SubsetCount(a, b - {x});
    }
  }

  lemma {:induction false} SubsetCount<T>(a: set<T>, b: set<T>)
    requires a <= b
    ensures |a| <= |b|
  {
    if a != {} {
      var x :| x in a;
      SubsetCount(a - {x}, b - {x});
    }
  }

  /** What the same outputs means for the entries each group owns. */
  lemma SameOutputsOwners(a: Option<OmitOutputs>, b: Option<OmitOutputs>)
    requires (a.Some? ==> WellFormed(a.value)) && SameOutputs(a, b)
    ensures b.Some? ==> WellFormed(b.value)
    ensures forall k :: OwnedBy(a, k) == OwnedBy(b, k)
    ensures OwnedBy(a, Default) != {} ==> a.Some? && b.Some? && a.value.text == b.value.text
  {
    if a.Some? {
      var (x, y) := (a.value.groups, b.value.groups);
      TextCount(x);
      TextCount(y);
      forall i | 0 <= i < |x| ensures x[i].text in Texts(y) {
        assert y[IndexOfText(y, x[i].text)].text == x[i].text;
      }
      SubsetOfSameSize(Texts(x), Texts(y));
      hide WellFormed, GroupSet, IndexOfText;
      forall t ensures GroupSet(x, t) == GroupSet(y, t) {
        SameGroup(x, y, t);
      }
      assert DistinctTexts(y);
      assert DefaultSet(a.value) == DefaultSet(b.value);
      StillWellFormed(a.value, b.value);
    }
  }

  lemma StillWellFormed(x: OmitOutputs, y: OmitOutputs)
    requires WellFormed(x) && DistinctTexts(y.groups) && DefaultSet(x) == DefaultSet(y)
    requires forall t :: GroupSet(x.groups, t) == GroupSet(y.groups, t)
    ensures WellFormed(y)
  {}

  lemma SameGroup(x: seq<OutputGroup>, y: seq<OutputGroup>, t: string)
    requires DistinctTexts(x) && DistinctTexts(y) && Texts(x) == Texts(y)
    requires forall i | 0 <= i < |x| ::
               IndexOfText(y, x[i].text) < |y| && IdSet(x[i].items) == GroupItems(y, x[i].text)
    ensures GroupSet(x, t) == GroupSet(y, t)
  {
    GroupItemsIs(x, t);
    GroupItemsIs(y, t);
    if t in Texts(x) {
      var i :| 0 <= i < |x| && x[i].text == t;
      assert IndexOfText(x, t) == i;
    } else {
      TextAbsent(x, t);
      TextAbsent(y, t);
    }
  }

  /** A delta that would write nothing is one with nothing to write. */
  lemma NothingNew(have: seq<OutputGroup>, want: seq<OutputGroup>)
    requires DistinctTexts(have) && DistinctTexts(want) && NewGroups(have, want) == []
    requires GroupsWithin(have, want)
    ensures |have| == |want|
    ensures forall i | 0 <= i < |have| :: IdSet(have[i].items) == GroupItems(want, have[i].text)
  {
    hide GroupSet, IndexOfText, GroupItems, NewGroups;
    NewGroupsHeld(have, want);
    TextCount(have);
    TextCount(want);
    forall i | 0 <= i < |have| ensures have[i].text in Texts(want) {
      assert want[IndexOfText(want, have[i].text)].text == have[i].text;
    }
    assert Texts(have) == Texts(want);
    forall i | 0 <= i < |have| ensures IdSet(have[i].items) == GroupItems(want, have[i].text) {
      SameItems(have, want, i);
    }
  }

  lemma SameItems(have: seq<OutputGroup>, want: seq<OutputGroup>, i: nat)
    requires DistinctTexts(have) && DistinctTexts(want) && NewGroups(have, want) == [] && i < |have|
    requires IdSet(have[i].items) <= GroupItems(want, have[i].text)
    ensures IdSet(have[i].items) == GroupItems(want, have[i].text)
  {
    hide GroupSet, NewGroups;
    NewGroupsSets(have, want);
    GroupItemsIs(want, have[i].text);
    GroupItemsIs(have, have[i].text);
    NoGroups();
    assert GroupSet(NewGroups(have, want), have[i].text) == {};
    assert GroupSet(want, have[i].text) - GroupSet(have, have[i].text) == {};
    assert IndexOfText(have, have[i].text) == i;
    var text := have[i].text;
    assert GroupItems(have, text) == IdSet(have[i].items);
    forall x | x in GroupItems(want, text) ensures x in IdSet(have[i].items) {
      assert x in GroupSet(want, text) && x !in GroupSet(want, text) - GroupSet(have, text);
    }
  }

  lemma {:induction false} NewGroupsHeld(have: seq<OutputGroup>, want: seq<OutputGroup>)
    requires NewGroups(have, want) == []
    ensures Texts(want) <= Texts(have)
    decreases |want|
  {
    if want != [] {
      var n := |want| - 1;
      NewGroupsHeld(have, want[..n]);
      var i := IndexOfText(have, want[n].text);
      assert i < |have| && have[i].text == want[n].text;
      assert Texts(want) == Texts(want[..n]) + {want[n].text};
    }
  }

  lemma OutputsDeltaRight(have: Option<OmitOutputs>, want: Option<OmitOutputs>)
    requires have.Some? ==> WellFormed(have.value)
    requires OutputsDelta(have, want).Ok? && want.Some? && !SameOutputs(have, want)
    ensures var d := OutputsDelta(have, want).value;
            && d.Some? && !Overlaps(have, d.value)
            && var m := Some(MergedOutputs(have, d.value));
               && (forall k :: OwnedBy(m, k) == OwnedBy(want, k))
               && (OwnedBy(m, Default) != {} ==> m.value.text == want.value.text)
  {
    hide GroupSet, WellFormed, Overlaps, NewGroups, IndexOfText, AddGroups;
    var d := OutputsDelta(have, want).value.value;
    var w := want.value;
    var haveGroups := if have.Some? then have.value.groups else [];
    assert DistinctTexts(haveGroups) && DistinctTexts(w.groups) by { Texted(have); Texted(want); }
    MergedSets(have, d);
    NewGroupsSets(haveGroups, w.groups);
    NoGroups();
    var m := Some(MergedOutputs(have, d));
    assert OwnedBy(m, Default) == OwnedBy(want, Default);
    forall t ensures OwnedBy(m, Group(t)) == OwnedBy(want, Group(t)) {
      GroupItemsIs(haveGroups, t);
      GroupItemsIs(w.groups, t);
      assert GroupItems(haveGroups, t) <= GroupItems(w.groups, t) by { HeldWithin(haveGroups, w.groups, t); }
    }
    if OwnedBy(m, Default) != {} && !d.textSet && d.groups == [] {
      NothingNew(haveGroups, w.groups);
    }
  }

  lemma Texted(o: Option<OmitOutputs>)
    requires o.Some? ==> WellFormed(o.value)
    ensures o.Some? ==> DistinctTexts(o.value.groups)
  {}

  lemma HeldWithin(have: seq<OutputGroup>, want: seq<OutputGroup>, t: string)
    requires GroupsWithin(have, want)
    ensures GroupItems(have, t) <= GroupItems(want, t)
  {}

  /** A delta to something that is not zero is not zero. */
  lemma DeltaNotZero(have: Omit, want: Omit)
    requires have.outputs.Some? ==> WellFormed(have.outputs.value)
    requires !IsZero(want) && OmitDelta(have, want).Ok? && OmitDelta(have, want).value.Some?
    ensures !IsZero(OmitDelta(have, want).value.value)
  {
    hide WellFormed, SameOutputs, OutputsDelta, Overlaps, MergedOutputs, OwnedBy;
    var d := OmitDelta(have, want).value.value;
    BothNone(have.outputs, want.outputs);
    if !SameOutputs(have.outputs, want.outputs) {
      OutputsDeltaRight(have.outputs, want.outputs);
    } else if IdSet(have.items) != IdSet(want.items) {
      var x :| x in IdSet(want.items) && x !in IdSet(have.items);
      assert x in IdSet(d.items);
    }
  }

  /** The rule, the items and the images. */
  lemma OmitRuleRight(have: Omit, want: Omit)
    requires have.outputs.Some? ==> WellFormed(have.outputs.value)
    requires OmitDelta(have, want).Ok?
    ensures var d := OmitDelta(have, want).value;
            var m := if d.Some? then Merged(have, d.value) else have;
            m.reasoning == want.reasoning && IdSet(m.items) == IdSet(want.items) && m.images == want.images
  {
    hide WellFormed, SameOutputs, OutputsDelta, Overlaps, MergedOutputs, OwnedBy;
    var d := OmitDelta(have, want).value;
    if d.Some? && !IsZero(want) {
      DeltaNotZero(have, want);
    }
  }

  /** Every output's text. */
  lemma OmitOutputsRight(have: Omit, want: Omit, id: Id)
    requires have.outputs.Some? ==> WellFormed(have.outputs.value)
    requires OmitDelta(have, want).Ok? && id != ""
    ensures var d := OmitDelta(have, want).value;
            SentAs((if d.Some? then Merged(have, d.value) else have).outputs, id) == SentAs(want.outputs, id)
  {
    hide WellFormed, SameOutputs, OutputsDelta, Overlaps, MergedOutputs, TextFor, OwnedBy, Union, Missing;
    var d := OmitDelta(have, want).value;
    if SameOutputs(have.outputs, want.outputs) {
      SameOutputsOwners(have.outputs, want.outputs);
      SameOwners(have.outputs, want.outputs, id);
    }
    if d.Some? && !IsZero(want) {
      BothNone(have.outputs, want.outputs);
      DeltaNotZero(have, want);
      if !SameOutputs(have.outputs, want.outputs) {
        OutputsDeltaRight(have.outputs, want.outputs);
        var o := OutputsDelta(have.outputs, want.outputs).value.value;
        MergedWellFormed(have.outputs, o);
        WantWellFormed(have.outputs, want.outputs);
        SameOwners(Some(MergedOutputs(have.outputs, o)), want.outputs, id);
      }
    }
  }

  /** When a delta can be written, merging it into what is in force gives the
      rule, the items, the images and every output's text that is wanted; and
      none is written only when those are in force already. */
  lemma OmitDeltaRight(have: Omit, want: Omit, id: Id)
    requires have.outputs.Some? ==> WellFormed(have.outputs.value)
    requires OmitDelta(have, want).Ok? && id != ""
    ensures var d := OmitDelta(have, want).value;
            var m := if d.Some? then Merged(have, d.value) else have;
            && m.reasoning == want.reasoning && IdSet(m.items) == IdSet(want.items) && m.images == want.images
            && SentAs(m.outputs, id) == SentAs(want.outputs, id)
  {
    hide OmitDelta, Merged, SentAs, WellFormed, IdSet;
    OmitRuleRight(have, want);
    OmitOutputsRight(have, want, id);
  }

  lemma BothNone(have: Option<OmitOutputs>, want: Option<OmitOutputs>)
    ensures want.None? && OutputsDelta(have, want).Ok? ==> SameOutputs(have, want)
  {}

  lemma WantWellFormed(have: Option<OmitOutputs>, want: Option<OmitOutputs>)
    requires OutputsDelta(have, want).Ok? && want.Some?
    ensures WellFormed(want.value)
  {}

  // ----- when a delta can be written -----

  /** Everything have sends with a text, want sends from the same group, and
      every group of have is one of want's. */
  ghost predicate GrowsTo(have: Option<OmitOutputs>, want: Option<OmitOutputs>) {
    if want.None? then have.None?
    else
      && WellFormed(want.value)
      && (forall k :: OwnedBy(have, k) <= OwnedBy(want, k))
      && (have.Some? ==> Texts(have.value.groups) <= Texts(want.value.groups))
  }

  lemma OwnedOnce(o: OmitOutputs)
    requires WellFormed(o)
    ensures forall id, k, k' | Owns(o, k, id) && Owns(o, k', id) :: k == k'
  {
    hide GroupSet, DefaultSet;
  }

  lemma {:induction false} NewGroupsTexts(have: seq<OutputGroup>, want: seq<OutputGroup>)
    requires DistinctTexts(want)
    ensures var r := NewGroups(have, want); DistinctTexts(r) && Texts(want) - Texts(have) <= Texts(r) <= Texts(want)
    decreases |want|
  {
    if want != [] {
      hide DistinctTexts, Texts, IndexOfText, GroupItems;
      var (before, g) := (want[..|want| - 1], want[|want| - 1]);
      assert want == before + [g];
      TextsSnoc(before, g);
      NewGroupsTexts(have, before);
      var r := NewGroups(have, before);
      TextsSnoc(r, OutputGroup(g.text, Missing(GroupItems(have, g.text), g.items)));
      TextHeld(have, g.text);
      assert r + [] == r;
    }
  }

  lemma TextHeld(gs: seq<OutputGroup>, text: string)
    ensures IndexOfText(gs, text) < |gs| <==> text in Texts(gs)
  {}

  lemma WithinBySets(have: seq<OutputGroup>, want: seq<OutputGroup>)
    requires DistinctTexts(have) && DistinctTexts(want)
    ensures GroupsWithin(have, want) <==> Texts(have) <= Texts(want) && forall t :: GroupSet(have, t) <= GroupSet(want, t)
  {
    hide GroupSet;
    if GroupsWithin(have, want) {
      forall t ensures GroupSet(have, t) <= GroupSet(want, t) {
        GroupItemsIs(have, t);
        GroupItemsIs(want, t);
        HeldWithin(have, want, t);
      }
      hide GroupItems;
      forall t | t in Texts(have) ensures t in Texts(want) {
        TextHeld(want, t);
      }
    }
    if Texts(have) <= Texts(want) && forall t :: GroupSet(have, t) <= GroupSet(want, t) {
      forall i | 0 <= i < |have| ensures IndexOfText(want, have[i].text) < |want| && IdSet(have[i].items) <= GroupItems(want, have[i].text) {
        TextHeld(want, have[i].text);
        GroupItemsIs(have, have[i].text);
        GroupItemsIs(want, have[i].text);
      }
    }
  }

  /** What the delta writes, want owns too, so it overlaps nothing. */
  lemma DeltaFits(have: Option<OmitOutputs>, w: OmitOutputs, d: OmitOutputs)
    requires GrowsTo(have, Some(w)) && (have.Some? ==> WellFormed(have.value))
    requires DefaultSet(d) <= DefaultSet(w) && DistinctTexts(d.groups) && forall t :: GroupSet(d.groups, t) <= GroupSet(w.groups, t)
    ensures !Overlaps(have, d)
  {
    hide GroupSet, DefaultSet;
    OwnedOnce(w);
    assert forall id, k | Owns(d, k, id) :: Owns(w, k, id);
    OneOwner(d);
    if have.Some? {
      forall id, k, k' | Owns(have.value, k, id) && Owns(d, k', id) ensures k == k' {
        assert id in OwnedBy(have, k) && id in OwnedBy(Some(w), k);
        assert Owns(w, k, id);
      }
    }
  }

  /** A delta of outputs can be written exactly when what is in force only has
      to grow. */
  lemma OutputsDeltaExactly(have: Option<OmitOutputs>, want: Option<OmitOutputs>)
    requires have.Some? ==> WellFormed(have.value)
    ensures OutputsDelta(have, want).Ok? <==> GrowsTo(have, want)
  {
    hide GroupSet, WellFormed, NewGroups, GroupsWithin, Overlaps, Texts, DistinctTexts;
    if want.Some? && WellFormed(want.value) {
      var w := want.value;
      var haveGroups := if have.Some? then have.value.groups else [];
      Texted(have);
      Texted(want);
      NoGroups();
      NoTexts();
      WithinBySets(haveGroups, w.groups);
      NewGroupsSets(haveGroups, w.groups);
      NewGroupsTexts(haveGroups, w.groups);
      forall t ensures OwnedBy(have, Group(t)) == GroupSet(haveGroups, t) && OwnedBy(want, Group(t)) == GroupSet(w.groups, t) {
      }
      OwnersWithin(have, w, haveGroups);
      if GrowsTo(have, want) {
        var listed := if have.Some? && HasDefault(have.value) then IdSet(have.value.items) else {};
        assert listed == OwnedBy(have, Default) && listed <= DefaultSet(w);
        var added := Missing(listed, w.items);
        var writes := HasDefault(w) && (!(have.Some? && HasDefault(have.value)) || have.value.text != w.text || added != []);
        var d := OmitOutputs(if writes then w.text else "", if writes then added else [], NewGroups(haveGroups, w.groups), writes);
        DeltaFits(have, w, d);
      }
    }
  }

  lemma NoTexts()
    ensures Texts([]) == {} && DistinctTexts([])
  {}

  lemma OwnersWithin(have: Option<OmitOutputs>, w: OmitOutputs, haveGroups: seq<OutputGroup>)
    requires forall t :: OwnedBy(have, Group(t)) == GroupSet(haveGroups, t)
    ensures (forall k :: OwnedBy(have, k) <= OwnedBy(Some(w), k)) <==>
              OwnedBy(have, Default) <= DefaultSet(w) && forall t :: GroupSet(haveGroups, t) <= GroupSet(w.groups, t)
  {
    hide GroupSet;
    if forall k :: OwnedBy(have, k) <= OwnedBy(Some(w), k) {
      assert OwnedBy(have, Default) <= OwnedBy(Some(w), Default);
      forall t ensures GroupSet(haveGroups, t) <= GroupSet(w.groups, t) {
        assert OwnedBy(have, Group(t)) <= OwnedBy(Some(w), Group(t));
      }
    }
  }

  /** The same groups, owning the same entries, and a default that sends
      anything with the same text. */
  ghost predicate SameSends(a: Option<OmitOutputs>, b: Option<OmitOutputs>) {
    && (a.None? <==> b.None?)
    && (b.Some? ==>
          && WellFormed(b.value)
          && (forall k :: OwnedBy(a, k) == OwnedBy(b, k))
          && Texts(a.value.groups) == Texts(b.value.groups)
          && (OwnedBy(b, Default) != {} ==> a.value.text == b.value.text))
  }

  ghost predicate AsWanted(m: Omit, want: Omit) {
    m.reasoning == want.reasoning && IdSet(m.items) == IdSet(want.items) && m.images == want.images && SameSends(m.outputs, want.outputs)
  }

  ghost predicate Reachable(have: Omit, want: Omit) {
    AsWanted(have, want) || exists d :: AsWanted(Merged(have, d), want)
  }

  lemma AddGroupTexts(gs: seq<OutputGroup>, g: OutputGroup)
    ensures Texts(AddGroup(gs, g)) == Texts(gs) + {g.text}
  {
    var i := IndexOfText(gs, g.text);
    if i == |gs| {
      TextsSnoc(gs, OutputGroup(g.text, Union([], g.items)));
    } else {
      var r := AddGroup(gs, g);
      assert forall j | 0 <= j < |gs| :: r[j].text == gs[j].text;
      assert g.text in Texts(gs);
      forall x | x in Texts(gs) ensures x in Texts(r) {
        var j :| 0 <= j < |gs| && gs[j].text == x;
        assert r[j].text == x;
      }
    }
  }

  lemma {:induction false} AddGroupsTexts(gs: seq<OutputGroup>, ds: seq<OutputGroup>)
    ensures Texts(AddGroups(gs, ds)) == Texts(gs) + Texts(ds)
    decreases |ds|
  {
    hide Texts, AddGroup;
    if ds == [] {
      NoTexts();
    } else {
      AddGroupsTexts(gs, ds[..|ds| - 1]);
      AddGroupTexts(AddGroups(gs, ds[..|ds| - 1]), ds[|ds| - 1]);
      assert ds == ds[..|ds| - 1] + [ds[|ds| - 1]];
      TextsSnoc(ds[..|ds| - 1], ds[|ds| - 1]);
    }
  }

  /** A merge only makes outputs grow, so what it reaches can be written. */
  lemma MergeGrows(have: Option<OmitOutputs>, d: OmitOutputs, want: Option<OmitOutputs>)
    requires (have.Some? ==> WellFormed(have.value)) && SameSends(Some(MergedOutputs(have, d)), want)
    ensures GrowsTo(have, want)
  {
    hide GroupSet, WellFormed, AddGroups, Texts, DistinctTexts;
    Texted(have);
    MergedSets(have, d);
    AddGroupsTexts(if have.Some? then have.value.groups else [], d.groups);
    var m := Some(MergedOutputs(have, d));
    forall k ensures OwnedBy(have, k) <= OwnedBy(want, k) {
      assert OwnedBy(m, k) == OwnedBy(want, k);
    }
  }

  lemma SameGrows(have: Option<OmitOutputs>, want: Option<OmitOutputs>)
    requires SameSends(have, want)
    ensures GrowsTo(have, want)
  {
    hide GroupSet, WellFormed, Texts;
  }

  /** What some delta reaches, or needs none, can be written. */
  lemma ReachableIsOk(have: Omit, want: Omit)
    requires have.outputs.Some? ==> WellFormed(have.outputs.value)
    requires (want.reasoning == "" || want.reasoning == OTHER_MODELS) && Reachable(have, want)
    ensures OmitDelta(have, want).Ok?
  {
    hide WellFormed, SameOutputs, OutputsDelta, Overlaps, MergedOutputs, OwnedBy, SameSends, Union, GrowsTo;
    OutputsDeltaExactly(have.outputs, want.outputs);
    if AsWanted(have, want) {
      SameGrows(have.outputs, want.outputs);
    } else {
      var d :| AsWanted(Merged(have, d), want);
      var m := Merged(have, d);
      if IsZero(d) {
        SameNone(m.outputs, want.outputs);
      } else if d.outputs.Some? && !Overlaps(have.outputs, d.outputs.value) {
        MergeGrows(have.outputs, d.outputs.value, want.outputs);
      } else {
        SameGrows(have.outputs, want.outputs);
      }
    }
  }

  lemma SameNone(a: Option<OmitOutputs>, b: Option<OmitOutputs>)
    requires SameSends(a, b)
    ensures a.None? <==> b.None?
  {}

  /** The same outputs in force are the same groups. */
  lemma SameOutputsSends(a: Option<OmitOutputs>, b: Option<OmitOutputs>)
    requires (a.Some? ==> WellFormed(a.value)) && SameOutputs(a, b)
    ensures SameSends(a, b)
  {
    SameOutputsOwners(a, b);
    if a.Some? {
      var (x, y) := (a.value.groups, b.value.groups);
      TextCount(x);
      TextCount(y);
      hide WellFormed, OwnedBy;
      forall t | t in Texts(x) ensures t in Texts(y) {
        var i :| 0 <= i < |x| && x[i].text == t;
        TextHeld(y, x[i].text);
      }
      Texted(a);
      Texted(b);
      SubsetOfSameSize(Texts(x), Texts(y));
    }
  }

  lemma WrittenGroups(have: Option<OmitOutputs>, want: Option<OmitOutputs>)
    requires OutputsDelta(have, want).Ok? && OutputsDelta(have, want).value.Some? && want.Some?
    ensures OutputsDelta(have, want).value.value.groups == NewGroups(if have.Some? then have.value.groups else [], want.value.groups)
  {
    hide Overlaps, WellFormed, NewGroups, GroupsWithin, Missing, HasDefault;
  }

  lemma WrittenTexts(have: Option<OmitOutputs>, want: OmitOutputs, d: OmitOutputs)
    requires GrowsTo(have, Some(want)) && d.groups == NewGroups(if have.Some? then have.value.groups else [], want.groups)
    ensures Texts(MergedOutputs(have, d).groups) == Texts(want.groups)
  {
    hide Texts, DistinctTexts, NewGroups, AddGroups, GroupSet, OwnedBy;
    var haveGroups := if have.Some? then have.value.groups else [];
    AddGroupsTexts(haveGroups, d.groups);
    NewGroupsTexts(haveGroups, want.groups);
    NoTexts();
  }

  lemma WrittenSends(have: Option<OmitOutputs>, want: Option<OmitOutputs>)
    requires have.Some? ==> WellFormed(have.value)
    requires OutputsDelta(have, want).Ok? && want.Some? && !SameOutputs(have, want)
    ensures var d := OutputsDelta(have, want).value;
            d.Some? && !Overlaps(have, d.value) && SameSends(Some(MergedOutputs(have, d.value)), want)
  {
    hide WellFormed, Overlaps, Texts, SameOutputs, OwnedBy, OutputsDelta, MergedOutputs, NewGroups, GrowsTo;
    OutputsDeltaRight(have, want);
    WrittenGroups(have, want);
    OutputsDeltaExactly(have, want);
    WrittenTexts(have, want.value, OutputsDelta(have, want).value.value);
    WantWellFormed(have, want);
  }

  /** A delta that can be written reaches what is wanted. */
  lemma OkIsReachable(have: Omit, want: Omit)
    requires (have.outputs.Some? ==> WellFormed(have.outputs.value)) && OmitDelta(have, want).Ok?
    ensures Reachable(have, want)
  {
    hide WellFormed, SameOutputs, OutputsDelta, Overlaps, MergedOutputs, OwnedBy, SameSends;
    OmitRuleRight(have, want);
    var d := OmitDelta(have, want).value;
    if SameOutputs(have.outputs, want.outputs) {
      SameOutputsSends(have.outputs, want.outputs);
    }
    if d.Some? {
      if IsZero(want) {
        NothingSent();
      } else {
        BothNone(have.outputs, want.outputs);
        DeltaNotZero(have, want);
        if !SameOutputs(have.outputs, want.outputs) {
          WrittenSends(have.outputs, want.outputs);
        }
      }
      assert AsWanted(Merged(have, d.value), want);
    }
  }

  lemma NothingSent()
    ensures SameSends(None, None)
  {}

  /** A delta is written exactly when some single member would do; for a rule
      no delta can set, only when nothing has to be written. */
  lemma OmitDeltaExactly(have: Omit, want: Omit)
    requires have.outputs.Some? ==> WellFormed(have.outputs.value)
    ensures want.reasoning == "" || want.reasoning == OTHER_MODELS ==> (OmitDelta(have, want).Ok? <==> Reachable(have, want))
    ensures want.reasoning != "" && want.reasoning != OTHER_MODELS ==>
              (OmitDelta(have, want).Ok? <==>
                 have.reasoning == want.reasoning && IdSet(have.items) == IdSet(want.items) && have.images == want.images
                 && SameOutputs(have.outputs, want.outputs))
  {
    hide Reachable, WellFormed, SameOutputs, OutputsDelta;
    if OmitDelta(have, want).Ok? {
      OkIsReachable(have, want);
    }
    if (want.reasoning == "" || want.reasoning == OTHER_MODELS) && Reachable(have, want) {
      ReachableIsOk(have, want);
    }
  }

  // ----- the delta, as it is written -----

  /** One more id looked at: missing when it is named and not held yet. */
  lemma {:induction false} MissingSnoc(have: set<Id>, ids: seq<Id>, id: Id)
    ensures Missing(have, ids + [id])
         == Missing(have, ids) + if id == "" || id in have + IdSet(ids) then [] else [id]
    decreases |ids|
  {
    if ids == [] {
      assert [] + [id] == [id] && [id][1..] == [];
    } else {
      assert (ids + [id])[1..] == ids[1..] + [id];
      IdsFirst(ids);
      MissingSnoc(if ids[0] == "" || ids[0] in have then have else have + {ids[0]}, ids[1..], id);
    }
  }

  lemma IdsFirst(ids: seq<Id>)
    requires ids != []
    ensures IdSet(ids) == IdSet(ids[1..]) + if ids[0] == "" then {} else {ids[0]}
  {
    assert ids == [ids[0]] + ids[1..];
  }

  lemma IdsLast(ids: seq<Id>, id: Id)
    ensures IdSet(ids + [id]) == IdSet(ids) + if id == "" then {} else {id}
  {
    assert id in ids + [id];
  }

  method AddMissing(have: set<Id>, ids: seq<Id>) returns (added: seq<Id>)
    ensures added == Missing(have, ids)
  {
    hide Missing;
    var listed := have;
    added := [];
    MissingNone(have);
    for n := 0 to |ids|
      invariant listed == have + IdSet(ids[..n]) && added == Missing(have, ids[..n])
    {
      assert ids[..n + 1] == ids[..n] + [ids[n]];
      MissingSnoc(have, ids[..n], ids[n]);
      IdsLast(ids[..n], ids[n]);
      if ids[n] != "" && ids[n] !in listed {
        listed := listed + {ids[n]};
        added := added + [ids[n]];
      } else {
        assert Missing(have, ids[..n]) + [] == Missing(have, ids[..n]);
      }
    }
    assert ids[..|ids|] == ids;
  }

  lemma MissingNone(have: set<Id>)
    ensures Missing(have, []) == [] && IdSet([]) == {}
  {}

  method AddGroupsMissing(have: seq<OutputGroup>, want: seq<OutputGroup>) returns (groups: seq<OutputGroup>)
    ensures groups == NewGroups(have, want)
  {
    hide Missing;
    groups := [];
    for n := 0 to |want|
      invariant groups == NewGroups(have, want[..n])
    {
      assert want[..n + 1][..n] == want[..n];
      var i := IndexOfText(have, want[n].text);
      var added := AddMissing(if i < |have| then IdSet(have[i].items) else {}, want[n].items);
      if i == |have| || added != [] {
        groups := groups + [OutputGroup(want[n].text, added)];
      }
    }
    assert want[..|want|] == want;
  }

  method WriteOutputsDelta(have: Option<OmitOutputs>, want: Option<OmitOutputs>) returns (d: Result<Option<OmitOutputs>, ()>)
    ensures d == OutputsDelta(have, want)
  {
    hide Missing, WellFormed, Overlaps, NewGroups, GroupsWithin;
    if want.None? {
      return if have.None? then Ok(None) else Err(());
    }
    var w := want.value;
    var own, ok := Owners(w);
    if !ok {
      return Err(());
    }
    var hasDefault := have.Some? && HasDefault(have.value);
    var listed := if hasDefault then IdSet(have.value.items) else {};
    var out := OmitOutputs("", [], [], false);
    if HasDefault(w) {
      if !(listed <= IdSet(w.items)) {
        return Err(());
      }
      var added := AddMissing(listed, w.items);
      if !hasDefault || have.value.text != w.text || added != [] {
        out := out.(text := w.text, textSet := true, items := added);
      }
    } else if listed != {} {
      return Err(());
    }
    var haveGroups := if have.Some? then have.value.groups else [];
    if !GroupsWithin(haveGroups, w.groups) {
      return Err(());
    }
    var groups := AddGroupsMissing(haveGroups, w.groups);
    out := out.(groups := groups);
    var overlap := OutputsOverlap(have, out);
    return if overlap then Err(()) else Ok(Some(out));
  }

  /** Nothing when want is in force, and an error when no one delta puts it. */
  method WriteOmitDelta(have: Omit, want: Omit) returns (d: Result<Option<Omit>, ()>)
    ensures d == OmitDelta(have, want)
  {
    hide Missing, OutputsDelta, SameOutputs;
    var listed, wanted := IdSet(have.items), IdSet(want.items);
    var sameOutputs := SameOutputs(have.outputs, want.outputs);
    if have.reasoning == want.reasoning && listed == wanted && sameOutputs && have.images == want.images {
      return Ok(None);
    }
    if IsZero(want) {
      return Ok(Some(NO_OMIT));
    }
    if (want.reasoning != "" && want.reasoning != OTHER_MODELS) || (have.reasoning != "" && want.reasoning == "") {
      return Err(());
    }
    var outputs := WriteOutputsDelta(have.outputs, want.outputs);
    if !(listed <= wanted) || outputs.Err? || (have.images.Some? && want.images.None?) {
      return Err(());
    }
    var out := NO_OMIT;
    if want.reasoning != have.reasoning {
      out := out.(reasoning := want.reasoning);
    }
    var items := AddMissing(listed, want.items);
    out := out.(items := items);
    if !sameOutputs {
      out := out.(outputs := outputs.value);
    }
    if have.images != want.images {
      out := out.(images := want.images);
    }
    return Ok(Some(out));
  }
}

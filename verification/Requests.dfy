/** What a request sends, told from where things stand: which images are
    replaced, which items are dropped, and which model was in force where. */
module Requests {
  import opened Entries
  import opened Tree
  import opened Context
  import O = OmitRules
  import S = SettingsReplay
  import I = Instructions

  // ----- the image parts, one after another -----

  /** Part j of an item that may hold images: a message, or an output that is
      a list of parts. */
  ghost function PartAt(item: Item, j: nat): Option<Part> {
    match item
    case Message(content) => if j < |content| then Some(content[j]) else None
    case FunctionCallOutput(_, OutputParts(parts)) => if j < |parts| then Some(parts[j]) else None
    case _ => None
  }

  /** An item less its parts. */
  ghost function Shell(item: Item): Item {
    match item
    case Message(_) => Message([])
    case FunctionCallOutput(k, OutputParts(_)) => FunctionCallOutput(k, OutputParts([]))
    case _ => item
  }

  ghost predicate ImageAt(s: Slot, j: nat) {
    s.entry.body.ItemBody? && PartAt(s.item, j).Some? && PartAt(s.item, j).value.InputImage?
  }

  /** The image parts from part j of slot i on, over the slots of item entries
      in request order. */
  ghost function ImagesFrom(slots: seq<Slot>, i: nat, j: nat): nat
    decreases |slots| - i, if i < |slots| then |PartsOf(slots[i].item)| - j else 0
  {
    if i >= |slots| then 0
    else if PartAt(slots[i].item, j).None? then ImagesFrom(slots, i + 1, 0)
    else (if ImageAt(slots[i], j) then 1 else 0) + ImagesFrom(slots, i, j + 1)
  }

  lemma PartsAre(item: Item)
    ensures forall j: nat :: PartAt(item, j) == if j < |PartsOf(item)| then Some(PartsOf(item)[j]) else None
  {}

  lemma {:induction false} PlacedAt(parts: seq<Part>, n: int, text: string, j: nat)
    requires j < |parts|
    ensures |Placed(parts, n, text)| == |parts|
    ensures Placed(parts, n, text)[j]
         == if parts[j].InputImage? && ImagesIn(parts[..j]) < n then InputText(text) else parts[j]
    ensures ImagesIn(parts[j..]) + ImagesIn(parts[..j]) == ImagesIn(parts)
  {
    if j > 0 {
      PlacedAt(parts[1..], if parts[0].InputImage? then n - 1 else n, text, j - 1);
      assert parts[..j][1..] == parts[1..][..j - 1] && parts[j..] == parts[1..][j - 1..];
    } else {
      assert parts[0..] == parts;
      PlacedLength(parts, n, text);
    }
  }

  lemma {:induction false} PlacedLength(parts: seq<Part>, n: int, text: string)
    ensures |Placed(parts, n, text)| == |parts|
  {
    if parts != [] {
      PlacedLength(parts[1..], if parts[0].InputImage? then n - 1 else n, text);
    }
  }

  /** The images of the rest of one slot, and of all the slots after it. */
  lemma {:induction false} ImagesFromIs(slots: seq<Slot>, i: nat, j: nat)
    requires i < |slots| && j <= |PartsOf(slots[i].item)|
    ensures ImagesFrom(slots, i, j)
         == (if slots[i].entry.body.ItemBody? then ImagesIn(PartsOf(slots[i].item)[j..]) else 0) + Total(slots[i + 1..])
    decreases |slots| - i, |PartsOf(slots[i].item)| - j
  {
    var parts := PartsOf(slots[i].item);
    PartsAre(slots[i].item);
    if j < |parts| {
      ImagesFromIs(slots, i, j + 1);
      assert parts[j..][1..] == parts[j + 1..];
    } else {
      assert parts[j..] == [];
      if i + 1 < |slots| {
        ImagesFromIs(slots, i + 1, 0);
        var next := slots[i + 1];
        assert PartsOf(next.item)[0..] == PartsOf(next.item);
        assert slots[i + 1..][0] == next && slots[i + 1..][1..] == slots[i + 2..];
      } else {
        assert slots[i + 1..] == [];
      }
    }
  }

  /** A slot as sent: the same entry and item, some parts but for images. */
  ghost predicate SentAs(was: Slot, now: Slot) {
    && now.entry == was.entry && Shell(now.item) == Shell(was.item)
    && forall j: nat :: PartAt(now.item, j).Some? <==> PartAt(was.item, j).Some?
  }

  lemma PlaceholdersAt(s: Slot, n: int, text: string, j: nat)
    requires PartAt(s.item, j).Some?
    ensures var now := WithPlaceholders(s.item, n, text);
            && Shell(now) == Shell(s.item)
            && PartAt(now, j) == Some(if PartAt(s.item, j).value.InputImage? && ImagesIn(PartsOf(s.item)[..j]) < n then InputText(text) else PartAt(s.item, j).value)
  {
    hide Placed, ImagesIn;
    PartsAre(s.item);
    PlacedAt(PartsOf(s.item), n, text, j);
  }

  lemma PlaceholdersShape(s: Slot, n: int, text: string)
    ensures SentAs(s, s.(item := WithPlaceholders(s.item, n, text)))
  {
    hide Placed;
    PartsAre(s.item);
    PlacedLength(PartsOf(s.item), n, text);
  }

  /** Under the keep rule an image part is sent as the placeholder exactly
      when keep or more stand after it, and nothing else is touched: the last
      keep are left, or all there are. */
  lemma KeepExactly(path: seq<Entry>, im: OmitImages, slots: seq<Slot>, i: nat)
    requires im.before == "" && i < |slots|
    ensures var out := SendImages(path, im, slots);
            && |out| == |slots| && SentAs(slots[i], out[i])
            && forall j: nat | PartAt(slots[i].item, j).Some? ::
                 PartAt(out[i].item, j)
                 == if ImageAt(slots[i], j) && ImagesFrom(slots, i, j + 1) >= im.keep then Some(InputText(im.placeholder)) else PartAt(slots[i].item, j)
  {
    hide WithPlaceholders, ImagesFrom, ImagesIn, SentAs;
    var (s, total) := (slots[i], Total(slots));
    var n := total - im.keep - Total(slots[..i]);
    SlotKept(slots, total - im.keep, im.placeholder, i);
    if s.entry.body.ItemBody? {
      PlaceholdersShape(s, n, im.placeholder);
      forall j: nat | PartAt(s.item, j).Some?
        ensures PartAt(WithPlaceholders(s.item, n, im.placeholder), j)
             == if ImageAt(s, j) && ImagesFrom(slots, i, j + 1) >= im.keep then Some(InputText(im.placeholder)) else PartAt(s.item, j)
      {
        PlaceholdersAt(s, n, im.placeholder, j);
        StandsAfter(slots, i, j);
      }
    } else {
      assert SentAs(s, s) by { Untouched(s); }
    }
  }

  lemma Untouched(s: Slot)
    ensures SentAs(s, s)
  {}

  lemma SlotKept(slots: seq<Slot>, n: int, text: string, i: nat)
    requires i < |slots|
    ensures |KeepLast(slots, n, text)| == |slots|
    ensures KeepLast(slots, n, text)[i]
         == if slots[i].entry.body.ItemBody? then slots[i].(item := WithPlaceholders(slots[i].item, n - Total(slots[..i]), text)) else slots[i]
  {
    hide WithPlaceholders, Total;
    KeepLastShape(slots, n, text);
    KeepLastFrom(slots, n, text, i);
    assert KeepLast(slots, n, text)[i] == KeepLast(slots, n, text)[i..][0];
    assert slots[i..][0] == slots[i];
  }

  /** The images before a part, it, and those after it are all of them. */
  lemma StandsAfter(slots: seq<Slot>, i: nat, j: nat)
    requires i < |slots| && PartAt(slots[i].item, j).Some?
    ensures ImageAt(slots[i], j) ==>
              Total(slots) == Total(slots[..i]) + ImagesIn(PartsOf(slots[i].item)[..j]) + 1 + ImagesFrom(slots, i, j + 1)
  {
    hide KeepLast;
    var parts := PartsOf(slots[i].item);
    PartsAre(slots[i].item);
    ImagesFromIs(slots, i, j + 1);
    KeepLastFrom(slots, 0, "", i);
    assert slots[i..][0] == slots[i] && slots[i..][1..] == slots[i + 1..];
    PlacedAt(parts, 0, "", j);
    assert parts[j..][1..] == parts[j + 1..] && parts[j..][0] == parts[j];
  }

  /** So from any part on, as many images are left as there are, up to keep. */
  lemma {:induction false} KeepLeaves(path: seq<Entry>, im: OmitImages, slots: seq<Slot>, i: nat, j: nat)
    requires im.before == ""
    ensures var (all, left) := (ImagesFrom(slots, i, j), ImagesFrom(SendImages(path, im, slots), i, j));
            left == if all < im.keep then all else im.keep
    decreases |slots| - i, if i < |slots| then |PartsOf(slots[i].item)| - j else 0
  {
    hide SendImages, Shell;
    var out := SendImages(path, im, slots);
    SameLength(path, im, slots);
    if i < |slots| {
      KeepExactly(path, im, slots, i);
      PartsAre(slots[i].item);
      if PartAt(slots[i].item, j).None? {
        KeepLeaves(path, im, slots, i + 1, 0);
      } else {
        KeepLeaves(path, im, slots, i, j + 1);
      }
    }
  }

  lemma SameLength(path: seq<Entry>, im: OmitImages, slots: seq<Slot>)
    requires im.before == ""
    ensures |SendImages(path, im, slots)| == |slots|
  {
    KeepLastShape(slots, Total(slots) - im.keep, im.placeholder);
  }

  /** Under the before rule the images of the entries above the one named on
      the path are sent as the placeholder, and no others; a name that is not
      on the path does nothing. */
  lemma BeforeExactly(path: seq<Entry>, im: OmitImages, slots: seq<Slot>, b: nat, i: nat)
    requires Distinct(path) && im.before != "" && b < |path| && path[b].id == im.before && i < |slots|
    ensures var out := SendImages(path, im, slots);
            && |out| == |slots| && SentAs(slots[i], out[i])
            && forall j: nat | PartAt(slots[i].item, j).Some? ::
                 PartAt(out[i].item, j)
                 == if ImageAt(slots[i], j) && (exists k :: 0 <= k < b && path[k].id == slots[i].entry.id) then Some(InputText(im.placeholder)) else PartAt(slots[i].item, j)
  {
    hide WithPlaceholders, ImagesIn, SentAs;
    var s := slots[i];
    PositionIs(path, b);
    Above(path, b, s.entry.id);
    if s.entry.body.ItemBody? && PositionOf(path, s.entry.id) < b {
      var n := ImagesIn(PartsOf(s.item));
      PlaceholdersShape(s, n, im.placeholder);
      PartsAre(s.item);
      forall j: nat | PartAt(s.item, j).Some?
        ensures PartAt(WithPlaceholders(s.item, n, im.placeholder), j) == if ImageAt(s, j) then Some(InputText(im.placeholder)) else PartAt(s.item, j)
      {
        PlaceholdersAt(s, n, im.placeholder, j);
        ImageCounts(PartsOf(s.item), j);
      }
    } else {
      assert SentAs(s, s) by { Untouched(s); }
    }
  }

  lemma ImageCounts(parts: seq<Part>, j: nat)
    requires j < |parts|
    ensures parts[j].InputImage? ==> ImagesIn(parts[..j]) < ImagesIn(parts)
  {
    PlacedAt(parts, 0, "", j);
    assert parts[j..][0] == parts[j];
  }

  lemma Above(path: seq<Entry>, b: nat, id: Id)
    requires b < |path|
    ensures PositionOf(path, id) < b <==> exists k :: 0 <= k < b && path[k].id == id
  {
    var p := PositionOf(path, id);
    if p < b {
      assert path[p].id == id;
    }
  }

  lemma BeforeNothing(path: seq<Entry>, im: OmitImages, slots: seq<Slot>)
    requires im.before != "" && im.before !in Ids(path)
    ensures SendImages(path, im, slots) == slots
  {
    assert forall k | 0 <= k < |path| :: path[k].id in Ids(path);
  }

  // ----- the model in force, and the reasoning of other models -----

  /** An entry that sets the model, to another or to none. */
  ghost predicate SetsModel(e: Entry) {
    (e.body.ConfigBody? && (e.body.config.model != "" || e.body.config.replace)) || e.body.CompactionBody?
  }

  ghost function ModelSet(e: Entry): string
    requires SetsModel(e)
  {
    if e.body.ConfigBody? then e.body.config.model else e.body.compaction.config.model
  }

  /** m is the model in force after the first n entries: what the last entry
      that sets one sets, and none before any does. */
  ghost predicate InForceAt(path: seq<Entry>, n: nat, m: string)
    requires n <= |path|
  {
    || (exists k :: 0 <= k < n && LastSets(path, n, k) && m == ModelSet(path[k]))
    || (m == "" && forall k | 0 <= k < n :: !SetsModel(path[k]))
  }

  ghost predicate LastSets(path: seq<Entry>, n: nat, k: nat)
    requires k < n <= |path|
  {
    SetsModel(path[k]) && forall i | k < i < n :: !SetsModel(path[i])
  }

  lemma InForceOn(path: seq<Entry>, n: nat, m: string)
    requires n < |path| && InForceAt(path, n, m)
    ensures InForceAt(path, n + 1, ModelAfter(path[n], m))
  {
    ModelStep(path[n], m);
    hide SetsModel, ModelSet, ModelAfter;
    if SetsModel(path[n]) {
      assert LastSets(path, n + 1, n);
    } else if exists k :: 0 <= k < n && LastSets(path, n, k) && m == ModelSet(path[k]) {
      var k :| 0 <= k < n && LastSets(path, n, k) && m == ModelSet(path[k]);
      assert LastSets(path, n + 1, k);
    }
  }

  lemma InForceWithin(path: seq<Entry>, longer: seq<Entry>, n: nat, m: string)
    requires path <= longer && n <= |path| && InForceAt(path, n, m)
    ensures InForceAt(longer, n, m)
  {
    hide SetsModel, ModelSet;
    if exists k :: 0 <= k < n && LastSets(path, n, k) && m == ModelSet(path[k]) {
      var k :| 0 <= k < n && LastSets(path, n, k) && m == ModelSet(path[k]);
      assert LastSets(longer, n, k);
    }
  }

  lemma ModelStep(e: Entry, m: string)
    ensures ModelAfter(e, m) == if SetsModel(e) then ModelSet(e) else m
  {}

  lemma OneInForce(path: seq<Entry>, n: nat, m: string, o: string)
    requires n <= |path| && InForceAt(path, n, m) && InForceAt(path, n, o)
    ensures m == o
  {
    hide SetsModel, ModelSet;
    if exists k :: 0 <= k < n && SetsModel(path[k]) {
      var i :| 0 <= i < n && LastSets(path, n, i) && m == ModelSet(path[i]);
      var j :| 0 <= j < n && LastSets(path, n, j) && o == ModelSet(path[j]);
    }
  }

  /** A reasoning item of a response: what a model may claim as its own. */
  ghost predicate Attributed(e: Entry) {
    e.body.ItemBody? && e.body.item.Reasoning? && e.body.responseId != ""
  }

  ghost predicate ModelsRight(path: seq<Entry>, n: nat, models: map<Id, string>)
    requires n <= |path|
  {
    && (forall i | 0 <= i < n && path[i].id in models ::
          Attributed(path[i]) && models[path[i].id] != "" && InForceAt(path, i, models[path[i].id]))
    && (forall i | 0 <= i < n && Attributed(path[i]) && path[i].id !in models :: InForceAt(path, i, ""))
    && models.Keys <= Ids(path[..n])
  }

  ghost predicate ModelsAt(path: seq<Entry>, n: nat)
    requires n <= |path|
  {
    var (models, model) := ModelsOfOutput(path[..n]);
    InForceAt(path, n, model) && ModelsRight(path, n, models)
  }

  lemma ModelsNext(path: seq<Entry>, n: nat)
    requires Distinct(path) && n < |path| && ModelsAt(path, n)
    ensures ModelsAt(path, n + 1)
  {
    hide InForceAt, ModelsRight, ModelAfter, ModelsOfOutput, Attributed, Distinct;
    var (models, model) := ModelsOfOutput(path[..n]);
    InForceOn(path, n, model);
    ModelsSnoc(path[..n], path[n]);
    assert path[..n + 1] == path[..n] + [path[n]];
    ModelsRightOn(path, n, models, model);
  }

  /** Each attributed reasoning item is under the model in force at it, and
      nothing else is under any. */
  lemma {:induction false} ModelsExactly(path: seq<Entry>, n: nat)
    requires Distinct(path) && n <= |path|
    ensures var (models, model) := ModelsOfOutput(path[..n]);
            InForceAt(path, n, model) && ModelsRight(path, n, models)
  {
    if n == 0 {
      assert path[..0] == [];
    } else {
      ModelsExactly(path, n - 1);
      ModelsNext(path, n - 1);
      hide InForceAt, ModelsRight, ModelsOfOutput, Distinct;
    }
  }

  lemma ModelsSnoc(path: seq<Entry>, e: Entry)
    ensures var (models, model) := ModelsOfOutput(path);
            ModelsOfOutput(path + [e]) == (if Attributed(e) && model != "" then models[e.id := model] else models, ModelAfter(e, model))
  {
    assert (path + [e])[..|path|] == path;
  }

  lemma ModelsRightOn(path: seq<Entry>, n: nat, models: map<Id, string>, model: string)
    requires Distinct(path) && n < |path| && ModelsRight(path, n, models) && InForceAt(path, n, model)
    ensures ModelsRight(path, n + 1, if Attributed(path[n]) && model != "" then models[path[n].id := model] else models)
  {
    hide InForceAt, Attributed;
    assert path[..n + 1] == path[..n] + [path[n]];
    IdsSnoc(path[..n], path[n]);
    NewId(path, n);
  }

  lemma NewId(path: seq<Entry>, n: nat)
    requires Distinct(path) && n < |path|
    ensures path[n].id !in Ids(path[..n]) && forall i | 0 <= i < n :: path[i].id != path[n].id
  {
    assert forall i | 0 <= i < n :: path[..n][i] == path[i];
  }

  /** A slot of the path is dropped exactly when it is an item's and listed,
      or, by the other-models rule, the reasoning of a response written under
      another model than the one in force now, neither being none. */
  lemma LeftOutExactly(path: seq<Entry>, om: Omit, model: string, s: Slot, i: nat, m: string)
    requires Distinct(path) && i < |path| && s.entry == path[i] && InForceAt(path, i, m)
    ensures LeftOut(om, model, ModelsOfOutput(path).0, s) <==>
              && path[i].body.ItemBody?
              && (path[i].id in om.items
                  || (om.reasoning == O.OTHER_MODELS && Attributed(path[i]) && m != "" && model != "" && m != model))
  {
    hide InForceAt;
    ModelsExactly(path, |path|);
    assert path[..|path|] == path;
    var models := ModelsOfOutput(path).0;
    if path[i].id in models {
      OneInForce(path, i, m, models[path[i].id]);
    } else if Attributed(path[i]) {
      OneInForce(path, i, m, "");
    }
  }

  /** at are the places of slots, in order, that are kept. */
  ghost predicate KeptAt(om: Omit, model: string, models: map<Id, string>, slots: seq<Slot>, at: seq<nat>, out: seq<Slot>) {
    && |at| == |out|
    && (forall k | 0 <= k < |at| :: at[k] < |slots| && out[k] == slots[at[k]])
    && (forall k, l | 0 <= k < l < |at| :: at[k] < at[l])
    && (forall i: nat | i < |slots| :: i in at <==> !LeftOut(om, model, models, slots[i]))
  }

  lemma KeptOn(om: Omit, model: string, models: map<Id, string>, slots: seq<Slot>, at: seq<nat>, out: seq<Slot>, s: Slot)
    requires KeptAt(om, model, models, slots, at, out)
    ensures LeftOut(om, model, models, s) ==> KeptAt(om, model, models, slots + [s], at, out)
    ensures !LeftOut(om, model, models, s) ==> KeptAt(om, model, models, slots + [s], at + [|slots|], out + [s])
  {
    hide LeftOut;
    var (all, more) := (slots + [s], at + [|slots|]);
    forall i: nat | i < |all| ensures i in more <==> i in at || i == |slots| {
      assert more[|at|] == |slots|;
    }
    assert forall i | i in at :: i < |slots|;
  }

  lemma {:induction false} FilterSnoc(om: Omit, model: string, models: map<Id, string>, slots: seq<Slot>, s: Slot)
    ensures Filter(om, model, models, slots + [s])
         == Filter(om, model, models, slots) + if LeftOut(om, model, models, s) then [] else [s]
  {
    hide LeftOut;
    if slots == [] {
      assert [] + [s] == [s] && [s][1..] == [];
    } else {
      assert (slots + [s])[1..] == slots[1..] + [s];
      FilterSnoc(om, model, models, slots[1..], s);
    }
  }

  /** What is not dropped is sent, in order. */
  lemma {:induction false} FilterExactly(om: Omit, model: string, models: map<Id, string>, slots: seq<Slot>) returns (at: seq<nat>)
    ensures KeptAt(om, model, models, slots, at, Filter(om, model, models, slots))
  {
    hide LeftOut;
    if slots == [] {
      at := [];
    } else {
      hide KeptAt, Filter;
      var (n, s) := (|slots| - 1, slots[|slots| - 1]);
      at := FilterExactly(om, model, models, slots[..n]);
      assert slots == slots[..n] + [s];
      KeptOn(om, model, models, slots[..n], at, Filter(om, model, models, slots[..n]), s);
      FilterSnoc(om, model, models, slots[..n], s);
      var out := Filter(om, model, models, slots[..n]);
      assert out + [] == out;
      at := if LeftOut(om, model, models, s) then at else at + [n];
    }
  }

  // ----- what a path selects -----

  predicate Gives(e: Entry) {
    e.body.ItemBody? || e.body.BranchSummaryBody?
  }

  function GivenBy(e: Entry): Item
    requires Gives(e)
  {
    if e.body.ItemBody? then e.body.item else e.body.summary
  }

  /** The positions from a up to b of the entries that give an item. */
  ghost function GivingAt(path: seq<Entry>, a: nat, b: nat): seq<nat>
    requires a <= b <= |path|
  {
    if a == b then [] else GivingAt(path, a, b - 1) + if Gives(path[b - 1]) then [b - 1] else []
  }

  lemma {:induction false} GivingExact(path: seq<Entry>, a: nat, b: nat)
    requires a <= b <= |path|
    ensures var at := GivingAt(path, a, b);
            && Rising(at, b)
            && (forall k | 0 <= k < |at| :: a <= at[k] && Gives(path[at[k]]))
            && (forall i | a <= i < b && Gives(path[i]) :: i in at)
  {
    if a < b {
      hide Gives, Rising;
      var last := b - 1;
      GivingExact(path, a, last);
      var (before, at) := (GivingAt(path, a, last), GivingAt(path, a, b));
      RisingSnoc(before, last);
      RisingWithin(before, last);
      assert at == if Gives(path[last]) then before + [last] else before;
      forall k | 0 <= k < |at| ensures a <= at[k] < b && Gives(path[at[k]]) {
        assert k < |before| ==> at[k] == before[k];
      }
    }
  }

  ghost predicate AllGive(path: seq<Entry>, at: seq<nat>) {
    forall k | 0 <= k < |at| :: at[k] < |path| && Gives(path[at[k]])
  }

  /** The slots those positions give, each its entry's item. */
  ghost function SlotsAt(path: seq<Entry>, at: seq<nat>): seq<Slot>
    requires AllGive(path, at)
  {
    seq(|at|, k requires 0 <= k < |at| => Slot(GivenBy(path[at[k]]), path[at[k]]))
  }

  lemma {:induction false} ContributedIs(path: seq<Entry>, a: nat, b: nat)
    requires a <= b <= |path|
    ensures AllGive(path, GivingAt(path, a, b))
    ensures Contributed(path[a..b]) == SlotsAt(path, GivingAt(path, a, b))
    decreases b - a
  {
    GivingExact(path, a, b);
    if a == b {
      assert path[a..b] == [];
    } else {
      hide Gives, Contributed, GivingAt, SlotsAt;
      ContributedIs(path, a, b - 1);
      ContributedOn(path, a, b);
      GivingOn(path, a, b);
    }
  }

  lemma ContributedOn(path: seq<Entry>, a: nat, b: nat)
    requires a < b <= |path|
    ensures Contributed(path[a..b]) == Contributed(path[a..b - 1]) + if Gives(path[b - 1]) then [Slot(GivenBy(path[b - 1]), path[b - 1])] else []
  {
    hide Gives, Contributed;
    assert path[a..b] == path[a..b - 1] + [path[b - 1]];
    ContributedConcat(path[a..b - 1], [path[b - 1]]);
    OneGiven(path[b - 1]);
  }

  lemma GivingOn(path: seq<Entry>, a: nat, b: nat)
    requires a < b <= |path|
    requires AllGive(path, GivingAt(path, a, b - 1)) && AllGive(path, GivingAt(path, a, b))
    ensures SlotsAt(path, GivingAt(path, a, b))
         == SlotsAt(path, GivingAt(path, a, b - 1)) + if Gives(path[b - 1]) then [Slot(GivenBy(path[b - 1]), path[b - 1])] else []
  {
    hide Gives, GivenBy;
    var (at, more) := (GivingAt(path, a, b - 1), GivingAt(path, a, b));
    assert more == at + if Gives(path[b - 1]) then [b - 1] else [];
  }

  lemma OneGiven(e: Entry)
    ensures Contributed([e]) == if Gives(e) then [Slot(GivenBy(e), e)] else []
  {
    assert [e][1..] == [];
  }

  ghost predicate IsLastCompaction(path: seq<Entry>, c: nat) {
    c < |path| && path[c].body.CompactionBody? && forall i | c < i < |path| :: !path[i].body.CompactionBody?
  }

  /** f is where the path first holds the id, above c. */
  ghost predicate FirstHeld(path: seq<Entry>, c: nat, id: Id, f: nat) {
    f < c <= |path| && path[f].id == id && forall i | 0 <= i < f :: path[i].id != id
  }

  /** With no compaction a path selects the items and branch summaries on it,
      in order. */
  lemma SelectedPlain(hash: I.TextHash, path: seq<Entry>)
    requires forall i | 0 <= i < |path| :: !path[i].body.CompactionBody?
    ensures var (r, at) := (Selected(hash, path), GivingAt(path, 0, |path|));
            && r.Some?
            && AllGive(path, at)
            && r.value.slots == SlotsAt(path, at)
  {
    hide Gives, GivenBy, Contributed, S.Replay, GivingAt;
    ContributedIs(path, 0, |path|);
    assert path[0..|path|] == path;
  }

  /** With one, it selects nothing at all when the first entry kept is not
      above it. */
  lemma SelectedNone(hash: I.TextHash, path: seq<Entry>, c: nat)
    requires IsLastCompaction(path, c)
    ensures Selected(hash, path).None? <==> forall i | 0 <= i < c :: path[i].id != path[c].body.compaction.firstKept
  {
    hide Contributed, S.Replay;
    assert LastCompaction(path) == c;
    assert forall i | 0 <= i < c :: path[..c][i] == path[i];
  }

  /** Otherwise its summary and pins stand for all before that entry. */
  lemma SelectedExactly(hash: I.TextHash, path: seq<Entry>, c: nat, f: nat)
    requires IsLastCompaction(path, c) && FirstHeld(path, c, path[c].body.compaction.firstKept, f)
    ensures var (r, m) := (Selected(hash, path), path[c].body.compaction);
            var at := GivingAt(path, f, c) + GivingAt(path, c + 1, |path|);
            && r.Some?
            && AllGive(path, at)
            && r.value.slots == [Slot(m.summary, path[c])] + seq(|m.pinned|, i requires 0 <= i < |m.pinned| => Slot(m.pinned[i], path[c])) + SlotsAt(path, at)
  {
    hide Gives, GivenBy, Contributed, S.Replay, GivingAt, SlotsAt;
    SelectedParts(hash, path, c, f);
    ContributedIs(path, f, c);
    ContributedIs(path, c + 1, |path|);
    SlotsJoin(path, GivingAt(path, f, c), GivingAt(path, c + 1, |path|));
  }

  lemma SelectedParts(hash: I.TextHash, path: seq<Entry>, c: nat, f: nat)
    requires IsLastCompaction(path, c) && FirstHeld(path, c, path[c].body.compaction.firstKept, f)
    ensures var (r, m) := (Selected(hash, path), path[c].body.compaction);
            && r.Some?
            && r.value.slots == [Slot(m.summary, path[c])] + seq(|m.pinned|, i requires 0 <= i < |m.pinned| => Slot(m.pinned[i], path[c]))
                                + (Contributed(path[f..c]) + Contributed(path[c + 1..|path|]))
  {
    hide Contributed, S.Replay;
    assert LastCompaction(path) == c;
    assert forall i | 0 <= i < c :: path[..c][i] == path[i];
    assert PositionOf(path[..c], path[c].body.compaction.firstKept) == f;
    assert path[c + 1..|path|] == path[c + 1..];
  }

  lemma SlotsJoin(path: seq<Entry>, a: seq<nat>, b: seq<nat>)
    requires AllGive(path, a) && AllGive(path, b)
    ensures AllGive(path, a + b)
    ensures SlotsAt(path, a + b) == SlotsAt(path, a) + SlotsAt(path, b)
  {
    hide Gives, GivenBy;
  }

  /** The settings of a request, field by field: the last word after the
      compaction, and else the compaction's own. */
  lemma FieldsAfter(hash: I.TextHash, path: seq<Entry>, f: S.Field, c: nat)
    requires c < |path| && path[c].body.CompactionBody? && IsLastCompaction(path, c) && Selected(hash, path).Some?
    ensures var now := S.FieldOf(Selected(hash, path).value.settings, f);
            && (forall i: nat | c < i && S.SpokeLast(path, i, f) :: i < |path| && path[i].body.ConfigBody? && now == S.WordOf(path[i].body.config, f))
            && ((forall i | c < i < |path| :: !S.Speaks(path[i], f)) ==> now == S.FieldOf(path[c].body.compaction.config, f))
  {
    hide S.Replay, S.Speaks, S.WordOf, Contributed, PositionOf, Selected, IsLastCompaction, S.SpokeLast, CheckpointSettings;
    var (m, rest) := (path[c].body.compaction, path[c + 1..]);
    SettingsAfter(hash, path, c, f);
    NeverAfter(path, c, f);
    S.FieldsExactly(hash, CheckpointSettings(m), rest, f);
    forall i: nat | c < i && S.SpokeLast(path, i, f)
      ensures i < |path| && path[i].body.ConfigBody? && S.FieldOf(Selected(hash, path).value.settings, f) == S.WordOf(path[i].body.config, f)
    {
      S.SpokeBefore(path, i, f);
      SpokeAfter(path, c, i, f);
    }
  }

  lemma SettingsAfter(hash: I.TextHash, path: seq<Entry>, c: nat, f: S.Field)
    requires IsLastCompaction(path, c) && Selected(hash, path).Some?
    ensures var m := path[c].body.compaction;
            && Selected(hash, path).value.settings == S.Replay(hash, CheckpointSettings(m), path[c + 1..])
            && S.FieldOf(CheckpointSettings(m), f) == S.FieldOf(m.config, f)
  {
    hide S.Replay, Contributed, PositionOf;
    assert LastCompaction(path) == c;
  }

  lemma SpokeAfter(path: seq<Entry>, c: nat, i: nat, f: S.Field)
    requires c < i && S.SpokeLast(path, i, f)
    ensures S.SpokeLast(path[c + 1..], i - c - 1, f) && path[c + 1..][i - c - 1] == path[i]
  {
    hide S.Speaks;
    var rest := path[c + 1..];
    assert forall j | 0 <= j < |rest| :: rest[j] == path[c + 1 + j];
  }

  lemma NeverAfter(path: seq<Entry>, c: nat, f: S.Field)
    requires c < |path|
    ensures (forall i | c < i < |path| :: !S.Speaks(path[i], f)) ==> S.NeverSpoke(path[c + 1..], f)
  {
    hide S.Speaks;
  }

  // ----- what of that is sent -----

  /** The text the omit sends an entry's output as: that of the one group that
      owns the entry, named or default. */
  ghost predicate TextIs(om: Omit, id: Id, text: Option<string>) {
    match text
    case Some(t) => om.outputs.Some? && (O.Owns(om.outputs.value, O.Group(t), id) || (O.Owns(om.outputs.value, O.Default, id) && t == om.outputs.value.text))
    case None => om.outputs.Some? ==> forall k :: !O.Owns(om.outputs.value, k, id)
  }

  ghost predicate OutputAs(om: Omit, was: Slot, now: Slot) {
    exists text :: TextIs(om, was.entry.id, text)
      && now == if was.entry.body.ItemBody? && was.item.FunctionCallOutput? && text.Some? then was.(item := FunctionCallOutput(was.item.callId, OutputText(text.value))) else was
  }

  lemma OutputExactly(om: Omit, s: Slot)
    requires (om.outputs.Some? ==> O.WellFormed(om.outputs.value)) && s.entry.id != ""
    ensures OutputAs(om, s, SendOutput(om, s))
  {
    hide O.WellFormed, O.TextFor, O.GroupSet, O.DefaultSet;
    var text := O.SentAs(om.outputs, s.entry.id);
    if om.outputs.Some? {
      O.TextIsOwner(om.outputs.value, s.entry.id);
      if text.None? {
        forall k ensures !O.Owns(om.outputs.value, k, s.entry.id) {
        }
      }
    }
    assert TextIs(om, s.entry.id, text);
  }

  /** The images of slots, as the rule for them sends them. */
  ghost predicate ImagesAs(path: seq<Entry>, im: OmitImages, slots: seq<Slot>, out: seq<Slot>) {
    && |out| == |slots|
    && forall i | 0 <= i < |slots| :: SentAs(slots[i], out[i]) && PartsAs(path, im, slots, out, i)
  }

  ghost predicate PartsAs(path: seq<Entry>, im: OmitImages, slots: seq<Slot>, out: seq<Slot>, i: nat)
    requires i < |slots| == |out|
  {
    forall j: nat | PartAt(slots[i].item, j).Some? ::
      PartAt(out[i].item, j) == if ImageAt(slots[i], j) && Reached(path, im, slots, i, j) then Some(InputText(im.placeholder)) else PartAt(slots[i].item, j)
  }

  /** Keep or more images stand after it; or its entry stands above the one
      named. */
  ghost predicate Reached(path: seq<Entry>, im: OmitImages, slots: seq<Slot>, i: nat, j: nat)
    requires i < |slots|
  {
    if im.before == "" then ImagesFrom(slots, i, j + 1) >= im.keep
    else exists b, k :: 0 <= k < b < |path| && path[b].id == im.before && path[k].id == slots[i].entry.id
  }

  lemma ImagesExactly(path: seq<Entry>, im: OmitImages, slots: seq<Slot>)
    requires Distinct(path)
    ensures ImagesAs(path, im, slots, SendImages(path, im, slots))
  {
    hide SendImages, SentAs, ImagesFrom;
    if im.before == "" {
      SameLength(path, im, slots);
      forall i | 0 <= i < |slots| ensures SentAs(slots[i], SendImages(path, im, slots)[i]) && PartsAs(path, im, slots, SendImages(path, im, slots), i) {
        KeepExactly(path, im, slots, i);
      }
    } else if im.before in Ids(path) {
      var b :| 0 <= b < |path| && path[b].id == im.before;
      BeforeLength(path, im, slots);
      forall i | 0 <= i < |slots| ensures SentAs(slots[i], SendImages(path, im, slots)[i]) && PartsAs(path, im, slots, SendImages(path, im, slots), i) {
        BeforeExactly(path, im, slots, b, i);
      }
    } else {
      BeforeNothing(path, im, slots);
      forall i | 0 <= i < |slots| ensures SentAs(slots[i], slots[i]) {
        Untouched(slots[i]);
      }
      assert forall b | 0 <= b < |path| :: path[b].id in Ids(path);
    }
  }

  lemma BeforeLength(path: seq<Entry>, im: OmitImages, slots: seq<Slot>)
    requires im.before != ""
    ensures |SendImages(path, im, slots)| == |slots|
  {}

  ghost predicate OutputsAs(om: Omit, slots: seq<Slot>, at: seq<nat>, mid: seq<Slot>) {
    |mid| == |at| && forall k | 0 <= k < |at| :: at[k] < |slots| && OutputAs(om, slots[at[k]], mid[k])
  }

  ghost predicate Keeping(path: seq<Entry>, s: Settings, slots: seq<Slot>, at: seq<nat>) {
    && (forall k | 0 <= k < |at| :: at[k] < |slots|)
    && (forall k, l | 0 <= k < l < |at| :: at[k] < at[l])
    && (forall i: nat | i < |slots| :: i in at <==> !LeftOut(s.omit, s.model, ModelsOfOutput(path).0, slots[i]))
  }

  /** What is sent of the slots selected: those not left out, in order; of
      these, outputs in a group as its text; and of what is left, the images
      the rule reaches as its placeholder. */
  lemma SentExactly(path: seq<Entry>, s: Settings, slots: seq<Slot>) returns (at: seq<nat>, mid: seq<Slot>)
    requires Distinct(path) && (s.omit.outputs.Some? ==> O.WellFormed(s.omit.outputs.value))
    requires forall i | 0 <= i < |slots| :: slots[i].entry.id != ""
    ensures Keeping(path, s, slots, at) && OutputsAs(s.omit, slots, at, mid)
    ensures if s.omit.images.Some? then ImagesAs(path, s.omit.images.value, mid, Sent(path, s, slots)) else Sent(path, s, slots) == mid
  {
    hide LeftOut, ModelsOfOutput, OutputAs, ImagesAs, SendOutput, SendImages, O.WellFormed;
    var om := s.omit;
    var models := ModelsOfOutput(path).0;
    at := FilterExactly(om, s.model, models, slots);
    var kept := Filter(om, s.model, models, slots);
    mid := SendOutputs(om, kept);
    forall k | 0 <= k < |at| ensures OutputAs(om, slots[at[k]], mid[k]) {
      OutputExactly(om, slots[at[k]]);
    }
    if om.images.Some? {
      ImagesExactly(path, om.images.value, mid);
    }
    if O.IsZero(om) {
      NoneLeftOut(om, s.model, models, slots);
      NoTexts(om, slots);
    }
  }

  lemma {:induction false} NoneLeftOut(om: Omit, model: string, models: map<Id, string>, slots: seq<Slot>)
    requires O.IsZero(om) && forall i | 0 <= i < |slots| :: slots[i].entry.id != ""
    ensures Filter(om, model, models, slots) == slots
  {
    if slots != [] {
      assert forall id | id in om.items && id != "" :: id in O.IdSet(om.items);
      NoneLeftOut(om, model, models, slots[1..]);
    }
  }

  lemma NoTexts(om: Omit, slots: seq<Slot>)
    requires O.IsZero(om)
    ensures SendOutputs(om, slots) == slots
  {}
}

/** The request a model call receives, rebuilt from a path, and the
    compaction that folds its start away and keeps the rest as it was. */
module Context {
  import opened Entries
  import opened Tree
  import opened SettingsReplay
  import I = Instructions
  import O = OmitRules

  /** One item of a request and the entry that contributed it. */
  datatype Slot = Slot(item: Item, entry: Entry)

  datatype Request = Request(settings: Settings, slots: seq<Slot>)

  // ----- the items a path contributes -----

  function ContextItem(e: Entry): Option<Item> {
    match e.body
    case ItemBody(item, _, _) => Some(item)
    case BranchSummaryBody(summary) => Some(summary)
    case _ => None
  }

  function Contributed(path: seq<Entry>): seq<Slot> {
    if path == [] then []
    else
      (match ContextItem(path[0])
       case Some(item) => [Slot(item, path[0])]
       case None => [])
      + Contributed(path[1..])
  }

  function Pins(c: Entry, items: seq<Item>): seq<Slot> {
    seq(|items|, i requires 0 <= i < |items| => Slot(items[i], c))
  }

  /** The last compaction on the path, or -1: only it applies. */
  function LastCompaction(path: seq<Entry>): (i: int)
    ensures -1 <= i < |path|
    ensures i >= 0 ==> path[i].body.CompactionBody?
    ensures forall k | i < k < |path| :: !path[k].body.CompactionBody?
  {
    if path == [] then -1
    else if path[|path| - 1].body.CompactionBody? then |path| - 1
    else LastCompaction(path[..|path| - 1])
  }

  /** Where the path first holds id, or its length. */
  function PositionOf(path: seq<Entry>, id: Id): (i: nat)
    ensures i <= |path| && (i < |path| ==> path[i].id == id)
    ensures forall k | 0 <= k < i :: path[k].id != id
  {
    if path == [] || path[0].id == id then 0 else PositionOf(path[1..], id) + 1
  }

  /** The settings a compaction carries, and puts in force. */
  function Checkpoint(s: Settings): Settings {
    s.(parts := if AnyUnresolved(s.parts) then [] else s.parts, left := [], lists := [])
  }

  function CheckpointSettings(c: Compaction): Settings {
    c.config.(left := [], lists := [])
  }

  // ----- what the omit leaves out -----

  /** The model in force where each reasoning item of a response was written. */
  function ModelsOfOutput(path: seq<Entry>): (map<Id, string>, string) {
    if path == [] then (map[], "")
    else
      var e := path[|path| - 1];
      var (models, model) := ModelsOfOutput(path[..|path| - 1]);
      match e.body
      case ItemBody(item, responseId, _) =>
        if item.Reasoning? && responseId != "" && model != "" then (models[e.id := model], model) else (models, model)
      case _ => (models, ModelAfter(e, model))
  }

  /** A slot the omit does not send: a listed one, or reasoning that came of a
      model other than the one now in force. */
  predicate LeftOut(om: Omit, model: string, models: map<Id, string>, s: Slot) {
    s.entry.body.ItemBody? &&
    (|| s.entry.id in om.items
     || (om.reasoning == O.OTHER_MODELS && s.entry.id in models && model != "" && models[s.entry.id] != model))
  }

  function Filter(om: Omit, model: string, models: map<Id, string>, slots: seq<Slot>): seq<Slot> {
    if slots == [] then []
    else (if LeftOut(om, model, models, slots[0]) then [] else [slots[0]]) + Filter(om, model, models, slots[1..])
  }

  /** An output the omit lists is sent as its text. */
  function SendOutput(om: Omit, s: Slot): Slot {
    if s.entry.body.ItemBody? && s.item.FunctionCallOutput? && O.SentAs(om.outputs, s.entry.id).Some? then
      s.(item := s.item.(output := OutputText(O.SentAs(om.outputs, s.entry.id).value)))
    else s
  }

  function SendOutputs(om: Omit, slots: seq<Slot>): seq<Slot> {
    seq(|slots|, i requires 0 <= i < |slots| => SendOutput(om, slots[i]))
  }

  function PartsOf(item: Item): seq<Part> {
    match item
    case Message(content) => content
    case FunctionCallOutput(_, OutputParts(parts)) => parts
    case _ => []
  }

  function ImagesIn(parts: seq<Part>): nat {
    if parts == [] then 0 else (if parts[0].InputImage? then 1 else 0) + ImagesIn(parts[1..])
  }

  /** The parts with the first n images sent as text. */
  function Placed(parts: seq<Part>, n: int, text: string): seq<Part> {
    if parts == [] then []
    else if parts[0].InputImage? then
      [if n > 0 then InputText(text) else parts[0]] + Placed(parts[1..], n - 1, text)
    else [parts[0]] + Placed(parts[1..], n, text)
  }

  function WithPlaceholders(item: Item, n: int, text: string): Item {
    match item
    case Message(content) => Message(Placed(content, n, text))
    case FunctionCallOutput(k, OutputParts(parts)) => FunctionCallOutput(k, OutputParts(Placed(parts, n, text)))
    case _ => item
  }

  /** The image parts of an item entry's item; other slots' are not counted. */
  function Count(s: Slot): nat {
    if s.entry.body.ItemBody? then ImagesIn(PartsOf(s.item)) else 0
  }

  function Total(slots: seq<Slot>): nat {
    if slots == [] then 0 else Count(slots[0]) + Total(slots[1..])
  }

  /** The first n image parts of the slots, in request order, sent as text. */
  function KeepLast(slots: seq<Slot>, n: int, text: string): seq<Slot> {
    if slots == [] then []
    else
      var s := slots[0];
      [if s.entry.body.ItemBody? then s.(item := WithPlaceholders(s.item, n, text)) else s]
      + KeepLast(slots[1..], n - Count(s), text)
  }

  /** Every image part of the entries before one on the path sent as text. */
  function SendBefore(path: seq<Entry>, before: nat, text: string, s: Slot): Slot {
    if s.entry.body.ItemBody? && PositionOf(path, s.entry.id) < before then
      s.(item := WithPlaceholders(s.item, ImagesIn(PartsOf(s.item)), text))
    else s
  }

  function SendImages(path: seq<Entry>, im: OmitImages, slots: seq<Slot>): seq<Slot> {
    if im.before == "" then KeepLast(slots, Total(slots) - im.keep, im.placeholder)
    else
      var before := PositionOf(path, im.before);
      if before == |path| then slots
      else seq(|slots|, i requires 0 <= i < |slots| => SendBefore(path, before, im.placeholder, slots[i]))
  }

  /** What the omit in force sends of the slots the path selects. */
  function Sent(path: seq<Entry>, s: Settings, slots: seq<Slot>): seq<Slot> {
    if O.IsZero(s.omit) then slots
    else
      var kept := SendOutputs(s.omit, Filter(s.omit, s.model, ModelsOfOutput(path).0, slots));
      if s.omit.images.Some? then SendImages(path, s.omit.images.value, kept) else kept
  }

  // ----- the request -----

  /** The slots a path selects, and the settings at its end; nothing for a
      compaction whose first kept entry is not before it. */
  ghost function Selected(hash: I.TextHash, path: seq<Entry>): Option<Request> {
    var at := LastCompaction(path);
    if at < 0 then Some(Request(Replay(hash, NO_SETTINGS, path), Contributed(path)))
    else
      var c := path[at].body.compaction;
      var kept := PositionOf(path[..at], c.firstKept);
      if kept == at then None
      else
        Some(Request(
          Replay(hash, CheckpointSettings(c), path[at + 1..]),
          [Slot(c.summary, path[at])] + Pins(path[at], c.pinned) + Contributed(path[kept..at]) + Contributed(path[at + 1..])))
  }

  ghost function BuildContext(hash: I.TextHash, path: seq<Entry>): Option<Request> {
    match Selected(hash, path)
    case None => None
    case Some(r) => Some(r.(slots := Sent(path, r.settings, r.slots)))
  }

  // ----- compaction -----

  /** The compaction that keeps the request from slot first on; an earlier
      compaction's summary and pins cannot be kept. */
  function CompactionFrom(r: Request, first: nat, summary: Item): Option<Compaction>
    requires first < |r.slots|
  {
    var e := r.slots[first].entry;
    if e.body.CompactionBody? then None else Some(Compaction(e.id, summary, [], Checkpoint(r.settings)))
  }

  /** The settings of a request, all a model call is sent. */
  ghost predicate SameRequest(a: Settings, b: Settings) {
    && a.model == b.model && a.instructions == b.instructions && a.reasoning == b.reasoning
    && a.text == b.text && a.tools == b.tools && a.extra == b.extra && a.omit == b.omit
  }

  /** What the next config entry is read against: the same parts, when none is
      unresolved, and the same list left out. */
  ghost predicate PartsKept(now: Settings, was: Settings) {
    && now.omitted == was.omitted
    && (AnyUnresolved(was.parts) ==> now.parts == []) && (!AnyUnresolved(was.parts) ==> now.parts == was.parts)
  }

  // ----- a kept suffix is rebuilt as it was -----

  lemma {:induction false} ContributedConcat(a: seq<Entry>, b: seq<Entry>)
    ensures Contributed(a + b) == Contributed(a) + Contributed(b)
  {
    if a == [] {
      assert a + b == b;
    } else {
      assert (a + b)[1..] == a[1..] + b;
      ContributedConcat(a[1..], b);
    }
  }

  /** The slots from one on are those of the path from its entry on. */
  lemma {:induction false} ContributedAt(path: seq<Entry>, j: nat) returns (k: nat)
    requires j < |Contributed(path)|
    ensures k < |path| && path[k] == Contributed(path)[j].entry && Contributed(path)[j..] == Contributed(path[k..])
  {
    var head := if ContextItem(path[0]).Some? then 1 else 0;
    if j < head {
      k := 0;
    } else {
      k := ContributedAt(path[1..], j - head);
      assert Contributed(path)[j..] == Contributed(path[1..])[j - head..];
      assert path[1..][k..] == path[k + 1..];
      k := k + 1;
    }
  }

  lemma FilterFirst(om: Omit, model: string, models: map<Id, string>, slots: seq<Slot>)
    requires slots != []
    ensures var rest := Filter(om, model, models, slots[1..]);
            Filter(om, model, models, slots) == if LeftOut(om, model, models, slots[0]) then rest else [slots[0]] + rest
  {}

  lemma {:induction false} FilterAt(om: Omit, model: string, models: map<Id, string>, slots: seq<Slot>, i: nat) returns (j: nat)
    requires i < |Filter(om, model, models, slots)|
    ensures j < |slots| && Filter(om, model, models, slots)[i] == slots[j]
    ensures Filter(om, model, models, slots)[i..] == Filter(om, model, models, slots[j..])
    decreases |slots|
  {
    assert slots != [];
    hide LeftOut, Filter;
    FilterFirst(om, model, models, slots);
    var head := if LeftOut(om, model, models, slots[0]) then 0 else 1;
    if i < head {
      assert slots[0..] == slots;
      return 0;
    }
    j := FilterAt(om, model, models, slots[1..], i - head);
    assert Filter(om, model, models, slots)[i..] == Filter(om, model, models, slots[1..])[i - head..];
    assert slots[1..][j..] == slots[j + 1..];
    j := j + 1;
  }

  /** What the compactions contribute comes first, and then the path from one
      entry on, compactions on it contributing nothing. */
  lemma SelectedTail(hash: I.TextHash, path: seq<Entry>, j: nat) returns (k: nat)
    requires Selected(hash, path).Some? && j < |Selected(hash, path).value.slots|
    requires !Selected(hash, path).value.slots[j].entry.body.CompactionBody?
    ensures k < |path| && path[k] == Selected(hash, path).value.slots[j].entry
    ensures Selected(hash, path).value.slots[j..] == Contributed(path[k..])
  {
    hide Replay, Contributed, Pins;
    var at := LastCompaction(path);
    if at < 0 {
      k := ContributedAt(path, j);
    } else {
      k := CompactedTail(hash, path, at, j);
    }
  }

  lemma CompactedTail(hash: I.TextHash, path: seq<Entry>, at: nat, j: nat) returns (k: nat)
    requires at == LastCompaction(path) && Selected(hash, path).Some? && j < |Selected(hash, path).value.slots|
    requires !Selected(hash, path).value.slots[j].entry.body.CompactionBody?
    ensures k < |path| && path[k] == Selected(hash, path).value.slots[j].entry
    ensures Selected(hash, path).value.slots[j..] == Contributed(path[k..])
  {
    hide Selected, LastCompaction, Contributed;
    var slots := Selected(hash, path).value.slots;
    var pins, kept := CompactedSlots(hash, path, at);
    var tail := Contributed(path[kept..]);
    assert j >= |pins| by {
      assert forall i | 0 <= i < |pins| :: slots[i] == pins[i];
    }
    k := ContributedAt(path[kept..], j - |pins|);
    assert slots[j..] == tail[j - |pins|..];
    assert path[kept..][k..] == path[kept + k..];
    k := kept + k;
  }

  lemma CompactedSlots(hash: I.TextHash, path: seq<Entry>, at: nat) returns (pins: seq<Slot>, kept: nat)
    requires at == LastCompaction(path) && Selected(hash, path).Some?
    ensures kept <= |path| && Selected(hash, path).value.slots == pins + Contributed(path[kept..])
    ensures forall i | 0 <= i < |pins| :: pins[i].entry.body.CompactionBody?
  {
    hide Replay, LastCompaction, Contributed;
    var c := path[at].body.compaction;
    kept := PositionOf(path[..at], c.firstKept);
    pins := [Slot(c.summary, path[at])] + Pins(path[at], c.pinned);
    ContributedAround(path, kept, at);
    assert pins + Contributed(path[kept..at]) + Contributed(path[at + 1..]) == pins + Contributed(path[kept..]);
  }

  /** A compaction on the path contributes nothing of its own to what is kept. */
  lemma ContributedAround(path: seq<Entry>, kept: nat, at: nat)
    requires kept <= at < |path| && path[at].body.CompactionBody?
    ensures Contributed(path[kept..]) == Contributed(path[kept..at]) + Contributed(path[at + 1..])
  {
    assert path[kept..] == path[kept..at] + ([path[at]] + path[at + 1..]);
    ContributedConcat(path[kept..at], [path[at]] + path[at + 1..]);
    ContributedConcat([path[at]], path[at + 1..]);
    assert [path[at]][1..] == [] && Contributed([path[at]]) == [];
    assert [] + Contributed(path[at + 1..]) == Contributed(path[at + 1..]);
  }

  /** The request before images are sent. */
  function Kept(path: seq<Entry>, s: Settings, slots: seq<Slot>): seq<Slot> {
    SendOutputs(s.omit, Filter(s.omit, s.model, ModelsOfOutput(path).0, slots))
  }

  lemma {:induction false} KeepLastShape(slots: seq<Slot>, n: int, text: string)
    ensures |KeepLast(slots, n, text)| == |slots|
    ensures forall i | 0 <= i < |slots| :: KeepLast(slots, n, text)[i].entry == slots[i].entry
  {
    if slots != [] {
      KeepLastShape(slots[1..], n - Count(slots[0]), text);
    }
  }

  lemma SentShape(path: seq<Entry>, s: Settings, slots: seq<Slot>)
    ensures !O.IsZero(s.omit) ==>
              && |Sent(path, s, slots)| == |Kept(path, s, slots)|
              && forall i | 0 <= i < |Kept(path, s, slots)| :: Sent(path, s, slots)[i].entry == Kept(path, s, slots)[i].entry
  {
    if !O.IsZero(s.omit) && s.omit.images.Some? {
      var im := s.omit.images.value;
      var kept := Kept(path, s, slots);
      KeepLastShape(kept, Total(kept) - im.keep, im.placeholder);
    }
  }

  lemma KeepLastFirst(slots: seq<Slot>, n: int, text: string)
    requires slots != []
    ensures var (all, rest) := (KeepLast(slots, n, text), KeepLast(slots[1..], n - Count(slots[0]), text));
            |all| == |rest| + 1 && forall j | 0 < j <= |all| :: all[j..] == rest[j - 1..]
  {
    hide Count, WithPlaceholders;
  }

  lemma TotalFirst(slots: seq<Slot>)
    ensures Total(slots) == if slots == [] then 0 else Count(slots[0]) + Total(slots[1..])
  {}

  /** Dropping a prefix shifts the count by the images it held. */
  lemma {:induction false} KeepLastFrom(slots: seq<Slot>, n: int, text: string, i: nat)
    requires i <= |slots|
    ensures i <= |KeepLast(slots, n, text)| && KeepLast(slots, n, text)[i..] == KeepLast(slots[i..], n - Total(slots[..i]), text)
    ensures Total(slots) == Total(slots[..i]) + Total(slots[i..])
    decreases |slots|
  {
    hide Count, KeepLast, Total;
    KeepLastShape(slots, n, text);
    if i == 0 {
      assert slots[0..] == slots && slots[..0] == [];
      assert KeepLast(slots, n, text)[0..] == KeepLast(slots, n, text);
      TotalFirst([]);
    } else {
      var rest := slots[1..];
      KeepLastFirst(slots, n, text);
      KeepLastFrom(rest, n - Count(slots[0]), text, i - 1);
      assert rest[i - 1..] == slots[i..];
      assert slots[..i][1..] == rest[..i - 1];
      TotalFirst(slots);
      TotalFirst(slots[..i]);
    }
  }

  lemma {:induction false} PositionSnoc(path: seq<Entry>, c: Entry, id: Id)
    ensures id != c.id ==> PositionOf(path + [c], id) == if PositionOf(path, id) == |path| then |path| + 1 else PositionOf(path, id)
    ensures PositionOf(path, id) < |path| ==> PositionOf(path + [c], id) == PositionOf(path, id)
  {
    if path != [] {
      assert (path + [c])[1..] == path[1..] + [c];
      PositionSnoc(path[1..], c, id);
    }
  }

  lemma {:induction false} PositionIs(path: seq<Entry>, k: nat)
    requires Distinct(path) && k < |path|
    ensures PositionOf(path, path[k].id) == k
  {
    var i := PositionOf(path, path[k].id);
    assert i <= k;
  }

  /** Each slot's entry stands where it stood, the new entry after them. */
  lemma SendImagesFrom(path: seq<Entry>, c: Entry, im: OmitImages, slots: seq<Slot>, head: Slot, i: nat)
    requires i <= |slots| && head.entry == c && !c.body.ItemBody? && im.before != c.id
    requires forall k | 0 <= k < |slots| && slots[k].entry.body.ItemBody? :: PositionOf(path, slots[k].entry.id) < |path|
    ensures |SendImages(path, im, slots)| == |slots|
    ensures SendImages(path + [c], im, [head] + slots[i..]) == [head] + SendImages(path, im, slots)[i..]
  {
    hide KeepLast, Total, SendBefore, PositionOf;
    if im.before == "" {
      KeepLastShape(slots, Total(slots) - im.keep, im.placeholder);
      KeepLastFrom(slots, Total(slots) - im.keep, im.placeholder, i);
      KeepLastHead(head, slots[i..], Total(slots[i..]) - im.keep, im.placeholder);
    } else {
      SendBeforeFrom(path, c, im, slots, head, i);
    }
  }

  lemma KeepLastHead(head: Slot, tail: seq<Slot>, n: int, text: string)
    requires !head.entry.body.ItemBody?
    ensures KeepLast([head] + tail, n, text) == [head] + KeepLast(tail, n, text) && Total([head] + tail) == Total(tail)
  {
    assert ([head] + tail)[1..] == tail;
  }

  lemma SendBeforeSame(path: seq<Entry>, c: Entry, before: nat, text: string, s: Slot)
    requires s.entry.body.ItemBody? ==> PositionOf(path, s.entry.id) < |path|
    ensures SendBefore(path + [c], before, text, s) == SendBefore(path, before, text, s)
  {
    hide PositionOf;
    PositionSnoc(path, c, s.entry.id);
  }

  lemma SendBeforeOther(path: seq<Entry>, before: nat, text: string, s: Slot)
    requires !s.entry.body.ItemBody?
    ensures SendBefore(path, before, text, s) == s
  {}

  lemma SendBeforeFrom(path: seq<Entry>, c: Entry, im: OmitImages, slots: seq<Slot>, head: Slot, i: nat)
    requires i <= |slots| && head.entry == c && !c.body.ItemBody? && im.before != c.id && im.before != ""
    requires forall k | 0 <= k < |slots| && slots[k].entry.body.ItemBody? :: PositionOf(path, slots[k].entry.id) < |path|
    ensures |SendImages(path, im, slots)| == |slots|
    ensures SendImages(path + [c], im, [head] + slots[i..]) == [head] + SendImages(path, im, slots)[i..]
  {
    hide PositionOf, SendBefore, KeepLast, Total;
    PositionSnoc(path, c, im.before);
    var (before, text, tail) := (PositionOf(path, im.before), im.placeholder, slots[i..]);
    if before < |path| {
      SendBeforeOther(path + [c], before, text, head);
      forall k | 0 <= k < |tail| ensures SendBefore(path + [c], before, text, tail[k]) == SendBefore(path, before, text, slots[i + k]) {
        SendBeforeSame(path, c, before, text, slots[i + k]);
      }
      assert SendImages(path + [c], im, [head] + tail)[0] == head;
    }
  }

  lemma {:induction false} FilterWithin(om: Omit, model: string, models: map<Id, string>, slots: seq<Slot>)
    ensures forall s | s in Filter(om, model, models, slots) :: s in slots
  {
    if slots != [] {
      FilterWithin(om, model, models, slots[1..]);
    }
  }

  lemma {:induction false} ContributedWithin(path: seq<Entry>)
    ensures forall s | s in Contributed(path) :: s.entry in path
  {
    if path != [] {
      ContributedWithin(path[1..]);
    }
  }

  lemma PinsWithin(path: seq<Entry>)
    ensures forall e, items, s | e in path && s in Pins(e, items) :: s.entry in path
  {}

  /** Every item entry a request holds is on the path. */
  lemma SelectedWithin(hash: I.TextHash, path: seq<Entry>)
    requires Selected(hash, path).Some?
    ensures forall s | s in Selected(hash, path).value.slots :: s.entry in path
  {
    hide Contributed, Replay, Pins;
    var at := LastCompaction(path);
    ContributedWithin(path);
    PinsWithin(path);
    if at >= 0 {
      var kept := PositionOf(path[..at], path[at].body.compaction.firstKept);
      ContributedWithin(path[kept..at]);
      ContributedWithin(path[at + 1..]);
    }
  }

  lemma ModelsSnoc(path: seq<Entry>, c: Entry)
    requires c.body.CompactionBody?
    ensures ModelsOfOutput(path + [c]).0 == ModelsOfOutput(path).0
  {
    assert (path + [c])[..|path|] == path;
  }

  lemma InPath(path: seq<Entry>, e: Entry)
    requires e in path
    ensures PositionOf(path, e.id) < |path|
  {
    var k :| 0 <= k < |path| && path[k] == e;
  }

  lemma KeptWithin(hash: I.TextHash, path: seq<Entry>, s: Settings)
    requires Selected(hash, path).Some?
    ensures forall k | 0 <= k < |Kept(path, s, Selected(hash, path).value.slots)| ::
              PositionOf(path, Kept(path, s, Selected(hash, path).value.slots)[k].entry.id) < |path|
  {
    hide Selected;
    var slots := Selected(hash, path).value.slots;
    var filtered := Filter(s.omit, s.model, ModelsOfOutput(path).0, slots);
    SelectedWithin(hash, path);
    FilterWithin(s.omit, s.model, ModelsOfOutput(path).0, slots);
    forall k | 0 <= k < |filtered| ensures PositionOf(path, filtered[k].entry.id) < |path| {
      assert filtered[k] in slots;
      InPath(path, filtered[k].entry);
    }
  }

  /** What a compaction selects: its summary, and the path it kept. */
  lemma SelectedAfter(hash: I.TextHash, path: seq<Entry>, c: Entry, k: nat)
    requires Distinct(path) && k < |path| && c.body.CompactionBody?
    requires c.body.compaction.firstKept == path[k].id && c.body.compaction.pinned == []
    ensures Selected(hash, path + [c])
         == Some(Request(CheckpointSettings(c.body.compaction), [Slot(c.body.compaction.summary, c)] + Contributed(path[k..])))
  {
    var all := path + [c];
    assert all[..|path|] == path && LastCompaction(all) == |path|;
    PositionIs(path, k);
    assert all[k..|path|] == path[k..];
    assert all[|path| + 1..] == [];
    var head := [Slot(c.body.compaction.summary, c)];
    assert Pins(c, []) == [];
    assert head + [] + Contributed(path[k..]) + [] == head + Contributed(path[k..]);
  }

  /** Appending the compaction that keeps slots first.. of the request, and
      rebuilding, gives the summary, exactly those slots as they were sent,
      and the same settings, whatever was compacted or left out before. */
  lemma CompactionKeepsRequest(hash: I.TextHash, path: seq<Entry>, first: nat, summary: Item, c: Entry)
    requires Distinct(path) && BuildContext(hash, path).Some? && first < |BuildContext(hash, path).value.slots|
    requires var r := BuildContext(hash, path).value;
             && CompactionFrom(r, first, summary).Some?
             && c.body == CompactionBody(CompactionFrom(r, first, summary).value)
             && (r.settings.omit.images.Some? ==> r.settings.omit.images.value.before != c.id)
    ensures var (r, now) := (BuildContext(hash, path).value, BuildContext(hash, path + [c]));
            && now.Some?
            && now.value.slots == [Slot(summary, c)] + r.slots[first..]
            && SameRequest(now.value.settings, r.settings) && PartsKept(now.value.settings, r.settings)
  {
    hide Selected, Replay, Sent, LeftOut, SendOutput;
    var raw := Selected(hash, path).value;
    var s := raw.settings;
    var head := Slot(summary, c);
    var om := s.omit;
    if O.IsZero(om) {
      SentNothing(path, s, raw.slots);
      var k := SelectedTail(hash, path, first);
      SelectedAfter(hash, path, c, k);
      SentNothing(path + [c], Checkpoint(s), [head] + Contributed(path[k..]));
    } else {
      var models := ModelsOfOutput(path).0;
      var filtered := Filter(om, s.model, models, raw.slots);
      var kept := Kept(path, s, raw.slots);
      SentShape(path, s, raw.slots);
      KeptEntries(om, filtered);
      var j := FilterAt(om, s.model, models, raw.slots, first);
      var k := SelectedTail(hash, path, j);
      SelectedAfter(hash, path, c, k);
      ModelsSnoc(path, c);
      var tail := Contributed(path[k..]);
      FilterHead(om, s.model, models, head, tail);
      SendOutputsFrom(om, filtered, head, first);
      KeptWithin(hash, path, s);
      SentKept(path, s, raw.slots);
      SentKept(path + [c], Checkpoint(s), [head] + tail);
      if om.images.Some? {
        SendImagesFrom(path, c, om.images.value, kept, head, first);
      }
    }
  }

  lemma SentNothing(path: seq<Entry>, s: Settings, slots: seq<Slot>)
    requires O.IsZero(s.omit)
    ensures Sent(path, s, slots) == slots
  {}

  lemma SentKept(path: seq<Entry>, s: Settings, slots: seq<Slot>)
    requires !O.IsZero(s.omit)
    ensures Sent(path, s, slots)
         == if s.omit.images.Some? then SendImages(path, s.omit.images.value, Kept(path, s, slots)) else Kept(path, s, slots)
  {}

  lemma KeptEntries(om: Omit, slots: seq<Slot>)
    ensures |SendOutputs(om, slots)| == |slots|
    ensures forall i | 0 <= i < |slots| :: SendOutputs(om, slots)[i].entry == slots[i].entry
  {}

  lemma FilterHead(om: Omit, model: string, models: map<Id, string>, head: Slot, tail: seq<Slot>)
    requires !head.entry.body.ItemBody?
    ensures Filter(om, model, models, [head] + tail) == [head] + Filter(om, model, models, tail)
  {
    assert ([head] + tail)[1..] == tail;
  }

  lemma SendOutputsFrom(om: Omit, slots: seq<Slot>, head: Slot, i: nat)
    requires i <= |slots| && !head.entry.body.ItemBody?
    ensures SendOutputs(om, [head] + slots[i..]) == [head] + SendOutputs(om, slots)[i..]
  {}

  /** Keeping the last n items of the request is keeping them from the one
      that many from the end. */
  lemma CompactKeepingKeeps(hash: I.TextHash, path: seq<Entry>, n: nat, summary: Item, c: Entry)
    requires Distinct(path) && BuildContext(hash, path).Some? && 1 <= n <= |BuildContext(hash, path).value.slots|
    requires var r := BuildContext(hash, path).value;
             && CompactionFrom(r, |r.slots| - n, summary).Some?
             && c.body == CompactionBody(CompactionFrom(r, |r.slots| - n, summary).value)
             && (r.settings.omit.images.Some? ==> r.settings.omit.images.value.before != c.id)
    ensures var now := BuildContext(hash, path + [c]);
            && now.Some? && |now.value.slots| == n + 1
            && now.value.slots[0] == Slot(summary, c)
            && now.value.slots[1..] == BuildContext(hash, path).value.slots[|BuildContext(hash, path).value.slots| - n..]
            && SameRequest(now.value.settings, BuildContext(hash, path).value.settings)
            && PartsKept(now.value.settings, BuildContext(hash, path).value.settings)
  {
    hide BuildContext, SameRequest, PartsKept;
    CompactionKeepsRequest(hash, path, |BuildContext(hash, path).value.slots| - n, summary, c);
  }

  // ----- the settings a path with compactions ends in -----

  /** c carries the settings of the request rebuilt from the path before it,
      whatever it keeps, pins or sums up. */
  ghost predicate Folds(hash: I.TextHash, before: seq<Entry>, c: Compaction) {
    var r := BuildContext(hash, before);
    r.Some? && CheckpointSettings(c) == Checkpoint(r.value.settings)
  }

  ghost predicate FoldedAt(hash: I.TextHash, path: seq<Entry>, i: nat)
    requires i < |path|
  {
    path[i].body.CompactionBody? ==> Folds(hash, path[..i], path[i].body.compaction)
  }

  lemma CheckpointOk(s: Settings)
    requires SettingsOk(s)
    ensures SettingsOk(Checkpoint(s))
  {
    hide I.Unresolved, I.Join, O.WellFormed;
  }

  /** Deltas can be written against the settings at the end of any path whose
      compactions each carry the settings of the path before them. */
  lemma {:induction false} ContextSettingsOk(hash: I.TextHash, path: seq<Entry>)
    requires Distinct(path) && BuildContext(hash, path).Some? && forall i | 0 <= i < |path| :: FoldedAt(hash, path, i)
    ensures SettingsOk(BuildContext(hash, path).value.settings)
    decreases |path|
  {
    hide SettingsOk, Replay, Sent, Contributed, Pins, Checkpoint, CheckpointSettings;
    var at := LastCompaction(path);
    if at < 0 {
      StartOk();
      ReplayKeeps(hash, NO_SETTINGS, path);
    } else {
      var c := path[at].body.compaction;
      assert FoldedAt(hash, path, at);
      forall i | 0 <= i < at ensures FoldedAt(hash, path[..at], i) {
        assert FoldedAt(hash, path, i) && path[..at][..i] == path[..i];
      }
      ContextSettingsOk(hash, path[..at]);
      CheckpointOk(BuildContext(hash, path[..at]).value.settings);
      NoLists(c);
      ReplayKeeps(hash, CheckpointSettings(c), path[at + 1..]);
    }
  }

  lemma StartOk()
    ensures SettingsOk(NO_SETTINGS)
  {}

  lemma NoLists(c: Compaction)
    ensures CheckpointSettings(c).lists == []
  {}

  // ----- the loops that send a request -----

  /** The model in force where each reasoning item was written, in one walk. */
  method ModelsOn(path: seq<Entry>) returns (models: map<Id, string>)
    ensures models == ModelsOfOutput(path).0
  {
    models := map[];
    var model := "";
    for i := 0 to |path|
      invariant (models, model) == ModelsOfOutput(path[..i])
    {
      assert path[..i + 1][..i] == path[..i];
      match path[i].body
      case ConfigBody(c) =>
        if c.replace {
          model := "";
        }
        if c.model != "" {
          model := c.model;
        }
      case CompactionBody(c) =>
        model := c.config.model;
      case ItemBody(item, responseId, _) =>
        if item.Reasoning? && responseId != "" && model != "" {
          models := models[path[i].id := model];
        }
      case _ =>
    }
    assert path[..|path|] == path;
  }

  lemma LeftOutIs(om: Omit, model: string, all: map<Id, string>, models: map<Id, string>, s: Slot)
    requires models == if om.reasoning == O.OTHER_MODELS then all else map[]
    ensures var id := s.entry.id;
            LeftOut(om, model, all, s)
            == (s.entry.body.ItemBody? && (id in om.items || (id in models && model != "" && models[id] != model)))
  {}

  lemma FilterStep(om: Omit, model: string, models: map<Id, string>, slots: seq<Slot>, i: nat, kept: seq<Slot>)
    requires i < |slots|
    ensures kept + Filter(om, model, models, slots[i..])
         == (if LeftOut(om, model, models, slots[i]) then kept else kept + [slots[i]]) + Filter(om, model, models, slots[i + 1..])
  {
    hide LeftOut;
    assert slots[i..][1..] == slots[i + 1..];
  }

  method LeaveOut(path: seq<Entry>, s: Settings, slots: seq<Slot>) returns (kept: seq<Slot>)
    ensures kept == Filter(s.omit, s.model, ModelsOfOutput(path).0, slots)
  {
    hide LeftOut, ModelsOfOutput, Filter;
    var models := map[];
    if s.omit.reasoning == O.OTHER_MODELS {
      models := ModelsOn(path);
    }
    ghost var all := ModelsOfOutput(path).0;
    kept := [];
    for i := 0 to |slots|
      invariant kept + Filter(s.omit, s.model, all, slots[i..]) == Filter(s.omit, s.model, all, slots)
    {
      var e := slots[i].entry;
      var out := e.body.ItemBody? && (e.id in s.omit.items || (e.id in models && s.model != "" && models[e.id] != s.model));
      LeftOutIs(s.omit, s.model, all, models, slots[i]);
      FilterStep(s.omit, s.model, all, slots, i, kept);
      if !out {
        kept := kept + [slots[i]];
      }
    }
    FilterNothing(s.omit, s.model, all, slots);
  }

  lemma FilterNothing(om: Omit, model: string, models: map<Id, string>, slots: seq<Slot>)
    ensures Filter(om, model, models, slots[|slots|..]) == []
  {}

  lemma PlacedStep(parts: seq<Part>, i: nat, n: int, text: string, sent: seq<Part>)
    requires i < |parts|
    ensures sent + Placed(parts[i..], n, text)
         == if parts[i].InputImage? then sent + [if n > 0 then InputText(text) else parts[i]] + Placed(parts[i + 1..], n - 1, text)
            else sent + [parts[i]] + Placed(parts[i + 1..], n, text)
    ensures ImagesIn(parts[i..]) == (if parts[i].InputImage? then 1 else 0) + ImagesIn(parts[i + 1..])
  {
    assert parts[i..][1..] == parts[i + 1..];
  }

  lemma PlacedDone(parts: seq<Part>, n: int, text: string)
    ensures Placed(parts[|parts|..], n, text) == [] && ImagesIn(parts[|parts|..]) == 0
  {}

  /** The image parts among the first `limit` counted so far, replaced. */
  method PlaceParts(parts: seq<Part>, n: nat, limit: int, text: string) returns (sent: seq<Part>, m: nat)
    ensures sent == Placed(parts, limit - n, text) && m == n + ImagesIn(parts)
  {
    hide Placed, ImagesIn;
    sent, m := [], n;
    for i := 0 to |parts|
      invariant sent + Placed(parts[i..], limit - m, text) == Placed(parts, limit - n, text)
      invariant m + ImagesIn(parts[i..]) == n + ImagesIn(parts)
    {
      PlacedStep(parts, i, limit - m, text, sent);
      if parts[i].InputImage? {
        sent := sent + [if m < limit then InputText(text) else parts[i]];
        m := m + 1;
      } else {
        sent := sent + [parts[i]];
      }
    }
    PlacedDone(parts, limit - m, text);
  }

  /** One item with the images reached sent as text, and the count after it. */
  method PlaceItem(item: Item, n: nat, limit: int, text: string) returns (sent: Item, m: nat)
    ensures sent == WithPlaceholders(item, limit - n, text) && m == n + ImagesIn(PartsOf(item))
  {
    var parts;
    parts, m := PlaceParts(PartsOf(item), n, limit, text);
    sent := match item
      case Message(_) => Message(parts)
      case FunctionCallOutput(k, OutputParts(_)) => FunctionCallOutput(k, OutputParts(parts))
      case _ => item;
  }

  method ReplaceOutputs(om: Omit, slots: seq<Slot>) returns (sent: seq<Slot>)
    ensures sent == SendOutputs(om, slots)
  {
    sent := slots;
    for i := 0 to |slots|
      invariant |sent| == |slots|
      invariant forall k | 0 <= k < i :: sent[k] == SendOutput(om, slots[k])
      invariant forall k | i <= k < |slots| :: sent[k] == slots[k]
    {
      var s := slots[i];
      if s.entry.body.ItemBody? && s.item.FunctionCallOutput? {
        var text := O.SentAs(om.outputs, s.entry.id);
        if text.Some? {
          sent := sent[i := s.(item := s.item.(output := OutputText(text.value)))];
        }
      }
    }
  }

  method TotalImages(slots: seq<Slot>) returns (total: nat)
    ensures total == Total(slots)
  {
    total := 0;
    for i := 0 to |slots|
      invariant total + Total(slots[i..]) == Total(slots)
    {
      assert slots[i..][1..] == slots[i + 1..];
      total := total + Count(slots[i]);
    }
  }

  lemma KeepLastStep(slots: seq<Slot>, i: nat, n: int, text: string, sent: seq<Slot>)
    requires i < |slots|
    ensures sent + KeepLast(slots[i..], n, text)
         == sent + [if slots[i].entry.body.ItemBody? then slots[i].(item := WithPlaceholders(slots[i].item, n, text)) else slots[i]]
            + KeepLast(slots[i + 1..], n - Count(slots[i]), text)
  {
    hide WithPlaceholders, Count;
    assert slots[i..][1..] == slots[i + 1..];
  }

  /** The image rule, counting over what the outputs rule left. */
  method ReplaceImages(path: seq<Entry>, im: OmitImages, slots: seq<Slot>) returns (sent: seq<Slot>)
    ensures sent == SendImages(path, im, slots)
  {
    hide WithPlaceholders, PartsOf, ImagesIn, Total, KeepLast;
    if im.before != "" && PositionOf(path, im.before) == |path| {
      return slots;
    }
    var before := PositionOf(path, im.before);
    var total := TotalImages(slots);
    sent := [];
    var n: nat := 0;
    ghost var byCount := KeepLast(slots, total - im.keep, im.placeholder);
    for i := 0 to |slots|
      invariant |sent| == i
      invariant im.before == "" ==> sent + KeepLast(slots[i..], total - im.keep - n, im.placeholder) == byCount
      invariant im.before != "" ==> forall k | 0 <= k < i :: sent[k] == SendBefore(path, before, im.placeholder, slots[k])
    {
      KeepLastStep(slots, i, total - im.keep - n, im.placeholder, sent);
      var s := slots[i];
      if s.entry.body.ItemBody? {
        var limit := total - im.keep;
        if im.before != "" {
          limit := if PositionOf(path, s.entry.id) < before then n + ImagesIn(PartsOf(s.item)) else n;
          PlacedNone(s.item, im.placeholder);
        }
        var item, m := PlaceItem(s.item, n, limit, im.placeholder);
        s := s.(item := item);
        n := m;
      }
      sent := sent + [s];
    }
    KeepLastDone(slots, total - im.keep - n, im.placeholder);
  }

  lemma KeepLastDone(slots: seq<Slot>, n: int, text: string)
    ensures KeepLast(slots[|slots|..], n, text) == []
  {}

  lemma {:induction false} PlacedNothing(parts: seq<Part>, n: int, text: string)
    requires n <= 0
    ensures Placed(parts, n, text) == parts
  {
    if parts != [] {
      PlacedNothing(parts[1..], n - 1, text);
      PlacedNothing(parts[1..], n, text);
    }
  }

  lemma PlacedNone(item: Item, text: string)
    ensures WithPlaceholders(item, 0, text) == item
  {
    PlacedNothing(PartsOf(item), 0, text);
  }

  /** What the omit in force leaves of the slots the path selects. */
  method SendUnder(path: seq<Entry>, s: Settings, slots: seq<Slot>) returns (sent: seq<Slot>)
    ensures sent == Sent(path, s, slots)
  {
    if O.IsZero(s.omit) {
      return slots;
    }
    sent := LeaveOut(path, s, slots);
    sent := ReplaceOutputs(s.omit, sent);
    if s.omit.images.Some? {
      sent := ReplaceImages(path, s.omit.images.value, sent);
    }
  }
}

/** Settings replay: what a config entry does to the settings in force, and
    the deltas that, replayed, put in force exactly what was asked for. */
module SettingsReplay {
  import opened Entries
  import opened Tree
  import I = Instructions
  import L = Omitted
  import O = OmitRules

  function RemoveTool(tools: seq<Tool>, name: string): seq<Tool> {
    if tools == [] then []
    else (if tools[0].name != name then [tools[0]] else []) + RemoveTool(tools[1..], name)
  }

  function RemoveTools(tools: seq<Tool>, names: seq<string>): seq<Tool>
    decreases |names|
  {
    if names == [] then tools else RemoveTools(RemoveTool(tools, names[0]), names[1..])
  }

  /** Each tool added replaces one of its name. */
  function AddTools(tools: seq<Tool>, added: seq<Tool>): seq<Tool>
    decreases |added|
  {
    if added == [] then tools
    else
      var t := added[0];
      AddTools((if t.name != "" then RemoveTool(tools, t.name) else tools) + [t], added[1..])
  }

  /** A null member deletes the key, any other sets it. */
  function MergeExtra(extra: map<string, string>, c: map<string, Option<string>>): map<string, string> {
    var added := map k | k in c && c[k].Some? :: c[k].value;
    (map k | k in extra && k !in c :: extra[k]) + added
  }

  predicate AnyUnresolved(parts: seq<InstructionPart>) {
    exists i :: 0 <= i < |parts| && I.Unresolved(parts[i])
  }

  /** s as config entry id, whose delta is c, leaves it. */
  ghost function Apply(hash: I.TextHash, s: Settings, id: Id, c: Config): Settings {
    WithRequest(c, WithInstructions(hash, c, WithOmitted(c, id, if c.replace then NO_SETTINGS else s)))
  }

  /** The list left out, the lists a later keep may name, and the omit. */
  ghost function WithOmitted(c: Config, id: Id, s: Settings): Settings {
    var omit := if c.omit.Some? then O.Merged(s.omit, c.omit.value) else s.omit;
    if c.omitted.None? then s.(omit := omit)
    else
      var list := L.Resolved(s.omitted, c.omitted.value, s.lists).0;
      s.(omit := omit, omitted := list, lists := (if id != "" then [ListNode(id, list)] else []) + s.lists)
  }

  function WithInstructions(hash: I.TextHash, c: Config, s: Settings): Settings {
    if c.parts != [] then
      var parts := I.AppliedParts(hash, s.parts, c.parts, s.left);
      s.(parts := parts,
         left := I.Leave(s.left, s.parts, parts),
         instructions := if c.instructions.Some? && AnyUnresolved(parts) then c.instructions.value else I.Join(parts))
    else if c.instructions.Some? then
      s.(instructions := c.instructions.value, left := I.Leave(s.left, s.parts, []), parts := [])
    else s
  }

  function WithRequest(c: Config, s: Settings): Settings {
    s.(model := if c.model != "" then c.model else s.model,
       reasoning := if c.reasoning.Some? then c.reasoning.value else s.reasoning,
       text := if c.text.Some? then c.text.value else s.text,
       tools := AddTools(RemoveTools(s.tools, c.toolsRemoved), c.toolsAdded),
       extra := MergeExtra(s.extra, c.extra))
  }

  /** The config entries of a path replayed from s. */
  ghost function Replay(hash: I.TextHash, s: Settings, path: seq<Entry>): Settings {
    if path == [] then s
    else
      var n := |path| - 1;
      var before := Replay(hash, s, path[..n]);
      if path[n].body.ConfigBody? then Apply(hash, before, path[n].id, path[n].body.config) else before
  }

  // ----- what every replay keeps -----

  /** What the deltas rely on. */
  ghost predicate SettingsOk(s: Settings) {
    && I.HistoryOk(s.left) && I.Joined(s)
    && L.ListsOk(s.lists)
    && (s.omit.outputs.Some? ==> O.WellFormed(s.omit.outputs.value))
  }

  ghost predicate ListsWithin(s: Settings, ids: set<Id>) {
    forall i | 0 <= i < |s.lists| :: s.lists[i].entry in ids
  }

  lemma ApplyKeeps(hash: I.TextHash, s: Settings, id: Id, c: Config)
    requires SettingsOk(s) && forall i | 0 <= i < |s.lists| :: s.lists[i].entry != id
    ensures SettingsOk(Apply(hash, s, id, c))
    ensures forall ids: set<Id> | ListsWithin(s, ids) && id in ids :: ListsWithin(Apply(hash, s, id, c), ids)
  {
    hide I.AppliedParts, I.Leave, I.Unresolved, I.Join, L.Resolved, O.WellFormed, O.Overlaps, O.MergedOutputs;
    var from := if c.replace then NO_SETTINGS else s;
    OmittedKeeps(c, id, from);
    InstructionsKeep(hash, c, WithOmitted(c, id, from));
  }

  lemma OmittedKeeps(c: Config, id: Id, s: Settings)
    requires SettingsOk(s) && forall i | 0 <= i < |s.lists| :: s.lists[i].entry != id
    ensures SettingsOk(WithOmitted(c, id, s))
    ensures WithOmitted(c, id, s).parts == s.parts && WithOmitted(c, id, s).left == s.left
  {
    hide I.Unresolved, I.Join, I.HistoryOk, L.Resolved, O.WellFormed, O.Overlaps, O.MergedOutputs;
    if c.omit.Some? {
      var d := c.omit.value;
      if d.outputs.Some? && !O.Overlaps(s.omit.outputs, d.outputs.value) {
        O.MergedWellFormed(s.omit.outputs, d.outputs.value);
      }
    }
  }

  lemma InstructionsKeep(hash: I.TextHash, c: Config, s: Settings)
    requires SettingsOk(s)
    ensures var t := WithInstructions(hash, c, s); SettingsOk(t) && t.lists == s.lists && t.omit == s.omit
  {
    hide I.AppliedParts, I.Leave, I.Unresolved, I.Join, I.HistoryOk, O.WellFormed;
    I.LeaveOk(s.left, s.parts, []);
    var parts := I.AppliedParts(hash, s.parts, c.parts, s.left);
    I.LeaveOk(s.left, s.parts, parts);
    if c.parts != [] && AnyUnresolved(parts) {
      var i :| 0 <= i < |parts| && I.Unresolved(parts[i]);
    }
  }

  /** Any path's config entries, each entry once, leave settings the deltas
      can be written against. */
  lemma {:induction false} ReplayKeeps(hash: I.TextHash, s: Settings, path: seq<Entry>)
    requires SettingsOk(s) && s.lists == [] && Distinct(path)
    ensures SettingsOk(Replay(hash, s, path)) && ListsWithin(Replay(hash, s, path), Ids(path))
  {
    if path != [] {
      hide Apply, SettingsOk;
      var n := |path| - 1;
      ReplayKeeps(hash, s, path[..n]);
      LastDistinct(path);
      IdsSplit(path);
      if path[n].body.ConfigBody? {
        ApplyKeeps(hash, Replay(hash, s, path[..n]), path[n].id, path[n].body.config);
      }
    }
  }

  // ----- the settings a request names one by one -----

  datatype Field = Model | Reasoning | Text | Extra(key: string)

  function FieldOf(s: Settings, f: Field): Option<string> {
    match f
    case Model => Some(s.model)
    case Reasoning => Some(s.reasoning)
    case Text => Some(s.text)
    case Extra(k) => if k in s.extra then Some(s.extra[k]) else None
  }

  /** Whether a config entry has the last word on a field: it gives it, or
      starts afresh. */
  predicate Speaks(e: Entry, f: Field) {
    e.body.ConfigBody? &&
    var c := e.body.config;
    || c.replace
    || match f
       case Model => c.model != ""
       case Reasoning => c.reasoning.Some?
       case Text => c.text.Some?
       case Extra(k) => k in c.extra
  }

  function WordOf(c: Config, f: Field): Option<string> {
    match f
    case Model => Some(c.model)
    case Reasoning => Some(if c.reasoning.Some? then c.reasoning.value else "")
    case Text => Some(if c.text.Some? then c.text.value else "")
    case Extra(k) => if k in c.extra then c.extra[k] else None
  }

  ghost predicate SpokeLast(path: seq<Entry>, i: nat, f: Field) {
    i < |path| && Speaks(path[i], f) && forall j | i < j < |path| :: !Speaks(path[j], f)
  }

  ghost predicate NeverSpoke(path: seq<Entry>, f: Field) {
    forall i | 0 <= i < |path| :: !Speaks(path[i], f)
  }

  lemma FieldStep(hash: I.TextHash, s: Settings, e: Entry, f: Field)
    requires e.body.ConfigBody?
    ensures FieldOf(Apply(hash, s, e.id, e.body.config), f) == if Speaks(e, f) then WordOf(e.body.config, f) else FieldOf(s, f)
  {
    hide I.AppliedParts, I.Leave, I.Join, L.Resolved, O.Merged, AnyUnresolved;
  }

  lemma FieldOn(hash: I.TextHash, s: Settings, path: seq<Entry>, f: Field)
    requires path != []
    ensures var (before, e) := (path[..|path| - 1], path[|path| - 1]);
            FieldOf(Replay(hash, s, path), f) == if Speaks(e, f) then WordOf(e.body.config, f) else FieldOf(Replay(hash, s, before), f)
  {
    hide Apply, FieldOf, WordOf;
    var (before, e) := (path[..|path| - 1], path[|path| - 1]);
    if e.body.ConfigBody? {
      FieldStep(hash, Replay(hash, s, before), e, f);
    }
  }

  /** The model, the reasoning, the text and each extra member in force after
      a path are what the last config entry that has a word on it says, and
      what they were when none has. */
  lemma {:induction false} FieldsExactly(hash: I.TextHash, s: Settings, path: seq<Entry>, f: Field)
    ensures forall i: nat | SpokeLast(path, i, f) :: FieldOf(Replay(hash, s, path), f) == WordOf(path[i].body.config, f)
    ensures NeverSpoke(path, f) ==> FieldOf(Replay(hash, s, path), f) == FieldOf(s, f)
  {
    if path != [] {
      hide Replay, FieldOf, WordOf, Speaks, SpokeLast, NeverSpoke;
      var before := path[..|path| - 1];
      FieldsExactly(hash, s, before, f);
      FieldOn(hash, s, path, f);
      forall i: nat | SpokeLast(path, i, f) ensures FieldOf(Replay(hash, s, path), f) == WordOf(path[i].body.config, f) {
        SpokeBefore(path, i, f);
      }
      NeverBefore(path, f);
    }
  }

  lemma NeverBefore(path: seq<Entry>, f: Field)
    requires path != []
    ensures NeverSpoke(path, f) ==> NeverSpoke(path[..|path| - 1], f) && !Speaks(path[|path| - 1], f)
  {}

  lemma SpokeBefore(path: seq<Entry>, i: nat, f: Field)
    requires SpokeLast(path, i, f)
    ensures i < |path| && path[i].body.ConfigBody?
    ensures i == |path| - 1 || (!Speaks(path[|path| - 1], f) && SpokeLast(path[..|path| - 1], i, f))
  {}

  /** A config entry that gives parts puts their join in the request, and its
      own text only for want of one part; one that gives a text alone leaves no
      parts; any other leaves both alone. */
  lemma InstructionsExactly(hash: I.TextHash, s: Settings, id: Id, c: Config)
    ensures var (was, now) := (if c.replace then NO_SETTINGS else s, Apply(hash, s, id, c));
            && (c.parts != [] && (AnyUnresolved(now.parts) ==> c.instructions.None?) ==> now.instructions == I.Join(now.parts))
            && (c.parts != [] && AnyUnresolved(now.parts) && c.instructions.Some? ==> now.instructions == c.instructions.value)
            && (c.parts == [] && c.instructions.Some? ==> now.instructions == c.instructions.value && now.parts == [])
            && (c.parts == [] && c.instructions.None? ==> now.instructions == was.instructions && now.parts == was.parts && now.left == was.left)
  {
    hide I.AppliedParts, I.Leave, I.Join, L.Resolved, O.Merged, AnyUnresolved;
  }

  /** What a later delta may name: the parts that left force with the entry, and
      the list it put in force, under its id. */
  lemma HistoryExactly(hash: I.TextHash, s: Settings, id: Id, c: Config)
    ensures var (was, now) := (if c.replace then NO_SETTINGS else s, Apply(hash, s, id, c));
            && now.left == (if c.parts == [] && c.instructions.None? then was.left else I.Leave(was.left, was.parts, now.parts))
            && now.lists == (if c.omitted.Some? && id != "" then [ListNode(id, now.omitted)] else []) + was.lists
            && (c.omitted.None? ==> now.omitted == was.omitted)
            && (c.omit.None? ==> now.omit == was.omit)
  {
    hide I.AppliedParts, I.Leave, I.Join, L.Resolved, O.Merged, AnyUnresolved;
    var was := if c.replace then NO_SETTINGS else s;
    assert [] + was.lists == was.lists;
  }

  // ----- the tools -----

  /** The tools whose name is not among those gone, in order. */
  function Staying(tools: seq<Tool>, gone: set<string>): (r: seq<Tool>) {
    if tools == [] then [] else (if tools[0].name in gone then [] else [tools[0]]) + Staying(tools[1..], gone)
  }

  function NamesOf(tools: seq<Tool>): set<string> {
    set t | t in tools && t.name != "" :: t.name
  }

  /** The tools of a list less those a later one of the same name replaces. */
  function LastOfName(tools: seq<Tool>): seq<Tool> {
    if tools == [] then []
    else (if tools[0].name in NamesOf(tools[1..]) then [] else [tools[0]]) + LastOfName(tools[1..])
  }

  function NameSet(names: seq<string>): set<string> {
    set n | n in names
  }

  lemma {:induction false} StayingAll(tools: seq<Tool>)
    ensures Staying(tools, {}) == tools
  {
    if tools != [] {
      StayingAll(tools[1..]);
    }
  }

  lemma {:induction false} RemovedStay(tools: seq<Tool>, name: string, gone: set<string>)
    ensures Staying(RemoveTool(tools, name), gone) == Staying(tools, gone + {name})
    ensures RemoveTool(tools, name) == Staying(tools, {name})
  {
    if tools != [] {
      RemovedStay(tools[1..], name, gone);
      var rest := RemoveTool(tools[1..], name);
      assert ([tools[0]] + rest)[1..] == rest && [] + rest == rest;
    }
  }

  lemma {:induction false} RemoveToolsIs(tools: seq<Tool>, names: seq<string>)
    ensures RemoveTools(tools, names) == Staying(tools, NameSet(names))
    decreases |names|
  {
    if names == [] {
      StayingAll(tools);
      assert NameSet(names) == {};
    } else {
      RemoveToolsIs(RemoveTool(tools, names[0]), names[1..]);
      RemovedStay(tools, names[0], NameSet(names[1..]));
      assert NameSet(names) == NameSet(names[1..]) + {names[0]};
    }
  }

  lemma {:induction false} StayingTwice(tools: seq<Tool>, a: set<string>, b: set<string>)
    ensures Staying(Staying(tools, a), b) == Staying(tools, a + b)
  {
    if tools != [] {
      StayingTwice(tools[1..], a, b);
      var rest := Staying(tools[1..], a);
      assert ([tools[0]] + rest)[1..] == rest && [] + rest == rest;
    }
  }

  lemma {:induction false} StayingJoin(a: seq<Tool>, b: seq<Tool>, gone: set<string>)
    ensures Staying(a + b, gone) == Staying(a, gone) + Staying(b, gone)
  {
    if a == [] {
      assert a + b == b;
    } else {
      assert (a + b)[1..] == a[1..] + b;
      StayingJoin(a[1..], b, gone);
    }
  }

  /** One tool added, and others after it that may replace it. */
  lemma AddToolsOn(tools: seq<Tool>, t: Tool, later: set<string>)
    ensures Staying((if t.name != "" then RemoveTool(tools, t.name) else tools) + [t], later)
         == Staying(tools, later + if t.name == "" then {} else {t.name}) + if t.name in later then [] else [t]
  {
    var less := if t.name != "" then RemoveTool(tools, t.name) else tools;
    StayingJoin(less, [t], later);
    RemovedStay(tools, t.name, later);
    assert Staying([t], later) == if t.name in later then [] else [t];
    assert later + {} == later;
  }

  lemma {:induction false} AddToolsIs(tools: seq<Tool>, added: seq<Tool>)
    ensures AddTools(tools, added) == Staying(tools, NamesOf(added)) + LastOfName(added)
    decreases |added|
  {
    hide NamesOf, Staying, RemoveTool, LastOfName;
    if added == [] {
      StayingAll(tools);
      NoNames();
    } else {
      var (t, rest) := (added[0], added[1..]);
      var more := (if t.name != "" then RemoveTool(tools, t.name) else tools) + [t];
      AddToolsIs(more, rest);
      AddToolsOn(tools, t, NamesOf(rest));
      NamesFirst(added);
      LastOfNames(added);
      hide AddTools;
      Regroup(Staying(tools, NamesOf(added)), if t.name in NamesOf(rest) then [] else [t], LastOfName(rest));
    }
  }

  lemma LastOfNames(tools: seq<Tool>)
    requires tools != []
    ensures LastOfName(tools) == (if tools[0].name in NamesOf(tools[1..]) then [] else [tools[0]]) + LastOfName(tools[1..])
  {}

  lemma Regroup(a: seq<Tool>, b: seq<Tool>, c: seq<Tool>)
    ensures (a + b) + c == a + (b + c)
  {}

  lemma NoNames()
    ensures NamesOf([]) == {} && LastOfName([]) == []
  {}

  lemma NamesFirst(tools: seq<Tool>)
    requires tools != []
    ensures NamesOf(tools) == NamesOf(tools[1..]) + if tools[0].name == "" then {} else {tools[0].name}
  {
    assert tools == [tools[0]] + tools[1..];
  }

  /** After a config entry: the tools there were, less those it removes or
      replaces, then those it adds, the last of each name, in order. */
  lemma ToolsExactly(hash: I.TextHash, s: Settings, id: Id, c: Config)
    ensures Apply(hash, s, id, c).tools
         == Staying(if c.replace then [] else s.tools, NameSet(c.toolsRemoved) + NamesOf(c.toolsAdded)) + LastOfName(c.toolsAdded)
  {
    hide I.AppliedParts, I.Leave, I.Join, L.Resolved, O.Merged, AnyUnresolved;
    var tools := if c.replace then [] else s.tools;
    RemoveToolsIs(tools, c.toolsRemoved);
    AddToolsIs(RemoveTools(tools, c.toolsRemoved), c.toolsAdded);
    StayingTwice(tools, NameSet(c.toolsRemoved), NamesOf(c.toolsAdded));
  }

  lemma {:induction false} StayingHas(tools: seq<Tool>, gone: set<string>, t: Tool)
    ensures t in Staying(tools, gone) <==> t in tools && t.name !in gone
  {
    if tools != [] {
      StayingHas(tools[1..], gone, t);
    }
  }

  ghost predicate NamedOnce(tools: seq<Tool>) {
    forall i, j | 0 <= i < j < |tools| && tools[i].name != "" :: tools[i].name != tools[j].name
  }

  lemma {:induction false} StayingOnce(tools: seq<Tool>, gone: set<string>)
    requires NamedOnce(tools)
    ensures NamedOnce(Staying(tools, gone))
  {
    if tools != [] {
      var rest := tools[1..];
      assert forall i | 0 <= i < |rest| :: rest[i] == tools[i + 1];
      StayingOnce(rest, gone);
      forall t | t in Staying(rest, gone) ensures tools[0].name != "" ==> t.name != tools[0].name {
        StayingHas(rest, gone, t);
        var i :| 0 <= i < |rest| && rest[i] == t;
      }
    }
  }

  lemma {:induction false} LastOnce(tools: seq<Tool>)
    ensures NamedOnce(LastOfName(tools))
    ensures forall t | t in LastOfName(tools) :: t in tools
  {
    if tools != [] {
      LastOnce(tools[1..]);
      forall t | t in LastOfName(tools[1..]) && tools[0].name != "" && tools[0].name !in NamesOf(tools[1..]) ensures t.name != tools[0].name {
        assert t in tools[1..];
      }
    }
  }

  /** No config entry leaves two tools of one name. */
  lemma ToolsNamedOnce(hash: I.TextHash, s: Settings, id: Id, c: Config)
    requires NamedOnce(s.tools)
    ensures NamedOnce(Apply(hash, s, id, c).tools)
  {
    hide Apply, Staying, LastOfName;
    var (tools, gone) := (if c.replace then [] else s.tools, NameSet(c.toolsRemoved) + NamesOf(c.toolsAdded));
    ToolsExactly(hash, s, id, c);
    StayingOnce(tools, gone);
    LastOnce(c.toolsAdded);
    var (a, b) := (Staying(tools, gone), LastOfName(c.toolsAdded));
    forall i, j | 0 <= i < |a| && 0 <= j < |b| && a[i].name != "" ensures a[i].name != b[j].name {
      StayingHas(tools, gone, a[i]);
      assert a[i] in a && b[j] in b && b[j] in c.toolsAdded;
    }
  }

  // ----- diff then patch, as config entries -----

  /** The config entry a delta of parts is written as. */
  function PartsConfig(d: I.Delta): Config {
    match d
    case Unchanged => NO_CONFIG
    case Cleared => NO_CONFIG.(instructions := Some(""))
    case Parts(parts) => NO_CONFIG.(parts := parts)
  }

  /** Appending the delta to parts puts exactly parts in force and their join
      in the request; no delta means they were in force. */
  lemma InstructionsRoundTrip(hash: I.TextHash, s: Settings, id: Id, parts: seq<InstructionPart>)
    requires I.HashOk(hash) && SettingsOk(s) && I.PartsOk(parts)
    ensures var d := I.InstructionsDeltaOf(hash, s, parts);
            var now := if d.Unchanged? then s else Apply(hash, s, id, PartsConfig(d));
            I.SameParts(now.parts, parts) && now.instructions == I.Join(parts)
  {
    hide I.SameParts, I.Join, I.Leave, I.Joined, I.HistoryOk, I.DeltaFrom, I.InForce;
    var d := I.InstructionsDeltaOf(hash, s, parts);
    I.DiffThenPatch(hash, s, parts);
    if d.Parts? {
      DeltaNotEmpty(hash, s.parts, s.left, parts, 0, 0);
    }
  }

  lemma {:induction false} DeltaNotEmpty(hash: I.TextHash, prev: seq<InstructionPart>, left: I.History,
                                         parts: seq<InstructionPart>, cursor: nat, run: nat)
    requires parts != [] || run > 0
    ensures I.DeltaFrom(hash, prev, left, parts, cursor, run) != []
    decreases |parts|
  {
    hide I.Kept, I.Head, I.After;
    if parts != [] && I.Kept(prev, parts[0], cursor + run) {
      DeltaNotEmpty(hash, prev, left, parts[1..], cursor, run + 1);
    }
  }

  /** Appending the delta to omitted puts exactly omitted in force. */
  lemma OmittedRoundTrip(hash: I.TextHash, size: L.Size, s: Settings, id: Id, omitted: seq<OmittedPart>)
    requires SettingsOk(s) && L.Listed(omitted)
    ensures var d := L.OmittedDeltaOf(size, s, omitted);
            (if d.None? then s else Apply(hash, s, id, NO_CONFIG.(omitted := d))).omitted == omitted
  {
    hide L.Listed, L.Resolved, L.OmittedDeltaOf, L.Tried, L.Countable, L.RunsFrom;
    L.DiffThenPatch(size, s, omitted);
  }

  /** Appending the omit delta sends every output as wanted. */
  lemma OmitRoundTrip(hash: I.TextHash, s: Settings, id: Id, want: Omit, entry: Id)
    requires SettingsOk(s) && O.OmitDelta(s.omit, want).Ok? && entry != ""
    ensures var d := O.OmitDelta(s.omit, want).value;
            var now := (if d.None? then s else Apply(hash, s, id, NO_CONFIG.(omit := d))).omit;
            && now.reasoning == want.reasoning && O.IdSet(now.items) == O.IdSet(want.items) && now.images == want.images
            && O.SentAs(now.outputs, entry) == O.SentAs(want.outputs, entry)
  {
    hide O.OmitDelta, O.Merged, O.SentAs;
    O.OmitDeltaRight(s.omit, want, entry);
  }
}

/** The entries of a session and the settings they carry: the values of
    entry.go and lifecycle.go. Entry ids are hashes; the empty id is the
    universal root every first entry hangs from. */
module Entries {

  type Id = string

  const ROOT: Id := ""
  /** How a mark on the root is spelled, the empty mark meaning none. */
  const ROOT_MARK: Id := "\0root"
  const LEAF_LABEL := "leaf"

  /** What a hash can be: neither of the two reserved spellings. */
  predicate ValidId(id: Id) {
    id != ROOT && id != ROOT_MARK
  }

  datatype Option<+T> = None | Some(value: T)

  datatype Result<+T, +E> = Ok(value: T) | Err(error: E)

  // ----- items -----

  datatype Part = InputText(text: string) | InputImage(url: string) | OtherPart(raw: string)

  datatype OutputData = OutputText(text: string) | OutputParts(parts: seq<Part>)

  datatype Item =
    | FunctionCall(callId: string, arguments: string)
    | FunctionCallOutput(callId: string, output: OutputData)
    | Message(content: seq<Part>)
    | Reasoning(raw: string)
    | OtherItem(raw: string)

  // ----- what a request leaves out -----

  datatype OutputGroup = OutputGroup(text: string, items: seq<Id>)

  /** textSet: a text was given, so the default group is written even when
      it lists nothing. */
  datatype OmitOutputs = OmitOutputs(text: string, items: seq<Id>, groups: seq<OutputGroup>, textSet: bool)

  datatype OmitImages = OmitImages(keep: nat, before: Id, placeholder: string)

  datatype Omit = Omit(reasoning: string, items: seq<Id>, outputs: Option<OmitOutputs>, images: Option<OmitImages>)

  const NO_OMIT := Omit("", [], None, None)

  // ----- settings -----

  datatype Trust = Trust(labels: seq<string>)

  datatype InstructionPart =
    InstructionPart(id: string, text: string, source: string, trust: Option<Trust>, hash: string, keep: nat, unresolved: bool)

  datatype OmittedPart =
    OmittedPart(id: string, reason: string, size: int, source: string, keep: nat, of: Id)

  datatype ListNode = ListNode(entry: Id, list: seq<OmittedPart>)

  datatype Tool = Tool(name: string, raw: string)

  /** The request settings in force. left and lists are the histories a
      later delta may name parts and lists from, newest first. */
  datatype Settings = Settings(
    model: string,
    instructions: string,
    reasoning: string,
    text: string,
    parts: seq<InstructionPart>,
    omitted: seq<OmittedPart>,
    omit: Omit,
    tools: seq<Tool>,
    extra: map<string, string>,
    left: seq<map<string, seq<InstructionPart>>>,
    lists: seq<ListNode>)

  const NO_SETTINGS := Settings("", "", "", "", [], [], NO_OMIT, [], map[], [], [])

  datatype Config = Config(
    replace: bool,
    model: string,
    instructions: Option<string>,
    reasoning: Option<string>,
    text: Option<string>,
    parts: seq<InstructionPart>,
    omitted: Option<seq<OmittedPart>>,
    omit: Option<Omit>,
    toolsRemoved: seq<string>,
    toolsAdded: seq<Tool>,
    extra: map<string, Option<string>>)

  const NO_CONFIG := Config(false, "", None, None, None, [], None, None, [], [], map[])

  // ----- entries -----

  datatype Verdict = Proceed | Hold | Answer | Reject | OtherVerdict(name: string)

  datatype Decision = Decision(callId: string, target: Id, verdict: Verdict, withdrawn: bool, args: string)

  datatype Dispatch = Dispatch(callId: string, target: Id, key: string)

  datatype Return = Return(callId: string, target: Id, item: Item)

  datatype Rel = Subsession | Peer | ContinuedIn | OtherRel(name: string)

  datatype Link = Link(rel: Rel, session: string, callId: string, spawnId: string, target: Id, url: string, cancel: bool)

  datatype CopiedFrom = CopiedFrom(session: string, entry: Id)

  datatype Compaction = Compaction(firstKept: Id, summary: Item, pinned: seq<Item>, config: Settings)

  datatype Body =
    | ItemBody(item: Item, responseId: string, copiedFrom: Option<CopiedFrom>)
    | DecisionBody(decision: Decision)
    | DispatchBody(dispatch: Dispatch)
    | ResultBody(result: Return)
    | LabelBody(target: Id, mark: Option<string>)
    | LinkBody(link: Link)
    | ConfigBody(config: Config)
    | CompactionBody(compaction: Compaction)
    | BranchSummaryBody(summary: Item)
    | ResponseBody(model: string, calls: nat)
    | OtherBody(raw: string)

  /** A convergence reference: session is "" for an entry of this one. */
  datatype Ref = Ref(session: string, entry: Id)

  datatype Entry = Entry(id: Id, parent: Id, parents: seq<Ref>, body: Body)

  predicate IsCall(e: Entry) {
    e.body.ItemBody? && e.body.item.FunctionCall?
  }

  predicate IsLeafLabel(e: Entry) {
    e.body.LabelBody? && e.body.mark == Some(LEAF_LABEL)
  }

  predicate IsNullLabel(e: Entry) {
    e.body.LabelBody? && e.body.mark == None
  }

  /** The model in force after an entry, model before it. */
  function ModelAfter(e: Entry, model: string): string {
    match e.body
    case ConfigBody(c) => if c.model != "" then c.model else if c.replace then "" else model
    case CompactionBody(c) => c.config.model
    case _ => model
  }
}

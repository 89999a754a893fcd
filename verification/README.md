# Session tree verification

A Dafny model of the append-only session store, and proofs of what it is for.
A session is a tree of entries, each named by the hash of its content and of
its parent's. Many parts of the store have a fast or incremental form that must
agree with a plain one over the whole history, and several are pairs that must
undo each other. The project states both forms of each and proves them equal,
and states what every step keeps and proves it over whole runs.

Every method below that loops or changes state is proved equal to a
specification function; the lemmas then prove what that function is for.

- `Entries`, `Tree`: the values, the tree rules, and the path to an entry.
- `Calls`, `CallRules`, `CallSafety`: the fold that builds each call's state
  from a path, the rules an append checks, and that a path grown under those
  rules never fails the record checks.
- `Flaws`, `HandOffs`: the same state, rules and checks told from where the
  entries about a call stand on the path.
- `Leaf`, `Resolving`, `Sessions`, `LineStore`: where a session continues, the
  state that keeps that line by line, the session object, and the labels a store
  of lines writes ahead of an entry.
- `Growth`, `Links`, `Reader`: sessions as they grow from nothing, from a file
  and from a fork; the links a writer may add; the two readers of a file.
- `Instructions`, `Omitted`, `OmitRules`, `SettingsReplay`, `Context`: settings
  deltas, their replay, and the request a path rebuilds, compacted or not.
- `Requests`: that request told from where things stand: what is selected, left
  out and replaced.
- `Exchange`, `Records`, `Replicas`: one store's side of an exchange, what a
  merge keeps of the records, and whole runs of stores with crashes.
- `Overlay`, `Slicer`, `EntryHash`: what a reader keeps of a line it does not
  understand, and the hashes taken over slices of the line.
- `Utf8`, `Surrogates`, `Quote`: the text repairs and the loose string codec.
- `Cost`, `Naming`: the work a path delegated to other sessions, and which leaf
  of each a link counts.

## Conventions

- Hashes are uninterpreted. Where two entries must not share an id, the lemma
  says so (`Exchange.Agree`, `Growth.HashOk`).
- Ids are strings. `""` is the universal root, and a leaf mark on it is written
  `"\0root"`, as in the source.
- Go's nil and error returns are `Option` and `Result`. A call on a path is a
  value in a sequence where the source shares a pointer: its index is its
  identity.
- A lock's critical section is one atomic step, and so is one commit of a log.
- Where the code does not do what its comments say, the model follows the code.
  The comment on the writer's check (session.go:290-308) has a cancel notice name
  a link of the path it joins. One given with its id and no parent hangs from the
  root, while the check looks on the path to the leaf. `Links` proves this the one
  case in which the two differ.

## Model

| member | source | states |
|---|---|---|
| `Tree.CheckRefs` | session.go:1474-1501 | convergence references are accepted exactly when each names an entry, none twice (this session's own id counting as none), and each in-session one an earlier entry that is not the parent |
| `Tree.PathIsChain` | session.go:222-236 | walking parents from any entry ends at a first entry: the path is a chain, root first, with each id once, and ends at the entry asked for |
| `Tree.PathStep` | session.go:222-236 | one step of the walk over the id index is one entry of the path, so the index and file order give the same path |
| `Tree.WfUnique` | session.go:1678-1726 | no id is in the file order twice |
| `Calls.CallsOn` | run.go:332-443 | the single pass with its two indexes computes the fold of the path, call by call, withdrawals undone as the source undoes them |
| `Calls.FoldPlaced` | run.go:332-443 | each call of the fold stands where its entry and its call id say, even when a call id repeats |
| `Calls.SliceAgrees` | session.go:914-964 | for every path, repeated call ids included, the call built from only the selected entries equals in every field the one the whole path builds |
| `CallRules.Slice` | session.go:914-964 | the loop selects exactly the entries about the target or its call id |
| `CallRules.TargetCall` | session.go:914-964 | what an append reads as its target is the call the full fold has there, or the source's error for a missing or mismatched one |
| `CallRules.CallFor` | session.go:873-909 | the call an output answers is the latest of its call id on the path |
| `CallRules.FoldLatest` | run.go:332-443 | the index by call id holds the last call of that id |
| `CallRules.FoldHolds` | run.go:332-443 | every call item of a path has a call in the fold, and a call id is known exactly when one carries it |
| `CallSafety.CallForExact` | session.go:873-909 | with unique call ids the slice by call id and the slice by target are one slice |
| `CallSafety.DecisionKeeps` | run.go:1072-1165 | a decision that append accepts leaves no flaw the record check reports |
| `CallSafety.ResultKeeps` | run.go:1072-1165 | a result that append accepts leaves none either: it answers a dispatch here or on another branch |
| `CallSafety.DispatchKeeps` | run.go:1072-1165 | nor does an accepted dispatch, a redispatch or one after a hold included |
| `CallSafety.OutputKeeps` | run.go:1072-1165 | nor an output that matches the result before it |
| `CallSafety.EventKeeps` | session.go:773-868 | an accepted entry keeps every call of its path free of flaws |
| `CallSafety.PathInvGrows` | session.go:773-868 | appending on one branch cannot make another branch's path fail |
| `CallSafety.AppendKeepsPath` | session.go:773-868 | the new path passes, whatever the entry is |
| `CallSafety.InvClean` | run.go:1072-1165 | what is kept implies the whole-path verifier finds nothing but an output with no dispatch |
| `Flaws.CallOfEvents` | run.go:332-443 | each call of the fold is what the entries about it make of it in turn: those that target it, and the outputs of its call id with no call of that id between |
| `Flaws.FlawExactly` | run.go:1072-1165 | what the record check says of a call, told from where those entries stand: each rule is broken exactly when an entry stands where it may not, a result with no hand-off left open above it, an end after an end, and so on |
| `Flaws.CleanExactly` | run.go:1072-1165 | a path passes if and only if every target stands above, copies are right, and no call made here has an entry so placed |
| `Flaws.RuleExactly` | session.go:773-868 | a decision, dispatch or result is refused by exactly the rule it would break where it would stand, and taken otherwise, a second dispatch included |
| `Flaws.NoTarget` | session.go:914-964 | and refused as having no target exactly there, when no call on the path is the one it names |
| `Flaws.OutputExactly` | session.go:873-909 | an output of a call made here is refused only when it differs from a result in hand that no answer overruled |
| `Flaws.OutputOfNone` | session.go:873-909 | an output of no call on the path is taken |
| `Flaws.OthersExactly` | session.go:773-868 | any other entry is refused only for an item copied from here or beside a response, a call id that is empty or in use, or a spawn id in use |
| `Flaws.WithdrawalUndoes` | run.go:380-400 | a dispatch taken back leaves the call as it was before it, and itself among those taken back |
| `HandOffs.HandOffExactly` | run.go:120-230 | the arguments a call runs with are those the last decision on record gave, or its own; those of the last dispatch that stands are the ones in force at it; and how the call was last decided counts only with no dispatch standing since |
| `Growth.PreparedFits` | session.go:686-757 | an entry prepared and not held already may follow the file: a new id, an earlier parent, earlier references |
| `Growth.AppendKeeps` | session.go:282-288 | one append, accepted or refused, keeps the whole session invariant |
| `Growth.GrownSessionsVerify` | run.go:1072-1165 | in every session grown from nothing by any appends and leaf moves, call ids and spawn ids are unique and every path passes the target, copy and per-call checks |
| `Growth.LeafFollows` | session.go:1110-1128 | a new entry that is no leaf label becomes the leaf exactly when it hangs from the leaf, and leaves it otherwise; a leaf label sends it to its target when a leaf may rest there, and nowhere else |
| `Growth.StraightRun` | session.go:282-288 | appending any list of drafts with no parent, none a leaf label, lengthens the path to the leaf by exactly them, in order |
| `Growth.NewStraightRun` | session.go:282-288 | so in a new session the path to the leaf is all of its entries |
| `Links.NewRuleExactly` | session.go:309-384 | a writer may add a link exactly when the links of the session stay right, one successor and each link anchored as its relation asks, and a cancel notice finds what it cancels on the path that is looked at |
| `Links.LandsExactly` | session.go:686-757 | a draft is taken as a new entry exactly when the session stays a tree with it, its parent is not above the base, a given id is its own, its links stay right, and it breaks no rule of calls |
| `Links.GrownLinks` | session.go:309-384 | in every session grown from nothing, the links stay so |
| `Links.VerifyCallees` | run.go:1421-1455 | the loop over a path, with its links by id, finds whether each notice cancels a link of its call, spawn and relation above it, and each peer with a url names its call |
| `Links.JoinsRight` | session.go:309-384 | the path an accepted entry ends passes that check if and only if the entry is no notice given with an id and no parent |
| `Links.GrownCallees` | run.go:1421-1455 | and every path of a grown session does if and only if it took no such notice |
| `Links.StrayNotice` | session.go:366-383 | a subsession link, then a notice of it given with its id and no parent: both are taken, and the path of the second fails the check |
| `Leaf.ExtendIsFresh` | session.go:631-653 | taking one line into the cached state gives mark, entries under it and tip as a fresh pass over all lines does, if and only if the line is harmless to the labels before it |
| `Leaf.CatchUpExact` | session.go:1326-1333 | and so for any number of lines taken in one by one: the cache ends as the fresh pass's state if and only if they are harmless to the labels before them |
| `Leaf.NoForwardHarmless` | session.go:631-653 | lines of which no leaf label names a later entry are harmless wherever a cache has got to |
| `Leaf.CatchUpEnd` | session.go:1326-1333 | catching up several lines at once ends in the fresh pass's state |
| `Leaf.ForwardLabelDiffers` | session.go:631-653 | three lines that are not: a leaf label names the entry after it, and the two states differ |
| `Leaf.UnderIsDescent` | session.go:609-627 | the set kept under a mark is exactly the entries whose path passes through it |
| `Leaf.LastLabelResolves` | session.go:1387-1412 | a leaf label written last makes the lines resolve to its target |
| `Leaf.OffBranchKeeps` | session.go:1387-1412 | an entry off the marked branch, harmless to the labels before it, does not move what the lines resolve to |
| `Leaf.LabelBeforeKeeps` | session.go:1293-1322 | the label written ahead keeps the head where it was, and makes it marked |
| `Leaf.WriteAheadSafe` | session.go:1267-1322 | writing the label ahead when needed, the entry, and the label after when needed leaves the lines resolving to the live leaf, on which a leaf may rest |
| `Leaf.CutSafe` | session.go:1293-1322 | for an entry off the head's branch, a crash right after it leaves the lines resolving to the head if and only if the entry is harmless to the labels before it, as it always is after a label written ahead |
| `Leaf.CutReads` | session.go:1293-1322 | after any harmless entry the lines resolve to the head before, the head after, or the entry off its labels |
| `Resolving.MarkExactly` | session.go:1347-1368 | the mark in force is that of the last leaf label on what a leaf may rest on, unless a label since cleared its target |
| `Resolving.TipExactly` | session.go:609-653 | its tip is the last line after it that hangs below the marked entry, or the entry itself |
| `Resolving.OffLabels` | session.go:1418-1431 | off its labels an entry is the last on its path that is none, with the base standing in for what is above it |
| `Resolving.ResolvesExactly` | session.go:1387-1412 | so the lines of a session resolve to that entry for the tip under the mark in force, and for the last line without one |
| `Sessions.ReadLeaf.constructor` | session.go:598-604 | a new cache is the fresh pass's state |
| `Sessions.ReadLeaf.Mark` | session.go:609-627 | placing a mark recomputes the set under it and the tip over all lines |
| `Sessions.ReadLeaf.Extend` | session.go:631-653 | one line moves the cache by the line rule |
| `Sessions.Session.Path` | session.go:222-236 | the loop over the index returns the path, and ends |
| `Sessions.Session.MayRest` | session.go:1131-1146 | a leaf may rest on the root of a session with no base, and on the base or an own entry that is no leaf label |
| `Sessions.Session.DurableLeafAt` | session.go:1347-1368 | the backward scan finds the mark in force and its line |
| `Sessions.Session.OffLabel` | session.go:1418-1431 | the walk up from a label ends off every label, and not above the base |
| `Sessions.Session.CheckRules` | session.go:773-868 | the checks over the session's indexes give the verdict of the checks over all entries and the path |
| `Sessions.Session.Prepare` | session.go:686-757 | an entry is completed or refused, in the source's order of errors, and nothing changes |
| `Sessions.Session.Add` | session.go:1678-1726 | adding keeps the tree and every index in step with the entries |
| `Sessions.Session.Commit` | session.go:521-534 | exactly an accepted new entry is added and moves the leaf |
| `Sessions.Session.Append` | session.go:282-288 | the writer's rules, then the entry's; the new state is the specification's, and a refusal changes nothing |
| `Sessions.Session.Branch` | session.go:241-249 | the leaf moves to a held entry and nothing else changes |
| `Sessions.Session.Extend` | session.go:553-575 | the leaf goes where the cache, one line on, says; a right cache stays right, and the leaf is what all lines resolve to, exactly when the new entry is harmless to the labels before it |
| `Sessions.Session.ReadCaughtUp` | session.go:1326-1333 | the cache, however far behind, takes in every line since; a right one ends as the fresh state over all lines exactly when those lines are harmless to the labels it had |
| `Sessions.Session.LeafMarkNeeded` | session.go:1267-1282 | the label after is written when the cache, caught up, resolves another leaf; where it catches up to the fresh state, exactly when a reader of the lines would |
| `Sessions.Session.LeafMarkBefore` | session.go:1293-1322 | the label ahead is written by the same cache; where it catches up to the fresh state, exactly when the entry would otherwise move a reader's head |
| `Sessions.Session.ResolveLeaf` | session.go:1387-1412 | the leaf is placed where the lines resolve |
| `LineStore.Keep` | jsonl/jsonl.go:756-764 | writing the leaf label adds that label alone, repeats one held already, or is refused, and leaves the leaf; it is never refused on a leaf a session may rest on |
| `LineStore.KeepBefore` | jsonl/jsonl.go:765-769 | the label ahead, written when the cache calls for it |
| `LineStore.PutEntry` | jsonl/jsonl.go:770-776 | the entry itself: the one prepared is added, held already, or refused with nothing changed |
| `LineStore.KeepAfter` | jsonl/jsonl.go:777-784 | the label after, which is never refused |
| `LineStore.WriteLines` | jsonl/jsonl.go:756-784 | the lines after each of the three writes and the leaf after all, in every outcome, failure and repeat included |
| `LineStore.AppendLocked` | jsonl/jsonl.go:735-802 | nothing is written for an entry refused or held; from lines that read back as the live leaf, an append of new lines is the three writes of the protocol and ends in such lines, when the lines the cache has yet to take in harm no label it has |
| `LineStore.HarmlessEnd` | session.go:1326-1333 | a cache that has taken in all lines has nothing to fear |
| `LineStore.HarmlessMark` | session.go:1267-1282 | nor has any before a label on the leaf |
| `LineStore.RunReadsBack` | jsonl/jsonl.go:735-802 | after every append of a run of any length the lines read back as the live leaf |
| `LineStore.CutWithin` | session.go:1293-1322 | lines cut anywhere within an append read as the head before or after it, or, cut before the label after, as the entry itself when it is harmless to the labels before it |
| `LineStore.RunCut` | session.go:1293-1322 | and so for a cut anywhere in the lines of a whole run |
| `Reader.BaseRule.Line` | session.go:1071-1090 | a line is accepted by the base rule exactly when the prefix runs to the base and every later line hangs from it or below |
| `Reader.LinkLine` | codec.go:160-201 | one line is a repeat, refused or added, as the specification says, in that order of checks |
| `Reader.Read` | codec.go:50-143 | a session is returned exactly when every line links and the base was met, with the entries in file order and the leaf the lines resolve to |
| `Reader.ScanLine` | scan.go:164-198 | one line met with the ids seen alone is a repeat, refused or added, as the second specification says |
| `Reader.Scan` | scan.go:66-152 | the loop over the lines accepts exactly what that specification does, with its ids and repeats |
| `Reader.LinkAgreesWithScan` | scan.go:164-198 | the two specifications meet the same repeats, ids and rule state, line by line |
| `Reader.ReadersAgree` | scan.go:66-152 | the two readers accept the same files |
| `Reader.ReadsExactly` | codec.go:50-143 | a file reads exactly when the entries it first meets are a tree that opens with the path to its base; then they are the session, the rest are repeats, and the second reader takes it too |
| `Reader.ReadsBack` | codec.go:50-143 | so the lines of any such tree read back as it |
| `Reader.ReadIsTree` | codec.go:50-143 | a file that reads is one tree in file order, opening with the path to its base |
| `Reader.RunsThroughBase` | session.go:1033-1041 | every own entry's path opens with the whole path to the base |
| `Reader.AppendKeepsTree` | session.go:686-757 | an append keeps that |
| `Reader.GrownIsTree` | session.go:282-288 | so does every run of appends and leaf moves from a read or forked session |
| `Reader.ForkIsTree` | session.go:1934-1958 | a path whose convergences stay on it is a tree of its own under the fork's id if and only if every reference in it by that id names an earlier entry of the path, not the parent, and not named as the session's own too |
| `Reader.NamedForkIsNoTree` | session.go:1993-2043 | one entry, forked under the id its reference names, is no tree |
| `Reader.ForkIsBased` | session.go:1993-2043 | a fork is the path to its base and nothing else |
| `Reader.Fork` | session.go:1993-2043 | a fork is made exactly at a held entry, no leaf label, whose path stands alone; its entries are that path, its leaf the base and its indexes right, and it is a valid session exactly when the prefix names nothing wrongly by the fork's id |
| `Reader.CheckAlone` | session.go:1934-1958 | the loop finds a convergence off the path exactly when there is one |
| `Instructions.ApplyInstructionParts` | context.go:326-394 | the cursor walk over a delta puts the replayed parts in force: keeps, text parts, and hashes into parts in force or gone |
| `Instructions.LeaveExactly` | context.go:96-121 | a step of the history a later delta may name holds exactly the resolved parts that left force in it, each under its id |
| `Instructions.InstructionsDelta` | context.go:888-953 | the loop writes the specified delta, and none exactly when the parts are in force as they stand |
| `Instructions.DeltaReplays` | context.go:888-953 | replaying a delta from its cursor gives the parts it was written for |
| `Instructions.DiffThenPatch` | context.go:201-291 | for distinct named parts, applying the delta puts exactly those parts in force, text, source and trust labels as sets, with the instructions their join; no delta means they were |
| `Omitted.ResolveOmitted` | context.go:423-493 | the loop with one cursor a list resolves keeps into the list in force or an earlier one, and reports what it cannot |
| `Omitted.OmittedRuns` | context.go:631-668 | the list with each run that an earlier list holds replaced by a keep |
| `Omitted.OmittedDelta` | context.go:580-617 | the loop tries the list in force and the sixteen newest before it, and keeps the shortest; none is written exactly when the list is in force |
| `Omitted.RunsResolve` | context.go:580-668 | resolving those runs gives the list back |
| `Omitted.ShortestGood` | context.go:580-617 | whichever list was the shortest to count over, the delta is a good one |
| `Omitted.DiffThenPatch` | context.go:580-617 | for distinct ids, resolving the delta gives the list asked for, and it never encodes longer than the whole list or than over any list tried |
| `OmitRules.Owners` | entry.go:941-974 | the loop accepts exactly the members with distinct texts and disjoint groups, and finds each entry's group |
| `OmitRules.OutputsOverlap` | entry.go:986-998 | an overlap is reported exactly when a delta puts an entry in a second group |
| `OmitRules.MergeOmit` | entry.go:1204-1221 | merging gives the specified rule, items, outputs and images |
| `OmitRules.MergedWellFormed` | entry.go:1012-1029 | merging one more delta keeps each entry in at most one group and texts distinct |
| `OmitRules.GroupsStayDisjoint` | entry.go:1204-1221 | so does every sequence of deltas, malformed and overlapping ones included |
| `OmitRules.WriteOutputsDelta` | context.go:753-815 | the loops write the specified outputs, or refuse where no delta can |
| `OmitRules.WriteOmitDelta` | context.go:689-725 | the delta written, none when in force, and the refusals |
| `OmitRules.OmitDeltaRight` | context.go:689-725 | a delta that is written, merged into what is in force, gives the wanted rule, set of items and images, and the same text for every output |
| `OmitRules.OutputsDeltaExactly` | context.go:753-815 | a delta of outputs can be written exactly when what is in force only has to grow: every entry stays in its group, and every group stays |
| `OmitRules.OmitDeltaExactly` | context.go:689-725 | a delta is written exactly when some single member, merged in, gives what is wanted; for a rule no delta can set, only when nothing has to be written |
| `SettingsReplay.ReplayKeeps` | context.go:201-291 | whatever config entries follow, settings keep histories that name only resolved parts and omit groups that are disjoint |
| `Context.ContextSettingsOk` | session.go:2052-2058 | so do the settings at the end of any path whose compactions each carry the settings of the path before them, whatever they keep or pin |
| `SettingsReplay.InstructionsRoundTrip` | context.go:201-291 | from such settings, a config entry with the delta puts the wanted parts in force |
| `SettingsReplay.OmittedRoundTrip` | context.go:201-291 | and the wanted omitted list |
| `SettingsReplay.OmitRoundTrip` | context.go:201-291 | and the wanted omit |
| `SettingsReplay.FieldsExactly` | context.go:201-291 | the model, the reasoning, the text and each extra member in force are what the last config entry with a word on it says, a replace having one on all |
| `SettingsReplay.InstructionsExactly` | context.go:201-291 | parts put their join in the request and a text given beside them only for want of a part; a text alone leaves no parts |
| `SettingsReplay.HistoryExactly` | context.go:201-291 | every config entry adds the parts that left force with it, and the list it put in force under its own id, to what a later one may name |
| `SettingsReplay.ToolsExactly` | context.go:201-291 | the tools after a config entry are those before, less the ones removed or replaced, then the last added of each name, in order |
| `SettingsReplay.ToolsNamedOnce` | context.go:201-291 | and no name is there twice |
| `Context.ModelsOn` | context.go:1453-1476 | one walk finds the model in force at each attributed reasoning item |
| `Context.LeaveOut` | context.go:1287-1316 | the loop drops exactly the listed items and those of another model |
| `Context.ReplaceOutputs` | context.go:1323-1344 | a listed output is sent as its text |
| `Context.PlaceItem` | context.go:1423-1441 | an item's reached images become text, and the count runs on |
| `Context.ReplaceImages` | context.go:1345-1394 | the keep-last rule counts over what is left, and the before rule goes by place on the path |
| `Context.SendUnder` | context.go:1264-1267 | the three steps send what the omit in force leaves |
| `Context.KeepLastFrom` | context.go:1360-1374 | dropping a prefix shifts the keep-last count by the images it held, and leaves the rest as sent |
| `Context.SelectedTail` | context.go:1212-1270 | what a path selects from any kept slot on is what the path from that slot's entry contributes, compactions on it contributing nothing |
| `Context.CompactionKeepsRequest` | session.go:1848-1906 | appending the compaction and rebuilding gives its summary, exactly the kept items as they were sent, and the same settings, across earlier compactions, the other-models rule, listed omits, output texts and both image rules |
| `Context.CompactKeepingKeeps` | session.go:1864-1873 | keeping the last n items gives the summary, exactly those, and the same settings |
| `Requests.SelectedPlain` | context.go:1212-1270 | without a compaction a path selects the items and branch summaries on it, in order |
| `Requests.SelectedNone` | context.go:1212-1270 | with one it selects nothing exactly when no entry above the last compaction is the first it keeps |
| `Requests.SelectedExactly` | context.go:1212-1270 | otherwise the summary, the pins, and the items from that entry on, the compaction itself giving no other |
| `Requests.FieldsAfter` | context.go:1275-1282 | its settings are the last word after the compaction, or else the compaction's |
| `Requests.ModelsExactly` | context.go:1453-1476 | the model in force at each place is what the last entry above that sets one set |
| `Requests.LeftOutExactly` | context.go:1287-1316 | an item is left out exactly when it is listed, or is the reasoning of a response under another model than the one in force, neither being none |
| `Requests.FilterExactly` | context.go:1287-1316 | what is not left out stays, in order |
| `Requests.OutputExactly` | context.go:1323-1344 | an output is sent as the text of the one group that owns its entry, or as it is |
| `Requests.KeepExactly` | context.go:1345-1394 | an image part is sent as the placeholder exactly when as many images as are kept stand after it, and nothing else changes |
| `Requests.KeepLeaves` | context.go:1360-1374 | so of any stretch to the end, the kept number of images are left, or all there are |
| `Requests.BeforeExactly` | context.go:1345-1394 | under the other rule exactly the images of entries above the one named are |
| `Requests.BeforeNothing` | context.go:1345-1394 | and none when it is not on the path |
| `Requests.ImagesExactly` | context.go:1345-1394 | both rules in one, slot by slot |
| `Requests.SentExactly` | context.go:1264-1267 | the three steps together: what is left out goes first, then outputs become texts, then images are counted over what is left |
| `Exchange.Lack` | cas/exchange.go:612-638 | the loop lands exactly the entries not held, in order, and refuses one that hangs from nothing held |
| `Exchange.CallIdsMeet` | cas/exchange.go:253-289 | an exchange is refused at the first landing entry whose call id or spawn id meets one held and not sent |
| `Exchange.Descend` | cas/exchange.go:450-462 | the walk answers whether some chain of parents leads to the ancestor, and ends |
| `Exchange.Store.Receive` | cas/exchange.go:495-732 | a closure is admitted whole or changes nothing, by the specified head, mark and refusals |
| `Exchange.Store.Create` | cas/exchange.go:533-582 | a session the receiver lacks starts from the closure, at the sent head or its base |
| `Exchange.Store.Merge` | cas/exchange.go:586-732 | a held session takes what it lacks, and its head by compare-and-swap, force or descent |
| `Exchange.MergeIsUnion` | cas/exchange.go:612-639 | an accepted exchange leaves the union of the two logs, the receiver's order kept and every entry after its parent; a refused one changes nothing |
| `Exchange.MergeKeepsUnique` | cas/exchange.go:253-289 | unique call ids and spawn ids on each side are unique in the union |
| `Exchange.MergeKeepsTree` | cas/exchange.go:612-639 | two trees over one prefix merge into one tree, convergence references included |
| `Records.PathHeld` | cas/exchange.go:612-639 | and an entry's path is the same in the merged log, whatever order the two logs had |
| `Records.CleanIsInv` | run.go:1072-1165 | a path passes the checks exactly when it keeps what an append relies on |
| `Records.MergeKeepsRecords` | run.go:1072-1165 | if every path of each log passes the target, copy and per-call checks, every path of the merged one does: a call either log settled stays settled |
| `Records.ForkKeepsRecords` | session.go:1993-2043 | a fork of a session that keeps them all keeps them too if and only if its prefix names by the fork's id only what it holds and copies nothing from that id |
| `Records.GrownForksVerify` | run.go:1072-1165 | and then every path of it passes the checks, however it grows |
| `Exchange.ReceiveTwice` | cas/exchange.go:495-732 | repeating an accepted exchange changes nothing at all |
| `Exchange.RunIsUnion` | cas/exchange.go:495-732 | any run of exchanges leaves what was held and what was accepted |
| `Exchange.AnyOrder` | cas/exchange.go:495-732 | runs that accept the same entries, in any order and number, hold the same set |
| `Exchange.MergeLands` | cas/exchange.go:586-732 | a closure whose entries, with those held, have their ids apart is refused for its mark or its head or not at all, and all of it lands |
| `Exchange.AnyOrderLands` | cas/exchange.go:495-732 | so such messages are accepted in every order, and every permutation of them ends in the same set: all that was held or sent |
| `Exchange.HeadsMoveRight` | cas/exchange.go:640-660 | a fetch never moves a record's head and a mirror's only to a descendant; a push only from the expected value or by force; marks change only in a handover whose head took |
| `Exchange.CreatedRight` | cas/exchange.go:533-582 | a session the receiver lacks is created whole or not at all, at the sent head unless a push expected another, and as the record only in a handover whose head took |
| `Exchange.HeadsMoveExactly` | cas/exchange.go:640-660 | and they move whenever the cases allow: a push not refused ends at the sent head exactly when the heads are equal, the held one is the one expected, or it is forced; a fetch into a mirror exactly when the held head is none or the sent one descends from it |
| `Exchange.HandoverExactly` | cas/exchange.go:640-732 | a handover makes the receiver the record exactly when it is not refused and the sent head took |
| `Exchange.HandoverTaken` | cas/exchange.go:586-732 | one that expects the held head, of entries whose ids are apart, is accepted, unless its head is a leaf label |
| `Exchange.CreatedExactly` | cas/exchange.go:533-582 | a session the receiver lacks is at the sent head exactly when it is the base, no push expects another, or it is forced |
| `Replicas.StepSound` | cas/exchange.go:495-732 | every copy any store ever holds is one tree with unique call and spawn ids, all agreeing entry by entry |
| `Replicas.StepMarks` | cas/exchange.go:192-241 | a store is the record after a step if it was and the step did not take its mark, or it declared itself, or it took a handover, then at the sent head |
| `Replicas.StepSafe` | cas/exchange.go:192-241 | with any number of handovers under way, a step leaves some record that owes no clear if and only if it is guarded: a store that itself owes a clear is handed to, and a mark is given up or a copy deleted, only while another such record exists |
| `Replicas.RunIsSafe` | cas/exchange.go:192-241 | so a run has such a record at all times if and only if its every step is guarded, with crashes, stale closures, the older two-call handover (cas/protocol.go:329-348) and deletions (cas/cas.go:3652-3698) among them |
| `Replicas.UnsafeLosesRecord` | cas/exchange.go:224-241 | and without one the clears still to come leave no record at all |
| `Replicas.ClearedAfterHanded` | cas/exchange.go:224-241 | in every run, a sender owes its clear only after its receiver was the record at the sent head, and while it still is or until it gave the mark up itself |
| `Replicas.LogsOnlyGrow` | cas/exchange.go:612-639 | no store loses an entry or reorders its log in any run, short of deleting its copy |
| `Replicas.MirrorGoesForward` | cas/exchange.go:640-660 | a mirror that only fetches has a head that descends from every head it had before |
| `Replicas.OverlapLosesRecord` | cas/exchange.go:192-241 | a run of six steps, two handovers each to the other's sender, that ends with no record; the second receipt is its one step not guarded |
| `Overlay.ExtrasOnly` | entry.go:2245-2315 | the recursive walk answers whether the line holds all the fields encode, and whether it holds more |
| `Overlay.SoleUnused` | entry.go:2378-2388 | an element left over matches exactly when one unused element is as it is |
| `Overlay.GraftElements` | entry.go:2348-2394 | the two passes over the elements, with their used and done marks, give the specified elements |
| `Overlay.GraftedOnce` | entry.go:2348-2394 | an element in place keeps its own extras, and no element read is grafted twice |
| `Overlay.UntouchedRoundTrip` | entry.go:2322-2397 | what the caller did not touch is written back as it was read, but for the spelling of numbers |
| `Overlay.CallerWins` | entry.go:2322-2397 | whatever the caller set, the result still holds all of it, when no number inside an array the fields encoded at read is one two int64s read alike as floats |
| `Overlay.WinsExactly` | entry.go:2280-2397 | and only then: for what the fields encoded at read, every change wins if and only if each number in an array reads as an int64, as no float, or as a float at most one int64 reads as |
| `Overlay.RestoreKept` | entry.go:2402-2442 | grafting the kept members back gives the same members in whatever order the map is walked |
| `Overlay.RestoreRoundTrip` | entry.go:2003-2088 | an entry whose fields encode its line but for extras writes the line back, member by member |
| `Overlay.RestoreCallerWins` | entry.go:2402-2442 | every member the caller set is there with its value, a null the fields add aside, when the member is safe: no such number in an array, or no object for the line to hold more of |
| `Overlay.RestoreWinsExactly` | entry.go:2402-2442 | and only then, over every line and every value set |
| `Slicer.SkipString` | hash.go:329-339 | the loop ends where the string does |
| `Slicer.SkipValue` | hash.go:343-376 | the loop ends where the value does, counting depth outside strings |
| `Slicer.CanonicalMembers` | hash.go:285-325 | the loop slices, or refuses, as specified |
| `Slicer.SlicesJoin` | hash.go:285-325 | for any bytes it slices, the slices joined are the bytes |
| `Slicer.SkipsDoc` | hash.go:343-376 | skipping any encoded value that a comma or closing bracket follows skips it whole, whatever its strings and nesting |
| `Slicer.SlicesExact` | hash.go:285-325 | every encoded object is sliced into exactly its members: key, span and value span, in order |
| `EntryHash.SplitMembers` | hash.go:231-243 | the walk builds the body's bytes and notes the envelope's values |
| `EntryHash.MemberHashes` | hash.go:231-274 | the hashes are of the body's and the envelope's bytes as laid out |
| `EntryHash.BodySorted` | hash.go:105-159 | leaving the envelope out of a sorted object is sorting the body |
| `EntryHash.EnvelopeBytesAre` | hash.go:251-273 | the envelope as laid out is the encoding of its members, parents only when it is a list of one or more |
| `EntryHash.EnvelopeSorted` | hash.go:251-273 | and its order is that of section 3.2.3 of RFC 8785 |
| `EntryHash.SlicesHashAsEntry` | hash.go:220-274 | for every well-formed entry with distinct keys, the hashes over slices of its canonical bytes are those of decoding, ordering and encoding it |
| `EntryHash.EntryHashesCanonical` | hash.go:220-227 | so the fast form computes the entry's content hash and id |
| `Utf8.MaximalSubpart` | normalise.go:320-350 | the loop measures the maximal subpart |
| `Utf8.SubpartIsMaximal` | normalise.go:320-350 | that subpart is the longest prefix that begins a character, or one byte when none does |
| `Utf8.ReplaceInvalidUTF8` | normalise.go:302-315 | the loop writes the repair |
| `Utf8.RepairedWellFormed` | normalise.go:302-315 | what the repair writes is well-formed UTF-8 |
| `Utf8.RepairedSame` | normalise.go:302-315 | the repair is the identity on well-formed text and on no other |
| `Utf8.OneForEach` | normalise.go:302-315 | the text splits into characters, kept, and maximal subparts, each replaced by one U+FFFD |
| `Surrogates.SurrogateAt` | normalise.go:354-372 | an escape is read as its code unit, in either case of digits, and anything else is none |
| `Surrogates.FixSurrogates` | normalise.go:382-430 | the loop, its output unset until something changes, writes the repair |
| `Surrogates.FixedIsTokens` | normalise.go:382-430 | the repair rewrites exactly the lone surrogate escapes and keeps pairs and every other escape |
| `Surrogates.TokensOfFixed` | normalise.go:382-430 | and makes no new escape: the repaired string reads as the repaired escapes |
| `Surrogates.FixedIsClean` | normalise.go:382-430 | no lone surrogate is left, a string with none comes back unchanged and only such a one does, and the repair is idempotent |
| `Surrogates.HasLoneSurrogate` | normalise.go:376-378 | a lone surrogate is reported exactly when there is one |
| `Quote.QuoteLoose` | rewrite.go:1177-1229 | the loop writes the quoted text, keeping or replacing invalid bytes |
| `Quote.UnquoteLoose` | rewrite.go:1120-1169 | the loop reads it back, repairing nothing |
| `Quote.UnquoteQuoted` | rewrite.go:1120-1229 | unquoting quoted text gives the text with each surrogate pair spelled in six bytes made the one character it encodes |
| `Quote.LooseRoundTrip` | rewrite.go:1120-1229 | the round trip is the identity on a byte string, invalid UTF-8 and lone surrogates included, if and only if no high surrogate's bytes are directly followed by a low one's |
| `Cost.ReadModelCalls` | cost.go:32-53 | a path's model calls in order, each at the model it names or the one in force |
| `Cost.CountCalls` | cost.go:274-282 | the loop over the paths with its set of counted entries |
| `Cost.UnionOnce` | cost.go:274-282 | the union holds each entry that records a call on some path once, and no other |
| `Cost.PricedAlike` | cost.go:32-53 | calls on a shared part of two paths are the same calls at the same prices |
| `Cost.PricedExactly` | cost.go:32-85 | the calls of a path are those of the entries that record any, in order: each at the model its entry names, or the one last set above it, and at least once |
| `Cost.UnionFrom` | cost.go:274-282 | the union holds them as they are on their paths |
| `Cost.Scan` | cost.go:166-242 | a scan registers the links of its paths, the first of each id, as specified |
| `Cost.ScanCovers` | cost.go:166-242 | and settles every one where it is first met: its session is unreadable, or its leaf is counted, named if it is, or reported missing |
| `Cost.ScanJustified` | cost.go:166-242 | and adds no session, no leaf and no report but what a link on a counted path gives, each report once |
| `Cost.ScanNode` | cost.go:256-262 | reading a child again uses up some of the leaves it may still gain |
| `Cost.WorkList` | cost.go:250-264 | the loop ends on every finite graph, cyclic ones included, with every link of every counted path settled |
| `Cost.BuildTree` | cost.go:265-288 | the recursion over parents ends, and builds the specified tree |
| `Cost.ListedOnce` | cost.go:265-288 | the tree lists every session that counts a leaf exactly once, and no other |
| `Cost.PaidOnce` | cost.go:265-288 | a session's entry is counted once if it is a model call on a counted path of that session, and otherwise not at all |
| `Cost.DelegatedWork` | cost.go:151-289 | the whole: a fixpoint, its tree over the sessions that named each other first, each session at most once, and no call twice |
| `Cost.BuildForest` | cost.go:265-288 | each session of the tree stands under the one that named it first, with the leaves it counts |
| `Naming.OutputsExactly` | cost.go:171-178 | the references a call id carries are those of the output of its last answered call, on the last path that has one |
| `Naming.NamedExactly` | cost.go:210-231 | a link with a call takes the leaf that output first names in its session; one without takes it from the first later entry that names the session at all; and no other leaf is taken |
| `Naming.CountsExactly` | cost.go:166-242 | at the end, every link of every counted path counts the leaf so named, marked as named, or the child's own when none is; a leaf the child lacks, or a session that cannot be read, is reported |
| `Naming.LeavesExactly` | cost.go:210-241 | and no leaf is counted, or marked as named, but one a link takes so |
| `Naming.ReportsExactly` | cost.go:185-240 | nor is anything reported twice or without cause |

## Left out

- Sessions.Session.Append: the clock, the sorting of convergence references, the
  map of children, the field checks of each entry type, the check of outputs at
  append, redaction and the raising of formats are not modelled.
- Sessions.Session.Prepare: the order references are written in, text repair and
  reserved members are not modelled there (`Utf8`, `Surrogates`).
- LineStore.AppendLocked: a line the session already held is written again, as
  in the source; then the outcome says so and the lines are described, but they
  are not the three writes. The file, its sync and sidecars are not modelled: it
  gets all lines of an append in one write, and none of one that fails, whose
  label ahead the session may then hold alone.
- GrownSessionsVerify: the check for an output with no dispatch is left out,
  since append does not make it; the check of links is `Links`'s, and those of
  drains, of the links an item came from and of copied runs across sessions are
  not modelled.
- Reader.Read: takes lines already decoded, with valid ids. Parsing, the header,
  migration of old formats and the checks on raw bytes are not modelled.
- Reader.ReadersAgree: over decoded lines, so how each reader decodes the parents
  of a line is not compared.
- Reader.Fork: the media check, format refusals over redacted entries and
  entries a migration could not rewrite are not modelled.
- Instructions.InstructionsDelta: a part that is still in force is told by value
  where the source compares trust by pointer, so two equal parts with separate
  trust objects are one here; the text in force is the same.
- OmitRules.MergeOmit: a value this version does not define is not carried, so
  an omit that holds nothing else is zero here.
- Context.SendUnder: gives the items with their entries; the lists of what was
  omitted or replaced, and the trust of the path, are not modelled.
- CompactionKeepsRequest: asks that the image rule does not name the compaction
  itself, whose id is the hash of an entry not yet written.
- Exchange.Store.Receive: refs, blobs and their types, formats, redacted-only
  stores and media are not modelled, and a header is its id, its base and whether it promises rules.
- Exchange.Store.Create: a session the receiver lacks is taken as sent, with no
  base rule and no check of the head, as in the source; `Replicas` proves such
  closures sound because the copy they come from was.
- Exchange.Store.Merge: raising the format and its refusal are not modelled.
- Replicas.RunIsSafe: writes are the steps of any writer that appends what fits;
  the call rules they were checked by are `Growth`'s.
- Overlay.WinsExactly: how a spelling reads as a float is any function that reads
  an integer alike however it is spelled; that the source's is IEEE 754 is not
  used. Its int64 reading is the source's.
- Overlay.RestoreKept: compares members as values where the source compares
  their bytes. The case where a whole line is kept, and the removal of keys that
  differ in case, are not modelled.
- Slicer.CanonicalMembers: reading an escaped key is a parameter, and numbers are
  text: how RFC 8785 spells a number is not modelled.
- EntryHash.SlicesHashAsEntry: the I-JSON test that comes first is its
  precondition (well-formed values, distinct keys), and the hash is any function
  to text that needs no escape.
- Utf8.ReplaceInvalidUTF8: the library's decoder is Table 3-7 of the Unicode
  Standard.
- Cost.ReadModelCalls: custom entries that record a usage are not modelled, nor
  are token counts; a graph of sessions is a finite map.
- Records of files, fsync, packs, locks, wake hubs and tailing: I/O.
- search, import, readable output, ATIF export, inputs, continuation and refs:
  smaller properties than those above.
- rewrite and remap walks by entry shape: tables tied to Go types.

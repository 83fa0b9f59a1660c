# tekton-lsp in Dafny

A model of the core of tekton-lsp, a language server for Tekton CI/CD YAML
resources (Pipeline, Task, PipelineRun, TaskRun and the trigger kinds), with
proofs about it. The model covers these parts:

- **Document store** (`document.dfy`). Each open document's text is kept
  current by the editor's change events, either whole-text or incremental.
  The incremental edit is built line by line, as the server builds it. The
  final-newline step is the corrected one of the Findings section; with it the
  edit of a text without carriage returns is proved to be the splice the
  Language Server Protocol describes.
- **Line splitting** (`text_lines.dfy`). Rust's `str::lines` and its inverse,
  with their round trip for a text without carriage returns.
- **YAML syntax tree and parser** (`ast.rs` → `ast.dfy`, `yaml_parser.rs` →
  `yaml_parser.dfy`). The node tree, key lookup, the position search, and the
  conversion of a deserialized YAML value into nodes with estimated line
  ranges.
- **Workspace index** (`index_model.dfy`, `index.dfy`). Definitions are kept by
  "Kind/Name" key. References are kept as ordered lists per key. Each document
  records the keys it contributed, so that re-indexing or closing it removes
  exactly what it added. The class `Workspace.WorkspaceIndex` is proved to
  follow the value-level functions in `IndexModel`, and the invariants are
  proved about those functions.
- **Feature providers**:
  - go-to-definition (`definition.dfy`);
  - hover (`hover.dfy`);
  - completion, with its schema tables (`completion.dfy`, `schemas.dfy`);
  - the document outline (`symbols.dfy`);
  - quick-fix code actions (`actions.dfy`).
- **Validator** (`validator.dfy`).

In the original, YAML mappings are Rust `HashMap`s. Here a mapping is a
sequence of key/node pairs. Its order stands for the map's iteration order,
which the source does not fix. For that reason every "first match among the
children" result is stated as "some match on a path to the position", never
as a particular child.

Design notes:

- The parser never sets a node's `key` (`src/parser/yaml_parser.rs:72` builds every
  node without a key). As a result, the key-driven searches of
  definition, hover and completion can only ever find the root of a parsed
  document. The lemmas `Definition.ParsedDocumentHasNoReferenceContext`,
  `Hover.ParsedHoverUsesRootScalar` and
  `Completion.ParsedDocumentGetsNoCompletions` state this. The providers are
  also modelled over arbitrary trees, where keys may be set.
- The parser's ranges are estimates, not source positions. A node gets a
  placeholder range on the line it is counted at, and mapping entries get
  consecutive line numbers. The model follows the code here, although the
  protocol expects real source ranges.
- The validator's unit test `test_valid_pipeline_no_errors`
  (`src/validator/tekton.rs:100-116`) expects no diagnostics for
  `tasks: []`. The code at `src/validator/tekton.rs:53-67` reports an empty
  task list. The model follows the code (`Validator.EmptyTasksReported`).
- `str::lines` drops the `'\r'` of every `"\r\n"`, and the rebuild ends every
  line with a bare `'\n'`. So an incremental edit of a document with Windows
  line endings turns every `"\r\n"` into `"\n"`, in the source and in the
  model alike. The splice lemmas are stated for texts without carriage
  returns; `Documents.CarriageReturnDroppedByInsert`,
  `Documents.CarriageReturnDroppedByEmptyEdit` and
  `TextLines.JoinedLinesDropCarriageReturn` show the rewrite.
- Lookup keys are the kind and the name joined by "/". Such keys are
  injective only when names contain no "/" (`IndexModel.KeyInjective`).
  `IndexModel.KeyCollision` exhibits two kind/name pairs that share a key.

## Model

| member | source | states |
|---|---|---|
| Lsp.PositionInRange | src/parser/ast.rs:144-155 | a position is in a range exactly when it lies between the start and the end, both included, in line-then-character order |
| Lsp.PositionInRangeInclusive | src/parser/ast.rs:144-155 | both ends of a range are inside it; a position before the start or after the end is outside |
| Wrappers.OptionToSeq | src/workspace/index.rs:178-226 | an optional value becomes a list of at most one element: empty exactly when absent |
| Strings.Take | src/cache/document.rs:56-62 | a prefix of the line, as long as the character index or the whole line when the index is past its end |
| Strings.Drop | src/cache/document.rs:68-75 | a suffix of the line, as long as what is left after the character index, and empty when the index is past its end |
| Strings.TakeDropRoundTrip | src/cache/document.rs:56-75 | the prefix `Take` keeps and the suffix `Drop` keeps, put together, give the line back |
| Strings.Find | src/actions/provider.rs:142 | `str::find`: the first index where the needle occurs, or none when it occurs nowhere |
| Strings.FindFrom | src/actions/provider.rs:142 | the first occurrence at or after a start index, or none when there is none from there on |
| Strings.IndexOf | src/actions/provider.rs:146-148 | the first index of a character, with no earlier occurrence; none exactly when the character is absent |
| Strings.NatToString | src/symbols/provider.rs:241-280 | a count's decimal text: non-empty, digits only, no leading zero |
| Strings.NatToStringRoundTrip | src/symbols/provider.rs:241-280 | reading the decimal text back gives the count |
| Strings.NatToStringInjective | src/symbols/provider.rs:241-280 | different counts give different texts |
| TextLines.Lines | src/cache/document.rs:43 | `str::lines`: the empty text has no lines, and every other text has at least one |
| TextLines.JoinLines | src/cache/document.rs:47-81 | a non-empty list of lines, each followed by a newline, gives a text that ends in a newline |
| TextLines.JoinLinesAppend | src/cache/document.rs:47-81 | joining two runs of lines is joining each and concatenating |
| TextLines.JoinLinesExtend | src/cache/document.rs:47-81 | extending a run of lines by one line adds that line and a newline |
| TextLines.JoinLinesSingle | src/cache/document.rs:47-81 | one line joins to that line and a newline |
| TextLines.JoinLinesSplit | src/cache/document.rs:47-81 | the joined text splits at any line into the lines before it, that line with its newline, and the lines after it |
| TextLines.LinesRoundTrip | src/cache/document.rs:43 | joining the lines of a text gives the text back, with a newline added only when the text is non-empty and lacks a final one (for a text without carriage returns) |
| TextLines.LineBeforeRoundTrip | src/cache/document.rs:43 | the text after a line's newline splits into the remaining lines |
| TextLines.NoCRInParts | src/cache/document.rs:43 | a text without carriage returns keeps none in its parts, so stripping them changes nothing |
| TextLines.LinesAfterFirst | src/cache/document.rs:43 | a text that starts with a line and its newline splits into that line, without a carriage return before the newline, and the lines of the rest |
| TextLines.LinesOfOneLine | src/cache/document.rs:43 | a non-empty text without a newline is a single line |
| TextLines.JoinedLinesDropCarriageReturn | src/cache/document.rs:43-81 | joining the lines of "a\r\n" gives "a\n": the carriage return is lost |
| TextLines.ContentIsPrefixOfJoined | src/cache/document.rs:43 | a text is a prefix of the join of its own lines (for a text without carriage returns) |
| Documents.EmptyDocumentNewlineLostAsWritten | src/cache/document.rs:84-86 | as written, inserting "\n" into an empty document leaves it empty |
| Documents.PastEndNewlineLostAsWritten | src/cache/document.rs:84-86 | as written, replacing "a" up to the line past its end by "b\n" gives "b" |
| Documents.DocumentNewlineLostAsWritten | src/cache/document.rs:84-86 | as written, removing the last line of "a\nb" by the range (1,0)-(2,0) gives "a", losing the document's own newline |
| Documents.EmptyDocumentTakesText | src/cache/document.rs:42-89 | the corrected edit of an empty document gives exactly the inserted text |
| Documents.CorrectionDiffersExactly | src/cache/document.rs:84-86 | the corrected edit and the edit as written differ exactly when the text lacks a final newline, the stitched text has one, and the stitching did not add it |
| Documents.CarriageReturnLines | src/cache/document.rs:43 | the lines of "a\r\nb" are "a" and "b" |
| Documents.CarriageReturnDroppedByInsert | src/cache/document.rs:42-89 | inserting "x" at (1,0) into "a\r\nb" gives "a\nxb": the edit rewrites the line ending |
| Documents.CarriageReturnDroppedByEmptyEdit | src/cache/document.rs:42-89 | replacing the empty range at (0,0) of "a\r\nb" by "" gives "a\nb" |
| Documents.LinesJoinedPrefix | src/cache/document.rs:43 | a text is a prefix of its joined lines, and equal to them exactly when it is empty or ends in a newline (for a text without carriage returns) |
| Documents.HeadPiece | src/cache/document.rs:50-62 | the lines before the start line, then the start line up to the start character, are a prefix of the text |
| Documents.TailPiece | src/cache/document.rs:68-81 | the end line from the end character, its newline and the following lines are a suffix of the joined lines |
| Documents.OffsetInContent | src/cache/document.rs:42-89 | an addressable position lies within the text (for a text without carriage returns) |
| Documents.StitchHeadEq | src/cache/document.rs:50-62 | the text built before the new text is the document's text up to the start offset |
| Documents.StitchTailEq | src/cache/document.rs:68-81 | the text built after the new text is the document's text from the end offset, with an extra final newline when the document lacked one |
| Documents.StitchSplices | src/cache/document.rs:42-89 | the line-wise construction, after the newline correction, is the text before the start, the new text, and the text after the end |
| Documents.ApplyRangeSplices | src/cache/document.rs:42-89 | an incremental change from an addressable start replaces exactly the text between the start offset and the end offset, an end past the last line standing for the end of the text (for a text without carriage returns) |
| Documents.ReplaceByCoveredTextIsIdentity | src/cache/document.rs:42-89 | replacing a range by the text it covers leaves the document unchanged (for a text without carriage returns) |
| Documents.StitchTailPastEnd | src/cache/document.rs:68-81 | an end position past the last line contributes nothing after the new text |
| Documents.StitchHeadPastEnd | src/cache/document.rs:50-62 | a start position past the last line keeps every line before the new text |
| Documents.AppendedAfterJoined | src/cache/document.rs:42-89 | with both positions past the last line, the new text is appended after the text, with a newline between when the last line lacks one and the new text is not empty |
| Documents.JoinedIsContentOrNewline | src/cache/document.rs:43 | joining a text's lines gives the text back, or the text plus one newline when it is non-empty and lacks a final newline |
| Documents.EditPastLastLineAppends | src/cache/document.rs:42-89 | an edit wholly past the last line appends its text after the document, with the last line's newline restored when it was missing and the new text is not empty (for a text without carriage returns) |
| Documents.TruncatedAfterJoined | src/cache/document.rs:42-89 | with only the end past the last line, everything from the start offset on is replaced by the new text, whatever newline it ends with |
| Documents.EditToPastLastLineTruncates | src/cache/document.rs:42-89 | an edit whose end lies past the last line replaces everything from its start on (for a text without carriage returns) |
| Documents.ApplyAllAppend | src/cache/document.rs:26-39 | applying two batches of changes is applying the first and then the second |
| Documents.WholeTextChangeSupersedes | src/cache/document.rs:26-39 | a whole-text change discards the effect of every change before it in the batch |
| Documents.Document.constructor | src/cache/document.rs:16-23 | a new document holds the given uri, language, version and text |
| Documents.Document.ApplyChanges | src/cache/document.rs:26-39 | the text becomes the old text with the changes applied in order, each against the text left by the previous one |
| Documents.Document.ApplyIncrementalChange | src/cache/document.rs:42-89 | the text becomes the corrected incremental edit of the old text |
| Documents.StitchLines | src/cache/document.rs:47-81 | the loop-built text is the line-wise construction of the edit |
| Documents.PushLines | src/cache/document.rs:50-53 | the loop appends the lines of an index range, each with its newline |
| Documents.DocumentCache.constructor | src/cache/document.rs:100-104 | a new cache holds no document |
| Documents.DocumentCache.Get | src/cache/document.rs:114-117 | a snapshot exists exactly for a stored uri, and it carries that uri |
| Documents.DocumentCache.Insert | src/cache/document.rs:107-111 | the uri now maps to a document with exactly the given data; every other uri is unchanged |
| Documents.DocumentCache.Update | src/cache/document.rs:120-126 | a stored document takes the new version and the changes; an unknown uri changes nothing; other uris are unchanged |
| Documents.DocumentCache.Remove | src/cache/document.rs:129-132 | the uri is no longer stored; other uris are unchanged |
| Documents.DocumentCache.All | src/cache/document.rs:135-138 | one snapshot per stored document: every stored document is listed and every listed one is stored |
| Ast.Children | src/parser/ast.rs:113-140 | the children a search descends into are all smaller than their parent |
| Ast.KeyIndex | src/parser/ast.rs:35-40 | the first entry with a key, or none exactly when no entry has it |
| Ast.KeyIndexAt | src/parser/ast.rs:35-40 | with distinct keys, an entry's own key finds that entry |
| Ast.Lookup | src/parser/ast.rs:35-40 | a value is found exactly when some entry has the key, and it is that entry's value |
| Ast.LookupDistinct | src/parser/ast.rs:35-40 | with distinct keys, an entry's key finds its own value |
| Ast.LookupOthers | src/parser/ast.rs:35-40 | changing one key's entry leaves every other key's lookup as it was |
| Ast.MapInsert | src/parser/yaml_parser.rs:51-64 | inserting a key makes it map to the new value, leaves every other key's lookup alone, grows the map only for a new key, and keeps keys distinct |
| Ast.Get | src/parser/ast.rs:35-40 | a mapping node's child by key, present exactly when an entry has the key; other nodes have none |
| Ast.AsScalar | src/parser/ast.rs:43-48 | a scalar node's text, and none exactly when the node is not a scalar |
| Ast.ScalarAt | src/parser/ast.rs:35-48 | the text of a scalar child, present exactly when the child exists and is a scalar |
| Ast.NewYamlDocument | src/parser/ast.rs:84-102 | the document's apiVersion and kind are the root's scalar children of those names, when present |
| Ast.OnPathContains | src/parser/ast.rs:113-140 | every node on a search path contains the searched position |
| Ast.OnPathStep | src/parser/ast.rs:113-140 | a path extends through a child that contains the position |
| Ast.FindNodeAtPosition | src/parser/ast.rs:106-108 | no node exactly when the position is outside the root; otherwise an innermost node on a path from the root |
| Ast.FindNodeAtPositionRecursive | src/parser/ast.rs:113-140 | no node exactly outside the node's range; otherwise an innermost node on a path containing the position |
| Ast.FindInChildren | src/parser/ast.rs:120-136 | the loop over the children finds an innermost node below one of them, and nothing exactly when no child contains the position |
| YamlParser.BuildNodeFromValue | src/parser/yaml_parser.rs:21-73 | the node built from a deserialized value is the reference conversion of that value |
| YamlParser.ParseYaml | src/parser/yaml_parser.rs:7-15 | a deserialization error is passed on unchanged; otherwise the document over the converted root |
| YamlParser.EstimatedIsWellFormed | src/parser/yaml_parser.rs:21-73 | a tree with estimated ranges has distinct keys in every mapping |
| YamlParser.BuiltIsEstimated | src/parser/yaml_parser.rs:21-73 | every converted tree has estimated ranges and distinct mapping keys |
| YamlParser.BuiltEntriesEstimated | src/parser/yaml_parser.rs:51-64 | the mapping loop keeps the entries built so far estimated and counts one line per entry |
| YamlParser.EstimatedEntriesStep | src/parser/yaml_parser.rs:51-64 | inserting one more estimated entry keeps the entries estimated |
| YamlParser.BuiltSequenceLines | src/parser/yaml_parser.rs:42-49 | a sequence's items are converted in order, the i-th on the line after the sequence plus i |
| YamlParser.BuiltTagged | src/parser/yaml_parser.rs:66-69 | a tagged value converts to its inner value, on the same line |
| YamlParser.StringKeyed | src/parser/yaml_parser.rs:51-64 | the string-keyed entries of a mapping are no more than its entries |
| YamlParser.StringKeyedKeys | src/parser/yaml_parser.rs:51-64 | every string key kept comes from an entry of the mapping |
| YamlParser.BuiltMappingEntries | src/parser/yaml_parser.rs:51-64 | with distinct keys, a mapping converts to its string-keyed entries in order, each on its own successive line, and non-string keys are dropped |
| YamlParser.BuiltEntriesPrefix | src/parser/yaml_parser.rs:51-64 | after any number of entries, the loop has converted exactly the string-keyed entries seen so far, in order |
| YamlParser.StringKeyedFresh | src/parser/yaml_parser.rs:51-64 | with distinct keys, an entry's key differs from every key kept before it |
| YamlParser.BuiltInOrderStep | src/parser/yaml_parser.rs:51-64 | converting one more entry with a fresh key extends the in-order correspondence by that entry |
| YamlParser.ParentRangeMissesChildren | src/parser/yaml_parser.rs:22-31 | a child's placeholder line is never inside its parent's placeholder range |
| YamlParser.ParsedSearchFindsRoot | src/parser/ast.rs:106-140 | on a parsed document, the position search finds the root or nothing |
| YamlParser.EstimatedPathIsRoot | src/parser/yaml_parser.rs:22-31 | on an estimated tree the only node on a path to a position is the root |
| IndexModel.KeyInjective | src/workspace/index.rs:101 | with names free of "/", equal keys mean equal kind and name |
| IndexModel.SlashBeforeShorterName | src/workspace/index.rs:101 | when two keys are equal, the longer name holds a "/" where the shorter name begins |
| IndexModel.KeyCollision | src/workspace/index.rs:101 | two different kind/name pairs can share a key |
| IndexModel.Retain | src/workspace/index.rs:306-318 | a reference list keeps exactly the references not from the removed document, in order |
| IndexModel.RetainIdempotent | src/workspace/index.rs:306-318 | filtering out a document twice is filtering it once |
| IndexModel.DefinitionsRemovalStep | src/workspace/index.rs:296-303 | each tracked definition key removes its definition; reference keys leave the definitions alone |
| IndexModel.ReferencesRemovalStep | src/workspace/index.rs:306-318 | each tracked reference key filters that key's list; definition keys leave the references alone |
| IndexModel.RemovalStepDrops | src/workspace/index.rs:312-316 | a list left empty by the filter is removed from the map |
| IndexModel.RemovalStepFilters | src/workspace/index.rs:308-311 | a list left non-empty by the filter is replaced by its filtered version |
| IndexModel.RemovalStepKeeps | src/workspace/index.rs:306-318 | a key with no list changes nothing |
| IndexModel.WithReferencesAppend | src/workspace/index.rs:131-268 | adding two runs of references is adding each in turn |
| IndexModel.WithReferencesSingle | src/workspace/index.rs:131-268 | adding a one-element run adds that reference |
| IndexModel.WithReferencesKeepsResources | src/workspace/index.rs:131-268 | adding references never changes the definitions |
| IndexModel.RefsWithKey | src/workspace/index.rs:131-268 | the references of a run with a given key, in order: a reference is kept exactly when its key matches |
| IndexModel.WithReferencesOrder | src/workspace/index.rs:131-268 | after adding a run, a key's list is its old list followed by the run's references with that key, in order |
| IndexModel.WithReferenceRefsAt | src/workspace/index.rs:219-226 | adding one reference appends it to its own key's list and to no other |
| IndexModel.DefinitionOf | src/workspace/index.rs:79-128 | a document defines a resource exactly when it has a kind, a metadata section and a scalar metadata.name; its name, apiVersion and location follow the document |
| IndexModel.TaskRefReference | src/workspace/index.rs:178-226 | a taskRef yields a reference exactly when it has a scalar name; its kind defaults as the caller says |
| IndexModel.TaskItemsReferencesStep | src/workspace/index.rs:163-175 | one more task extends the tasks' references by that task's reference, if any |
| IndexModel.TaskItemsReferencesCount | src/workspace/index.rs:163-175 | there is one reference per task that has a named taskRef |
| IndexModel.TaskItemsReferencesFromTasks | src/workspace/index.rs:163-175 | every reference comes from one of the tasks |
| IndexModel.TaskItemsReferencesCoverTasks | src/workspace/index.rs:163-175 | every task's reference is among the references |
| IndexModel.TaskItemReferenceKind | src/workspace/index.rs:178-226 | a task's reference takes the taskRef's kind, "Task" by default, and the taskRef's name |
| IndexModel.TaskItemsReferencesFromUri | src/workspace/index.rs:163-175 | every task reference is from the indexed document |
| IndexModel.ReferencesOfShape | src/workspace/index.rs:131-142 | only Pipelines and PipelineRuns have references; a PipelineRun's are those of its pipelineRef; all come from the indexed document |
| IndexModel.TaskListReferencesFromUri | src/workspace/index.rs:163-175 | every reference under a tasks list is from the indexed document |
| IndexModel.PipelineReferencesFromUri | src/workspace/index.rs:145-160 | every reference of a Pipeline, from its tasks and its finally tasks, is from the indexed document |
| IndexModel.EmptyIndexInvariant | src/workspace/index.rs:53-59 | the empty index satisfies the tracking invariant |
| IndexModel.RemovedKeepsInvariant | src/workspace/index.rs:285-324 | removing a document keeps the invariant |
| IndexModel.WithDefinitionKeepsInvariant | src/workspace/index.rs:114-127 | adding a definition, tracked under its document, keeps the invariant |
| IndexModel.WithReferenceKeepsInvariant | src/workspace/index.rs:219-226 | adding a reference, tracked under its document, keeps the invariant |
| IndexModel.WithReferencesKeepsInvariant | src/workspace/index.rs:131-268 | adding a run of references keeps the invariant |
| IndexModel.IndexedKeepsInvariant | src/workspace/index.rs:62-76 | indexing a document keeps the invariant |
| IndexModel.RemovedLeavesNoTrace | src/workspace/index.rs:285-324 | after removal, no definition, no reference and no tracking entry of the document is left |
| IndexModel.RemoveUntrackedIsNoOp | src/workspace/index.rs:285-293 | removing a document that was never indexed changes nothing |
| IndexModel.RemoveIdempotent | src/workspace/index.rs:285-324 | removing a document twice is removing it once |
| IndexModel.RemovedKeepsOthers | src/workspace/index.rs:285-324 | removal keeps the definitions the document did not contribute, keeps other lists, filters only the document's lists, and keeps other documents' tracking |
| IndexModel.RemovingOverwrittenDocumentDropsNewerDefinition | src/workspace/index.rs:114-127 | when a later document redefines a key, removing the earlier document drops the later definition too, because both track the key |
| IndexModel.IndexedDefinitionFound | src/workspace/index.rs:62-128 | after indexing, the document's own definition is found under its key, and only a document without one adds none |
| IndexModel.IndexedReferencesOrder | src/workspace/index.rs:62-76 | after indexing, a key's list is the list left by the removal followed by the document's references with that key |
| IndexModel.ReindexForgetsOldContent | src/workspace/index.rs:62-76 | re-indexing a document replaces whatever it contributed before |
| IndexModel.FoundDefinitionMatches | src/workspace/index.rs:271-275 | with names free of "/", a definition found by kind and name has that kind and name |
| IndexModel.RefPrefixedDefinitionSurvivesAsWritten | src/workspace/index.rs:296-303 | as written, a definition of kind "ref:Task" is mistaken for a reference key and never removed |
| Workspace.WorkspaceIndex.constructor | src/workspace/index.rs:53-59 | a new index is empty and valid |
| Workspace.WorkspaceIndex.IndexDocument | src/workspace/index.rs:62-76 | the document's old contributions are removed; a parse error is returned and leaves only the removal; otherwise the document is indexed; validity is kept |
| Workspace.WorkspaceIndex.IndexResourceDefinition | src/workspace/index.rs:79-128 | the document's definition, if any, is stored under its key and tracked under its document |
| Workspace.WorkspaceIndex.IndexReferences | src/workspace/index.rs:131-142 | the document's references are added in order |
| Workspace.WorkspaceIndex.IndexPipelineReferences | src/workspace/index.rs:145-160 | the references of the tasks, then the finally tasks, are added in order |
| Workspace.WorkspaceIndex.IndexPipelineTasks | src/workspace/index.rs:163-175 | the tasks' references are added in task order |
| Workspace.WorkspaceIndex.IndexTask | src/workspace/index.rs:163-175 | one task's reference, if it has one, is added |
| Workspace.WorkspaceIndex.IndexTaskRef | src/workspace/index.rs:178-226 | a named taskRef adds its reference; any other is ignored |
| Workspace.WorkspaceIndex.IndexPipelineRunReferences | src/workspace/index.rs:229-268 | a PipelineRun's pipelineRef, when named, adds a Pipeline reference |
| Workspace.WorkspaceIndex.AddReference | src/workspace/index.rs:219-226 | the reference is appended to its key's list and its key tracked under its document |
| Workspace.WorkspaceIndex.FindResource | src/workspace/index.rs:271-275 | the definition stored under the kind and name's key, if any |
| Workspace.WorkspaceIndex.FindReferences | src/workspace/index.rs:278-282 | the key's references in insertion order, and empty exactly when the key has no list |
| Workspace.WorkspaceIndex.RemoveDocument | src/workspace/index.rs:285-324 | the state becomes the removal of the document, and validity is kept |
| Workspace.WorkspaceIndex.AllResources | src/workspace/index.rs:328-331 | exactly the stored definitions, one per key |
| Workspace.RemoveDefinitions | src/workspace/index.rs:296-303 | the loop removes exactly the tracked definition keys |
| Workspace.RemoveReferences | src/workspace/index.rs:306-318 | the loop filters exactly the tracked reference lists, dropping the ones left empty |
| Definition.InRange | src/definition/provider.rs:111-122 | the provider's early-return range test agrees with the shared one |
| Definition.SiteContext | src/definition/provider.rs:51-84 | a node names a reference exactly when it is a taskRef or pipelineRef whose scalar name contains the position; a taskRef's kind defaults to "Task", a pipelineRef's is "Pipeline" |
| Definition.FindReferenceContext | src/definition/provider.rs:41-109 | nothing outside the node; the node's own reference first; otherwise a reference named by some node on a path to the position, and none only when no such node names one |
| Definition.ContextInChildren | src/definition/provider.rs:87-104 | the loop over the children finds a reference below one of them, or none when no node below them names one |
| Definition.ProvideDefinition | src/definition/provider.rs:26-38 | a location exactly when the reference under the cursor has an indexed definition, and then that definition's location |
| Definition.ProvidedDefinitionMatches | src/definition/provider.rs:26-38 | with names free of "/", the definition found has the kind and name referred to |
| Definition.ParsedDocumentHasNoReferenceContext | src/definition/provider.rs:41-109 | on a parsed document no position is on a reference |
| Hover.FindNodeWithKey | src/hover/provider.rs:36-71 | nothing exactly outside the node; otherwise an innermost node on a path to the position, paired with its own key |
| Hover.KeyedInChildren | src/hover/provider.rs:46-66 | the loop over the children finds an innermost node below one of them, and nothing exactly when no child contains the position |
| Hover.FirstDocumented | src/hover/provider.rs:74-111 | the documentation of the first documented name, and none exactly when no name is documented |
| Hover.GetHoverDocumentation | src/hover/provider.rs:74-111 | the chain of lookups finds the first documented name among the key, the scalar value, the node's key and the document's kind |
| Hover.FirstDocumentedAppend | src/hover/provider.rs:74-111 | the first documented name of two lists is the first list's, if it has one, else the second's |
| Hover.HoverLookupOrder | src/hover/provider.rs:74-111 | the key wins over the scalar value, which wins over the node's key, which wins over the document kind, the last one only for the key "kind" |
| Hover.ProvideHover | src/hover/provider.rs:19-33 | a hover exactly when the found node has documentation: Markdown over that node's range, which contains the position |
| Hover.ParsedHoverUsesRootScalar | src/hover/provider.rs:19-71 | on a parsed document only the root's scalar value can be documented |
| Schemas.Names | src/completion/schemas.rs:34-211 | the names of a field table, one per field, in order |
| Schemas.RequiredNames | src/completion/schemas.rs:34-211 | a name is listed exactly when some field of that name is required |
| Schemas.MetadataFieldsTable | src/completion/schemas.rs:37-62 | the metadata fields are name, namespace, labels and annotations; only name is required |
| Schemas.PipelineSpecFieldsTable | src/completion/schemas.rs:63-94 | the pipeline spec fields and their names; only tasks is required |
| Schemas.PipelineTaskFieldsTable | src/completion/schemas.rs:95-132 | the pipeline task fields and their names; only name is required |
| Schemas.TaskSpecFieldsTable | src/completion/schemas.rs:133-164 | the task spec fields and their names; only steps is required |
| Schemas.StepFieldsTable | src/completion/schemas.rs:165-211 | the step fields and their names; name and image are required |
| Schemas.SpecFieldsAreArrays | src/completion/schemas.rs:63-164 | every field of the pipeline spec and task spec tables has the array type |
| Schemas.MetadataNamesDistinct | src/completion/schemas.rs:37-62 | no field name occurs twice in the metadata table |
| Schemas.PipelineSpecNamesDistinct | src/completion/schemas.rs:63-94 | no field name occurs twice in the pipeline spec table |
| Schemas.PipelineTaskNamesDistinct | src/completion/schemas.rs:95-132 | no field name occurs twice in the pipeline task table |
| Schemas.TaskSpecNamesDistinct | src/completion/schemas.rs:133-164 | no field name occurs twice in the task spec table |
| Schemas.StepNamesDistinct | src/completion/schemas.rs:165-211 | no field name occurs twice in the step table |
| Schemas.SchemaNamesDistinct | src/completion/schemas.rs:34-211 | no table names a field twice |
| Completion.ListContext | src/completion/provider.rs:69-70 | tasks and finally hold pipeline tasks, steps holds steps, any other key gives nothing |
| Completion.SpecEntryContext | src/completion/provider.rs:64-75 | the context of some list entry of the spec that contains the position, or Unknown exactly when none gives one |
| Completion.KeyContext | src/completion/provider.rs:56-96 | the context a node's key gives: metadata, list contexts, and for spec the list under the cursor or else the Pipeline or Task spec; Unknown for other keys |
| Completion.FindCompletionContext | src/completion/provider.rs:44-116 | Unknown outside the node; the node's own context first; otherwise the context of some node on a path to the position, and Unknown only when none gives one |
| Completion.ContextInChildren | src/completion/provider.rs:98-113 | the loop over the children returns some context found below one of them, or Unknown when none is found |
| Completion.GetFieldsForContext | src/completion/provider.rs:131-144 | each context's own schema table, and an empty one exactly for Unknown |
| Completion.FieldToCompletionItem | src/completion/provider.rs:146-163 | labelled by the field's name and detailed by its description; strings complete as fields, objects as structs, arrays and booleans as values |
| Completion.ProvideCompletions | src/completion/provider.rs:21-37 | one item per field of the context's table, in table order |
| Completion.CompletionLabelsDistinct | src/completion/provider.rs:21-37 | no label is offered twice |
| Completion.ParsedDocumentGetsNoCompletions | src/completion/provider.rs:44-116 | a parsed document gets no completions |
| Symbols.ResourceKindToSymbolKind | src/symbols/provider.rs:56-63 | Pipeline, Task and ClusterTask are classes, the runs objects, the trigger kinds interfaces, anything else a file |
| Symbols.GetResourceName | src/symbols/provider.rs:48-53 | the scalar metadata name, present exactly when there is one |
| Symbols.ItemSymbols | src/symbols/provider.rs:241-280 | one symbol per item, in order, named by the item's scalar name or "unnamed", over the item's range, with no children |
| Symbols.ArraySymbolShape | src/symbols/provider.rs:241-280 | an array symbol is named with its item count, lists its items in order, and has no children exactly when there are none |
| Symbols.PresentFields | src/symbols/provider.rs:93-213 | the fields of a table that the spec node has |
| Symbols.FieldSymbolsFollowTable | src/symbols/provider.rs:93-213 | the spec's children are one symbol per present field, in table order, each over that field's node and named after it |
| Symbols.FieldSymbolOverField | src/symbols/provider.rs:93-213 | a field contributes its own symbol exactly when the spec has it |
| Symbols.SymbolsOverFieldsAppend | src/symbols/provider.rs:93-213 | the field correspondence holds for two runs of fields together |
| Symbols.OtherKindsHaveNoSpecChildren | src/symbols/provider.rs:67-89 | a kind without an outline gets an empty spec section |
| Symbols.ResourceChildrenOrder | src/symbols/provider.rs:67-89 | the root's children are metadata then spec, each exactly when present |
| Symbols.RootSymbolShape | src/symbols/provider.rs:19-45 | the root symbol is "Kind: name", the kind defaulting to "Unknown" and the name to the kind, detailed by the apiVersion, over the root's range |
| Symbols.CreateArraySymbolWithKind | src/symbols/provider.rs:241-280 | the loop builds the array symbol of the node |
| Symbols.PushField | src/symbols/provider.rs:93-213 | a present field's array or section symbol is pushed; an absent one pushes nothing |
| Symbols.AddPipelineSpecChildren | src/symbols/provider.rs:93-128 | the pipeline spec table's symbols are appended in order |
| Symbols.AddTaskSpecChildren | src/symbols/provider.rs:132-167 | the task spec table's symbols are appended in order |
| Symbols.AddPipelineRunSpecChildren | src/symbols/provider.rs:171-190 | the pipeline run table's symbols are appended in order |
| Symbols.AddTaskRunSpecChildren | src/symbols/provider.rs:194-213 | the task run table's symbols are appended in order |
| Symbols.AddSpecChildren | src/symbols/provider.rs:76-85 | the kind's own table of spec children is appended |
| Symbols.AddResourceChildren | src/symbols/provider.rs:67-89 | the metadata and spec sections are appended as the outline describes |
| Symbols.ProvideSymbols | src/symbols/provider.rs:19-45 | exactly one symbol, the root symbol |
| Actions.AfterPrefix | src/actions/provider.rs:142-143 | the text after the first occurrence of the prefix, and none exactly when the prefix is absent |
| Actions.ExtractFieldName | src/actions/provider.rs:140-151 | the text between the first two quotes after the prefix; none when the prefix is missing or two quotes do not follow it |
| Actions.QuotedName | src/actions/provider.rs:146-150 | the text between the first two quotes, present exactly when there are two |
| Actions.NoSecondQuote | src/actions/provider.rs:146-150 | a text with no quote after its first one has no two quotes |
| Actions.QuotedAtFacts | src/actions/provider.rs:146-150 | no quote comes before the first one or inside the quoted text |
| Actions.FirstQuotedUnique | src/actions/provider.rs:140-151 | a text has at most one first quoted name, so the extraction's contract fixes its result |
| Actions.ExtractFieldNameRoundTrip | src/actions/provider.rs:140-151 | a message of the form the fixes expect gives back the quoted field name |
| Actions.FieldTemplate | src/actions/provider.rs:154-164 | every template ends in a newline, and an unlisted field gets an indented key with an empty value |
| Actions.TemplateDeclaresField | src/actions/provider.rs:154-164 | every template declares its field as a key |
| Actions.InsertAfter | src/actions/provider.rs:64-75 | an empty range at the start of the line after the diagnostic, holding the text |
| Actions.DeleteLine | src/actions/provider.rs:105-118 | the range from the start of the diagnostic's first line to the start of the next, replaced by nothing |
| Actions.AddFieldAction | src/actions/provider.rs:54-94 | an action exactly when a field name is extracted: an "Add missing field" quick fix for the diagnostic that inserts the template after it |
| Actions.RemoveFieldAction | src/actions/provider.rs:97-137 | an action exactly when a field name is extracted: a "Remove unknown field" quick fix that deletes the diagnostic's line |
| Actions.ActionFor | src/actions/provider.rs:37-51 | a missing-field message gets only the add action, an unknown-field message the remove action, any other none |
| Actions.ActionForShape | src/actions/provider.rs:37-51 | every action resolves its own diagnostic with one quick-fix edit to the given document |
| Actions.ActionItems | src/actions/provider.rs:20-34 | an action becomes one code-action item, and no action none |
| Actions.ProvideActions | src/actions/provider.rs:20-34 | the loop collects the diagnostics' actions in diagnostic order |
| Actions.ActionsForAppend | src/actions/provider.rs:20-34 | the actions of two runs of diagnostics are those of each, in order |
| Actions.ActionsForSingle | src/actions/provider.rs:20-34 | a single diagnostic contributes its own action, if any |
| Actions.ActionsForAtMostOnePerDiagnostic | src/actions/provider.rs:20-34 | there are never more actions than diagnostics |
| Actions.ActionsForFrom | src/actions/provider.rs:20-34 | every action is the action of one of the diagnostics |
| Actions.ActionsForSound | src/actions/provider.rs:20-34 | every action is a quick fix for one of the diagnostics, editing the given document only |
| Actions.ActionsForSplit | src/actions/provider.rs:20-34 | the answer splits at any diagnostic into the actions before it, its own and those after it |
| Actions.ActionsForComplete | src/actions/provider.rs:20-34 | every diagnostic with an action has it in the answer, in its place |
| Actions.UnrecognisedMessagesGetNoActions | src/actions/provider.rs:37-51 | diagnostics about neither missing nor unknown fields get no actions |
| Actions.InsertAfterPutsTextAtLineStart | src/actions/provider.rs:64-75 | the add edit puts its text at the start of the line after the diagnostic and keeps the rest of the document (for a text without carriage returns) |
| Actions.LineStartFollowsNewline | src/actions/provider.rs:64-75 | a line's first character is the document's start or follows a newline (for a text without carriage returns) |
| Actions.JoinedLineSpan | src/actions/provider.rs:105-118 | in joined lines, a line and its newline start where the lines before it end |
| Actions.NextLineStart | src/actions/provider.rs:105-118 | the next line starts just past a line and its newline |
| Actions.LineSpanIn | src/actions/provider.rs:105-118 | the text between two line starts is the first line and its newline |
| Actions.LineSpan | src/actions/provider.rs:105-118 | the text between a line's start and the next line's start is that line and its newline (for a text without carriage returns) |
| Actions.DeleteLineRemovesTheLine | src/actions/provider.rs:97-137 | the remove edit deletes exactly the diagnostic's first line and its newline (for a text without carriage returns) |
| Validator.ErrorAt | src/validator/tekton.rs:20-35 | every diagnostic is an error from the server, at the given range with the given message |
| Validator.Validate | src/validator/tekton.rs:16-43 | the diagnostics are the name error, if any, then a Pipeline's tasks error, if any |
| Validator.ValidatePipeline | src/validator/tekton.rs:46-86 | the given diagnostics followed by the tasks error, if any |
| Validator.DiagnosticsBounded | src/validator/tekton.rs:16-86 | at most two diagnostics, all errors from the server |
| Validator.MissingNameReported | src/validator/tekton.rs:20-35 | the name error is reported exactly when metadata lacks a name, first and at the metadata node |
| Validator.PipelineMessages | src/validator/tekton.rs:46-86 | at most one tasks diagnostic, with one of the two tasks messages |
| Validator.OnlyPipelinesCheckTasks | src/validator/tekton.rs:38-40 | other kinds get at most the name error |
| Validator.EmptyTasksReported | src/validator/tekton.rs:53-67 | a Pipeline's empty task list is reported at the tasks node, after any name error |
| Validator.NonSequenceTasksReported | src/validator/tekton.rs:69-82 | a Pipeline's tasks that are not a sequence are reported at the tasks node |
| Validator.WellFormedTasksNotReported | src/validator/tekton.rs:46-86 | a missing spec, missing tasks or a non-empty task list gets no tasks diagnostic |
| Validator.DiagnosticMessages | src/validator/tekton.rs:16-86 | every diagnostic carries one of the three messages |
| Validator.DiagnosticsGetNoQuickFixes | src/actions/provider.rs:37-51 | none of the validator's diagnostics gets a quick fix |

## Left out

- The LSP server loop, JSON-RPC transport and `main` (`src/server.rs`, `src/main.rs`): I/O. The operations they call are modelled.
- Formatting (`src/formatting/`): it is not part of this model.
- The hover documentation prose (`src/hover/docs.rs`): it is a parameter `docs` mapping names to text, because only its lookup behaviour matters.
- YAML deserialization (serde_yaml): a foreign call. It becomes a parameter `Result<YamlValue, string>`. Numbers arrive with their text, since float and integer formatting is foreign.
- Concurrency (`Arc<RwLock<…>>` around the cache and index): the model is single-threaded.
- URL parsing: URIs are plain strings.
- Integer widths: lines and characters are unbounded `nat`s. The u32 overflow of `line + 1` is not modelled.
- Character units: columns count Rust `char`s. The UTF-16 code units of the protocol are not modelled.
- The unit tests are not modelled. Where a test disagrees with the code, the model follows the code (see the validator note above).
- Documents.Document.ApplyIncrementalChange: the change's `range_length` is ignored, as the source ignores it.
- Documents.Document.ApplyIncrementalChange: runs the corrected final-newline step of the Findings section, not the source's. The two differ exactly when the old text has no final newline, the stitched text ends in one, and the stitching did not add it (`Documents.CorrectionDiffersExactly`); the source then removes that newline and the model keeps it. Examples: "" with "\n" inserted at (0,0)-(0,0) gives "\n" (the source gives ""); "a" with (0,0)-(1,0) replaced by "b\n" gives "b\n" (the source gives "b"); "a\nb" with (1,0)-(2,0) replaced by "" gives "a\n" (the source gives "a").
- Documents.Document.ApplyChanges: applies each incremental change with the corrected step of `Documents.Document.ApplyIncrementalChange`, so it differs from the source under the same condition.
- Documents.DocumentCache.Update: applies the changes through `Documents.Document.ApplyChanges`, so it differs from the source under the same condition.
- Workspace.WorkspaceIndex.RemoveDocument: runs the corrected removal of the Findings section, which tracks definition and reference keys as distinct variants. A document defining kind "ref:Task", name "build" loses its definition "ref:Task/build" here; the source keeps it.
- Workspace.WorkspaceIndex.IndexDocument: removes the document's old contributions with the corrected `Workspace.WorkspaceIndex.RemoveDocument`, so re-indexing that document deletes "ref:Task/build" where the source keeps it.
- Actions.ActionItems: only the code-action variant of the answer type is modelled, since the server never answers with a command.
- Symbols.CreateSectionSymbol and Symbols.GetNameFromNode: plain helper functions with no contract of their own. Their results are stated through ArraySymbolShape, ItemSymbols and ResourceChildrenOrder.
- Validator.MissingNameMessage: the message constant is written as a concatenation of three literals. It is the same string as the source's.
- Actions.FieldTemplate: the fixed templates are written as concatenations. They are the same strings as the source's.
- TextLines.LinesRoundTrip: proved only for texts without carriage returns; a "\r\n" comes back as "\n" (`TextLines.JoinedLinesDropCarriageReturn`).
- TextLines.ContentIsPrefixOfJoined: proved only for texts without carriage returns, for the same reason.
- Documents.LinesJoinedPrefix: proved only for texts without carriage returns, for the same reason.
- Documents.OffsetInContent: proved only for texts without carriage returns, whose offsets count the dropped `'\r'`s otherwise.
- Documents.ApplyRangeSplices: proved only for texts without carriage returns; an edit of a text with "\r\n" line endings is not the splice, as it rewrites them to "\n" (`Documents.CarriageReturnDroppedByInsert`).
- Documents.ReplaceByCoveredTextIsIdentity: proved only for texts without carriage returns; "a\r\nb" becomes "a\nb" (`Documents.CarriageReturnDroppedByEmptyEdit`).
- Documents.EditPastLastLineAppends: proved only for texts without carriage returns, which the edit rewrites otherwise.
- Documents.EditToPastLastLineTruncates: proved only for texts without carriage returns, which the edit rewrites otherwise.
- Actions.InsertAfterPutsTextAtLineStart: proved only for texts without carriage returns, which the edit rewrites otherwise.
- Actions.LineStartFollowsNewline: proved only for texts without carriage returns, whose line starts it locates through the lines.
- Actions.LineSpan: proved only for texts without carriage returns, where a line's span would also hold its `'\r'`.
- Actions.DeleteLineRemovesTheLine: proved only for texts without carriage returns, and only when the line after the diagnostic's line is addressable. On a last line without a final newline, the corrected edit leaves the newline before it, which the source removes (`Documents.DocumentNewlineLostAsWritten`).
- Reference definitions. The functions below model the cited source lines but have no contract of their own. Their properties are stated by the lemmas and methods of the table:
  - Documents.Stitch, Documents.StitchHead, Documents.StitchTail (`src/cache/document.rs:47-81`): by StitchHeadEq, StitchTailEq, StitchHeadPastEnd, StitchTailPastEnd and the method StitchLines.
  - Documents.ApplyRangeAsWritten (`src/cache/document.rs:42-89`): by EmptyDocumentNewlineLostAsWritten, PastEndNewlineLostAsWritten, DocumentNewlineLostAsWritten and CorrectionDiffersExactly.
  - Documents.ApplyRange, Documents.AddsNewline, Documents.DropAddedNewline (`src/cache/document.rs:42-89`, corrected at 84-86): by StitchSplices, ApplyRangeSplices, EditPastLastLineAppends, EditToPastLastLineTruncates, EmptyDocumentTakesText and CorrectionDiffersExactly.
  - Documents.ApplyChange, Documents.ApplyAll (`src/cache/document.rs:26-39`): by ApplyAllAppend, WholeTextChangeSupersedes and the method Document.ApplyChanges.
  - Documents.Offset, Documents.OffsetIn, Documents.LineInDocument (the protocol's line/character positions): by OffsetInContent, HeadPiece and TailPiece.
  - YamlParser.Built, YamlParser.BuiltEntries (`src/parser/yaml_parser.rs:21-73`): by BuildNodeFromValue, BuiltIsEstimated, BuiltSequenceLines, BuiltTagged, BuiltMappingEntries and BuiltEntriesPrefix.
  - IndexModel.Removed, IndexModel.DefinitionsAfterRemoval, IndexModel.ReferencesAfterRemoval (`src/workspace/index.rs:285-324`): by RemovedLeavesNoTrace, RemovedKeepsInvariant, RemoveIdempotent, RemovedKeepsOthers, the removal-step lemmas and the methods RemoveDefinitions and RemoveReferences.
  - IndexModel.Indexed, IndexModel.WithDefinition, IndexModel.WithReference, IndexModel.WithReferences (`src/workspace/index.rs:62-128`, `src/workspace/index.rs:219-226`): by IndexedKeepsInvariant, IndexedDefinitionFound, IndexedReferencesOrder, ReindexForgetsOldContent, WithReferencesOrder and WithReferenceRefsAt.
  - IndexModel.ReferencesOf, IndexModel.PipelineReferences, IndexModel.PipelineRunReferences, IndexModel.TaskListReferences, IndexModel.TaskItemsReferences, IndexModel.TaskItemReference (`src/workspace/index.rs:131-268`): by ReferencesOfShape, PipelineReferencesFromUri, TaskListReferencesFromUri, the TaskItemsReferences lemmas and TaskItemReferenceKind.
  - IndexModel.EncodeTracked, IndexModel.DeletedDefinitionsAsWritten (`src/workspace/index.rs:296-303`, as written): by RefPrefixedDefinitionSurvivesAsWritten.
  - Symbols.RootSymbol, Symbols.ResourceChildren, Symbols.SpecSymbol, Symbols.SpecFields, Symbols.FieldSymbols, Symbols.FieldSymbol, Symbols.ArraySymbol, Symbols.ItemSymbol (`src/symbols/provider.rs:19-280`): by RootSymbolShape, ResourceChildrenOrder, OtherKindsHaveNoSpecChildren, FieldSymbolsFollowTable, FieldSymbolOverField, ArraySymbolShape, ItemSymbols and the methods that build them.
  - Validator.Diagnostics, Validator.NameDiagnostics, Validator.PipelineDiagnostics (`src/validator/tekton.rs:16-86`): by Validate, DiagnosticsBounded, MissingNameReported, PipelineMessages and the other validator lemmas.
  - Actions.ActionsFor (`src/actions/provider.rs:20-34`): by ProvideActions, ActionsForSound, ActionsForComplete and the other ActionsFor lemmas.
  - Hover.HoverCandidates (`src/hover/provider.rs:74-111`): by GetHoverDocumentation and HoverLookupOrder.

## Findings

| source | as written | input that shows it | evidently intended | confidence | as-written member | corrected member |
|---|---|---|---|---|---|---|
| src/cache/document.rs:84-86 | the final newline is popped whenever the old text had none and the new one has one, even when that newline came from the inserted text | an empty document, range (0,0)-(0,0), text "\n": the result is "" | remove only the newline the line-wise rebuild added after a non-empty last line without one | not executed | Documents.EmptyDocumentNewlineLostAsWritten | Documents.EmptyDocumentTakesText |
| src/cache/document.rs:84-86 | the same pop removes the document's own newline when the range from a line start runs past the last line and nothing is inserted | the document "a\nb", range (1,0)-(2,0), text "": the result is "a" | delete the last line, keeping the newline before it | not executed | Documents.DocumentNewlineLostAsWritten | Documents.EditToPastLastLineTruncates |
| src/cache/document.rs:84-86 | the same pop also removes the inserted text's own final newline when the range ends past the last line | the document "a", range (0,0)-(1,0), text "b\n": the result is "b" | replace everything from the start by the new text, keeping its newline | not executed | Documents.PastEndNewlineLostAsWritten | Documents.EditToPastLastLineTruncates |
| src/workspace/index.rs:224, src/workspace/index.rs:299 | reference keys are tracked under a "ref:" prefix, and removal takes every tracked string with that prefix for a reference key | a document defining kind "ref:Task", name "build": its definition key "ref:Task/build" is never deleted | track definition and reference keys as distinct variants so that removal deletes every definition the document contributed | not executed | IndexModel.RefPrefixedDefinitionSurvivesAsWritten | IndexModel.RemovedLeavesNoTrace |

/** The workspace index's state as a value, and what each of its operations
    does to it: the definitions by "Kind/Name" key, the ordered references by
    key, and for each document the keys it contributed. The class in module
    `Workspace` is proved to follow these functions. */
module IndexModel {
  import opened Wrappers
  import opened Lsp
  import opened Strings
  import opened Ast
  import opened Seqs

  datatype ResourceDefinition = ResourceDefinition(
    uri: Uri, kind: string, name: string, apiVersion: Option<string>, location: Location)

  datatype ResourceReference = ResourceReference(
    uri: Uri, refKind: string, refName: string, location: Location)

  /** A key a document contributed, marked as a definition's or a reference
      list's. */
  datatype TrackedKey = DefinitionKey(key: string) | ReferenceKey(key: string)

  datatype IndexState = IndexState(
    resources: map<string, ResourceDefinition>,
    references: map<string, seq<ResourceReference>>,
    documentResources: map<Uri, seq<TrackedKey>>)

  /** The lookup key of a kind and a name: the kind, a slash, the name. */
  function Key(kind: string, name: string): string {
    kind + "/" + name
  }

  /** The key determines kind and name as long as names contain no '/'
      (Kubernetes names never do). */
  lemma KeyInjective(k1: string, n1: string, k2: string, n2: string)
    requires '/' !in n1 && '/' !in n2
    requires Key(k1, n1) == Key(k2, n2)
    ensures k1 == k2 && n1 == n2
  {
    var s := Key(k1, n1);
    if |n1| < |n2| {
      SlashBeforeShorterName(k1, n1, k2, n2);
      assert false;
    } else if |n2| < |n1| {
      SlashBeforeShorterName(k2, n2, k1, n1);
      assert false;
    } else {
      assert n1 == s[|s| - |n1|..] == n2;
      assert k1 == s[..|s| - |n1| - 1] == k2;
    }
  }

  /** Read from the end, a key's separator sits right before its name. */
  lemma SlashBeforeShorterName(k1: string, n1: string, k2: string, n2: string)
    requires Key(k1, n1) == Key(k2, n2)
    requires |n1| < |n2|
    ensures n2[|n2| - |n1| - 1] == '/'
  {
    var s := Key(k1, n1);
    assert s[|s| - |n1| - 1] == '/';
    assert n2[|n2| - |n1| - 1] == s[|s| - |n1| - 1];
  }

  /** Without that condition two distinct pairs share a key. */
  lemma KeyCollision()
    ensures Key("a/b", "c") == Key("a", "b/c")
  {
  }

  /** The keys tracked for `uri`, none when it is not tracked. */
  function Tracked(st: IndexState, uri: Uri): seq<TrackedKey> {
    if uri in st.documentResources then st.documentResources[uri] else []
  }

  /** `find_references`: the list under the key, empty for an unknown key. */
  function RefsAt(st: IndexState, key: string): seq<ResourceReference> {
    if key in st.references then st.references[key] else []
  }

  /** `Vec::retain(|r| r.uri != uri)`: the entries of other documents, in order. */
  function Retain(refs: seq<ResourceReference>, uri: Uri): (r: seq<ResourceReference>)
    ensures forall x :: x in r <==> x in refs && x.uri != uri
    ensures |r| <= |refs|
  {
    if refs == [] then []
    else (if refs[0].uri != uri then [refs[0]] else []) + Retain(refs[1..], uri)
  }

  lemma {:induction false} RetainIdempotent(refs: seq<ResourceReference>, uri: Uri)
    ensures Retain(Retain(refs, uri), uri) == Retain(refs, uri)
  {
    if refs != [] {
      RetainIdempotent(refs[1..], uri);
      var tail := Retain(refs[1..], uri);
      if refs[0].uri != uri {
        assert ([refs[0]] + tail)[1..] == tail;
      } else {
        assert [] + tail == tail;
      }
    }
  }

  /** The definitions left once the definition keys in `tracked` are deleted. */
  function DefinitionsAfterRemoval(resources: map<string, ResourceDefinition>, tracked: seq<TrackedKey>)
    : map<string, ResourceDefinition>
  {
    map k | k in resources && DefinitionKey(k) !in tracked :: resources[k]
  }

  /** The reference lists left once, for each reference key in `tracked`, the
      entries of `uri` are dropped and an emptied list is deleted. */
  function ReferencesAfterRemoval(references: map<string, seq<ResourceReference>>, uri: Uri, tracked: seq<TrackedKey>)
    : map<string, seq<ResourceReference>>
  {
    map k | k in references && (ReferenceKey(k) !in tracked || Retain(references[k], uri) != [])
      :: if ReferenceKey(k) in tracked then Retain(references[k], uri) else references[k]
  }

  /** One tracked key handled by the definition pass of the removal. */
  lemma DefinitionsRemovalStep(resources: map<string, ResourceDefinition>, tracked: seq<TrackedKey>, t: TrackedKey)
    ensures DefinitionsAfterRemoval(resources, tracked + [t]) ==
      match t
      case DefinitionKey(k) => DefinitionsAfterRemoval(resources, tracked) - {k}
      case ReferenceKey(_) => DefinitionsAfterRemoval(resources, tracked)
  {
  }

  /** One tracked key handled by the reference pass of the removal: the list
      under a reference key loses the document's entries and goes when empty. */
  lemma ReferencesRemovalStep(references: map<string, seq<ResourceReference>>, uri: Uri, tracked: seq<TrackedKey>, t: TrackedKey)
    ensures var cur := ReferencesAfterRemoval(references, uri, tracked);
      var next := ReferencesAfterRemoval(references, uri, tracked + [t]);
      if t.ReferenceKey? && t.key in cur then
        (if Retain(cur[t.key], uri) == [] then next == cur - {t.key}
         else next == cur[t.key := Retain(cur[t.key], uri)])
      else next == cur
  {
    var cur := ReferencesAfterRemoval(references, uri, tracked);
    if t.ReferenceKey? && t.key in cur {
      RetainIdempotent(references[t.key], uri);
      if Retain(cur[t.key], uri) == [] {
        RemovalStepDrops(references, uri, tracked, t.key);
      } else {
        RemovalStepFilters(references, uri, tracked, t.key);
      }
    } else {
      RemovalStepKeeps(references, uri, tracked, t);
    }
  }

  lemma RemovalStepDrops(references: map<string, seq<ResourceReference>>, uri: Uri, tracked: seq<TrackedKey>, k: string)
    requires k in references && Retain(references[k], uri) == []
    ensures ReferencesAfterRemoval(references, uri, tracked + [ReferenceKey(k)])
         == ReferencesAfterRemoval(references, uri, tracked) - {k}
  {
    var cur := ReferencesAfterRemoval(references, uri, tracked);
    var next := ReferencesAfterRemoval(references, uri, tracked + [ReferenceKey(k)]);
    forall x | x != k
      ensures ReferenceKey(x) in tracked + [ReferenceKey(k)] <==> ReferenceKey(x) in tracked
    {
    }
    assert next.Keys == cur.Keys - {k};
  }

  lemma RemovalStepFilters(references: map<string, seq<ResourceReference>>, uri: Uri, tracked: seq<TrackedKey>, k: string)
    requires k in references && Retain(references[k], uri) != []
    ensures ReferencesAfterRemoval(references, uri, tracked + [ReferenceKey(k)])
         == ReferencesAfterRemoval(references, uri, tracked)[k := Retain(references[k], uri)]
  {
    var cur := ReferencesAfterRemoval(references, uri, tracked);
    var next := ReferencesAfterRemoval(references, uri, tracked + [ReferenceKey(k)]);
    var expected := cur[k := Retain(references[k], uri)];
    assert ReferenceKey(k) in tracked + [ReferenceKey(k)];
    forall x | x != k
      ensures ReferenceKey(x) in tracked + [ReferenceKey(k)] <==> ReferenceKey(x) in tracked
    {
    }
    assert next.Keys == expected.Keys;
    forall x | x in next ensures next[x] == expected[x] {
    }
  }

  lemma RemovalStepKeeps(references: map<string, seq<ResourceReference>>, uri: Uri, tracked: seq<TrackedKey>, t: TrackedKey)
    requires !(t.ReferenceKey? && t.key in ReferencesAfterRemoval(references, uri, tracked))
    ensures ReferencesAfterRemoval(references, uri, tracked + [t]) == ReferencesAfterRemoval(references, uri, tracked)
  {
    var cur := ReferencesAfterRemoval(references, uri, tracked);
    var next := ReferencesAfterRemoval(references, uri, tracked + [t]);
    forall x | t != ReferenceKey(x)
      ensures ReferenceKey(x) in tracked + [t] <==> ReferenceKey(x) in tracked
    {
    }
    assert next.Keys == cur.Keys;
  }

  /** `remove_document`. */
  function Removed(st: IndexState, uri: Uri): IndexState {
    var tracked := Tracked(st, uri);
    IndexState(
      DefinitionsAfterRemoval(st.resources, tracked),
      ReferencesAfterRemoval(st.references, uri, tracked),
      st.documentResources - {uri})
  }

  /** A definition recorded, the key tracked for its document. */
  function WithDefinition(st: IndexState, d: ResourceDefinition): IndexState {
    var key := Key(d.kind, d.name);
    st.(resources := st.resources[key := d],
        documentResources := st.documentResources[d.uri := Tracked(st, d.uri) + [DefinitionKey(key)]])
  }

  /** A reference appended to its key's list, the key tracked for its document. */
  function WithReference(st: IndexState, r: ResourceReference): IndexState {
    var key := Key(r.refKind, r.refName);
    st.(references := st.references[key := RefsAt(st, key) + [r]],
        documentResources := st.documentResources[r.uri := Tracked(st, r.uri) + [ReferenceKey(key)]])
  }

  /** References recorded one after another. */
  function WithReferences(st: IndexState, refs: seq<ResourceReference>): IndexState
    decreases |refs|
  {
    if refs == [] then st else WithReferences(WithReference(st, refs[0]), refs[1..])
  }

  lemma {:induction false} WithReferencesAppend(st: IndexState, a: seq<ResourceReference>, b: seq<ResourceReference>)
    ensures WithReferences(st, a + b) == WithReferences(WithReferences(st, a), b)
    decreases |a|
  {
    if a == [] {
      assert a + b == b;
    } else {
      assert (a + b)[1..] == a[1..] + b;
      WithReferencesAppend(WithReference(st, a[0]), a[1..], b);
    }
  }

  lemma WithReferencesSingle(st: IndexState, r: ResourceReference)
    ensures WithReferences(st, [r]) == WithReference(st, r)
  {
    assert [r][1..] == [];
  }

  /** Recording references touches no definition. */
  lemma {:induction false} WithReferencesKeepsResources(st: IndexState, refs: seq<ResourceReference>)
    ensures WithReferences(st, refs).resources == st.resources
    decreases |refs|
  {
    if refs != [] {
      WithReferencesKeepsResources(WithReference(st, refs[0]), refs[1..]);
    }
  }

  /** The references of `refs` under `key`, in order. */
  function RefsWithKey(refs: seq<ResourceReference>, key: string): (r: seq<ResourceReference>)
    ensures forall x :: x in r <==> x in refs && Key(x.refKind, x.refName) == key
  {
    if refs == [] then []
    else (if Key(refs[0].refKind, refs[0].refName) == key then [refs[0]] else []) + RefsWithKey(refs[1..], key)
  }

  /** References listed under a key come out in the order they were recorded,
      after the ones already there. */
  lemma {:induction false} WithReferencesOrder(st: IndexState, refs: seq<ResourceReference>, key: string)
    ensures RefsAt(WithReferences(st, refs), key) == RefsAt(st, key) + RefsWithKey(refs, key)
    decreases |refs|
  {
    if refs != [] {
      var r := refs[0];
      var here := if Key(r.refKind, r.refName) == key then [r] else [];
      var next := WithReference(st, r);
      assert RefsAt(next, key) == RefsAt(st, key) + here by {
        WithReferenceRefsAt(st, r, key);
      }
      WithReferencesOrder(next, refs[1..], key);
      assert RefsWithKey(refs, key) == here + RefsWithKey(refs[1..], key);
      AppendAssociative(RefsAt(st, key), here, RefsWithKey(refs[1..], key));
    }
  }

  /** One reference extends its own key's list and no other. */
  lemma WithReferenceRefsAt(st: IndexState, r: ResourceReference, key: string)
    ensures RefsAt(WithReference(st, r), key)
         == RefsAt(st, key) + (if Key(r.refKind, r.refName) == key then [r] else [])
  {
    if Key(r.refKind, r.refName) != key {
      assert RefsAt(st, key) + [] == RefsAt(st, key);
    }
  }


  // ----- what a document contributes -----

  /** The definition a document contributes (`index_resource_definition`): it
      needs a kind and a scalar `metadata.name`, and is located at the name. */
  function DefinitionOf(uri: Uri, doc: YamlDocument): (r: Option<ResourceDefinition>)
    ensures r.Some? <==> doc.kind.Some? && Get(doc.root, "metadata").Some?
                          && ScalarAt(Get(doc.root, "metadata").value, "name").Some?
    ensures r.Some? ==>
      var nameNode := Get(Get(doc.root, "metadata").value, "name").value;
      r.value.uri == uri && r.value.kind == doc.kind.value
      && r.value.name == ScalarAt(Get(doc.root, "metadata").value, "name").value
      && r.value.apiVersion == doc.apiVersion
      && r.value.location == Location(uri, nameNode.range)
  {
    match doc.kind
    case None => None
    case Some(kind) =>
      match Get(doc.root, "metadata")
      case None => None
      case Some(metadata) =>
        match Get(metadata, "name")
        case None => None
        case Some(nameNode) =>
          match AsScalar(nameNode)
          case None => None
          case Some(name) => Some(ResourceDefinition(uri, kind, name, doc.apiVersion, Location(uri, nameNode.range)))
  }

  /** The reference a `taskRef` node contributes (`index_task_ref`): it needs
      a scalar `name`; its kind is the scalar `kind` or the default. */
  function TaskRefReference(uri: Uri, taskRef: Node, defaultKind: string): (r: Option<ResourceReference>)
    ensures r.Some? <==> ScalarAt(taskRef, "name").Some?
    ensures r.Some? ==>
      r.value.uri == uri && r.value.refName == ScalarAt(taskRef, "name").value
      && r.value.refKind == ScalarAt(taskRef, "kind").UnwrapOr(defaultKind)
      && r.value.location == Location(uri, Get(taskRef, "name").value.range)
  {
    match Get(taskRef, "name")
    case None => None
    case Some(nameNode) =>
      match AsScalar(nameNode)
      case None => None
      case Some(name) =>
        var kind := ScalarAt(taskRef, "kind").UnwrapOr(defaultKind);
        Some(ResourceReference(uri, kind, name, Location(uri, nameNode.range)))
  }

  /** The reference one pipeline task contributes, through its `taskRef`. */
  function TaskItemReference(uri: Uri, task: Node): Option<ResourceReference> {
    match Get(task, "taskRef")
    case None => None
    case Some(taskRef) => TaskRefReference(uri, taskRef, "Task")
  }

  /** The references of the items of a task list, in item order
      (`index_pipeline_tasks`'s loop). */
  function TaskItemsReferences(uri: Uri, items: seq<Node>): seq<ResourceReference> {
    Gather((task: Node) => OptionToSeq(TaskItemReference(uri, task)), items)
  }

  /** `index_pipeline_tasks`: only a sequence of tasks contributes. */
  function TaskListReferences(uri: Uri, tasks: Node): seq<ResourceReference> {
    match tasks.value
    case Sequence(items) => TaskItemsReferences(uri, items)
    case _ => []
  }

  /** `index_pipeline_references`: `spec.tasks`, then `spec.finally`. */
  function PipelineReferences(uri: Uri, root: Node): seq<ResourceReference> {
    match Get(root, "spec")
    case None => []
    case Some(spec) =>
      (match Get(spec, "tasks") case Some(tasks) => TaskListReferences(uri, tasks) case None => [])
      + (match Get(spec, "finally") case Some(fin) => TaskListReferences(uri, fin) case None => [])
  }

  /** `index_pipeline_run_references`: a scalar `spec.pipelineRef.name`. */
  function PipelineRunReferences(uri: Uri, root: Node): seq<ResourceReference> {
    match Get(root, "spec")
    case None => []
    case Some(spec) =>
      match Get(spec, "pipelineRef")
      case None => []
      case Some(pipelineRef) =>
        match Get(pipelineRef, "name")
        case None => []
        case Some(nameNode) =>
          match AsScalar(nameNode)
          case None => []
          case Some(name) => [ResourceReference(uri, "Pipeline", name, Location(uri, nameNode.range))]
  }

  /** `index_references`: by the document's kind. */
  function ReferencesOf(uri: Uri, doc: YamlDocument): seq<ResourceReference> {
    match doc.kind
    case Some("Pipeline") => PipelineReferences(uri, doc.root)
    case Some("PipelineRun") => PipelineRunReferences(uri, doc.root)
    case _ => []
  }

  /** `index_document` on a parsed document: the old entries first removed,
      then the definition, then the references. */
  function Indexed(st: IndexState, uri: Uri, doc: YamlDocument): IndexState {
    var cleared := Removed(st, uri);
    var defined := match DefinitionOf(uri, doc) case Some(d) => WithDefinition(cleared, d) case None => cleared;
    WithReferences(defined, ReferencesOf(uri, doc))
  }

  // ----- properties of the contributions -----

  /** The task list's references grow by the next task's. */
  lemma TaskItemsReferencesStep(uri: Uri, items: seq<Node>, i: nat)
    requires i < |items|
    ensures TaskItemsReferences(uri, items[..i + 1])
         == TaskItemsReferences(uri, items[..i]) + OptionToSeq(TaskItemReference(uri, items[i]))
  {
    GatherStep((task: Node) => OptionToSeq(TaskItemReference(uri, task)), items, i);
  }

  /** The number of tasks whose `taskRef` has a scalar name. */
  function CountReferringTasks(uri: Uri, items: seq<Node>): nat {
    if items == [] then 0
    else CountReferringTasks(uri, items[..|items| - 1]) + (if TaskItemReference(uri, items[|items| - 1]).Some? then 1 else 0)
  }

  /** Each task with a scalar `taskRef.name` adds exactly one reference,
      and nothing else is added. */
  lemma {:induction false} TaskItemsReferencesCount(uri: Uri, items: seq<Node>)
    ensures |TaskItemsReferences(uri, items)| == CountReferringTasks(uri, items)
    decreases |items|
  {
    if items != [] {
      var n := |items| - 1;
      TaskItemsReferencesCount(uri, items[..n]);
      TaskItemsReferencesStep(uri, items, n);
      assert items[..n + 1] == items;
    }
  }

  /** Every reference of a task list comes from one of its tasks. */
  lemma TaskItemsReferencesFromTasks(uri: Uri, items: seq<Node>, r: ResourceReference)
    requires r in TaskItemsReferences(uri, items)
    ensures exists i :: 0 <= i < |items| && TaskItemReference(uri, items[i]) == Some(r)
  {
    var f := (task: Node) => OptionToSeq(TaskItemReference(uri, task));
    GatherFrom(f, items, r);
    var i :| 0 <= i < |items| && r in f(items[i]);
    assert TaskItemReference(uri, items[i]) == Some(r);
  }

  /** Every task's reference is in the task list's references. */
  lemma TaskItemsReferencesCoverTasks(uri: Uri, items: seq<Node>, i: nat, r: ResourceReference)
    requires i < |items| && TaskItemReference(uri, items[i]) == Some(r)
    ensures r in TaskItemsReferences(uri, items)
  {
    var f := (task: Node) => OptionToSeq(TaskItemReference(uri, task));
    assert r in f(items[i]);
    GatherCovers(f, items, i, r);
  }

  /** A task's reference is the `taskRef`'s kind, "Task" by default. */
  lemma TaskItemReferenceKind(uri: Uri, task: Node)
    requires TaskItemReference(uri, task).Some?
    ensures var taskRef := Get(task, "taskRef").value;
      TaskItemReference(uri, task).value.refKind == ScalarAt(taskRef, "kind").UnwrapOr("Task")
  {
  }

  lemma TaskItemsReferencesFromUri(uri: Uri, items: seq<Node>)
    ensures forall r :: r in TaskItemsReferences(uri, items) ==> r.uri == uri && r.location.uri == uri
  {
    forall r | r in TaskItemsReferences(uri, items) ensures r.uri == uri && r.location.uri == uri {
      TaskItemsReferencesFromTasks(uri, items, r);
    }
  }

  /** Only pipelines and pipeline runs refer to anything; a pipeline run's
      single reference is always to a Pipeline; every reference belongs to
      the document it came from. */
  lemma ReferencesOfShape(uri: Uri, doc: YamlDocument)
    ensures doc.kind != Some("Pipeline") && doc.kind != Some("PipelineRun") ==> ReferencesOf(uri, doc) == []
    ensures doc.kind == Some("PipelineRun") ==>
      |ReferencesOf(uri, doc)| <= 1 && forall r :: r in ReferencesOf(uri, doc) ==> r.refKind == "Pipeline"
    ensures forall r :: r in ReferencesOf(uri, doc) ==> r.uri == uri && r.location.uri == uri
  {
    match doc.kind
    case Some("Pipeline") => PipelineReferencesFromUri(uri, doc.root);
    case Some("PipelineRun") =>
    case _ =>
  }

  lemma TaskListReferencesFromUri(uri: Uri, tasks: Node)
    ensures forall r :: r in TaskListReferences(uri, tasks) ==> r.uri == uri && r.location.uri == uri
  {
    if tasks.value.Sequence? {
      TaskItemsReferencesFromUri(uri, tasks.value.items);
    }
  }

  lemma PipelineReferencesFromUri(uri: Uri, root: Node)
    ensures forall r :: r in PipelineReferences(uri, root) ==> r.uri == uri && r.location.uri == uri
  {
    match Get(root, "spec")
    case None =>
    case Some(spec) =>
      var a := match Get(spec, "tasks") case Some(tasks) => TaskListReferences(uri, tasks) case None => [];
      var b := match Get(spec, "finally") case Some(fin) => TaskListReferences(uri, fin) case None => [];
      if Get(spec, "tasks").Some? { TaskListReferencesFromUri(uri, Get(spec, "tasks").value); }
      if Get(spec, "finally").Some? { TaskListReferencesFromUri(uri, Get(spec, "finally").value); }
      assert PipelineReferences(uri, root) == a + b;
  }

  // ----- the invariant -----

  /** Reference lists are never empty; every reference and every definition
      is filed under its own key and that key is tracked, with the right mark,
      for the document it belongs to. */
  ghost predicate Invariant(st: IndexState) {
    (forall k :: k in st.references ==> st.references[k] != [])
    && (forall k, r :: k in st.references && r in st.references[k] ==>
          k == Key(r.refKind, r.refName)
          && r.uri in st.documentResources && ReferenceKey(k) in st.documentResources[r.uri])
    && (forall k :: k in st.resources ==>
          k == Key(st.resources[k].kind, st.resources[k].name)
          && st.resources[k].uri in st.documentResources
          && DefinitionKey(k) in st.documentResources[st.resources[k].uri])
  }

  lemma EmptyIndexInvariant()
    ensures Invariant(IndexState(map[], map[], map[]))
  {
  }

  lemma RemovedKeepsInvariant(st: IndexState, uri: Uri)
    requires Invariant(st)
    ensures Invariant(Removed(st, uri))
  {
    var s := Removed(st, uri);
    var tracked := Tracked(st, uri);
    forall k, r | k in s.references && r in s.references[k]
      ensures k == Key(r.refKind, r.refName) && r.uri in s.documentResources && ReferenceKey(k) in s.documentResources[r.uri]
    {
      assert r in st.references[k];
    }
    forall k | k in s.resources
      ensures s.resources[k].uri in s.documentResources && DefinitionKey(k) in s.documentResources[s.resources[k].uri]
    {
    }
  }

  lemma WithDefinitionKeepsInvariant(st: IndexState, d: ResourceDefinition)
    requires Invariant(st)
    ensures Invariant(WithDefinition(st, d))
  {
  }

  lemma WithReferenceKeepsInvariant(st: IndexState, r: ResourceReference)
    requires Invariant(st)
    ensures Invariant(WithReference(st, r))
  {
    var s := WithReference(st, r);
    var key := Key(r.refKind, r.refName);
    forall k, x | k in s.references && x in s.references[k]
      ensures k == Key(x.refKind, x.refName) && x.uri in s.documentResources && ReferenceKey(k) in s.documentResources[x.uri]
    {
      if k == key && x !in RefsAt(st, key) {
        assert x == r;
      }
    }
  }

  lemma {:induction false} WithReferencesKeepsInvariant(st: IndexState, refs: seq<ResourceReference>)
    requires Invariant(st)
    ensures Invariant(WithReferences(st, refs))
    decreases |refs|
  {
    if refs != [] {
      WithReferenceKeepsInvariant(st, refs[0]);
      WithReferencesKeepsInvariant(WithReference(st, refs[0]), refs[1..]);
    }
  }

  /** Indexing a document keeps the invariant. */
  lemma IndexedKeepsInvariant(st: IndexState, uri: Uri, doc: YamlDocument)
    requires Invariant(st)
    ensures Invariant(Indexed(st, uri, doc))
  {
    RemovedKeepsInvariant(st, uri);
    var cleared := Removed(st, uri);
    match DefinitionOf(uri, doc) {
      case Some(d) =>
        WithDefinitionKeepsInvariant(cleared, d);
        WithReferencesKeepsInvariant(WithDefinition(cleared, d), ReferencesOf(uri, doc));
      case None =>
        WithReferencesKeepsInvariant(cleared, ReferencesOf(uri, doc));
    }
  }

  // ----- removal -----

  /** After removal nothing of the document is left: no definition, no
      reference, no tracking entry. */
  lemma RemovedLeavesNoTrace(st: IndexState, uri: Uri)
    requires Invariant(st)
    ensures var s := Removed(st, uri);
      uri !in s.documentResources
      && (forall k :: k in s.resources ==> s.resources[k].uri != uri)
      && (forall k, r :: k in s.references && r in s.references[k] ==> r.uri != uri)
  {
    RemovedKeepsInvariant(st, uri);
  }

  /** Removal of a document the index does not track changes nothing. */
  lemma RemoveUntrackedIsNoOp(st: IndexState, uri: Uri)
    requires uri !in st.documentResources
    ensures Removed(st, uri) == st
  {
    var s := Removed(st, uri);
    assert s.resources == st.resources;
    assert s.references == st.references;
  }

  /** Removing twice is removing once. */
  lemma RemoveIdempotent(st: IndexState, uri: Uri)
    ensures Removed(Removed(st, uri), uri) == Removed(st, uri)
  {
    RemoveUntrackedIsNoOp(Removed(st, uri), uri);
  }

  /** Removal touches exactly what the document tracked: other definitions
      stay, and other documents' references stay in their order. */
  lemma RemovedKeepsOthers(st: IndexState, uri: Uri, k: string)
    ensures DefinitionKey(k) !in Tracked(st, uri) && k in st.resources ==>
      k in Removed(st, uri).resources && Removed(st, uri).resources[k] == st.resources[k]
    ensures ReferenceKey(k) !in Tracked(st, uri) ==> RefsAt(Removed(st, uri), k) == RefsAt(st, k)
    ensures ReferenceKey(k) in Tracked(st, uri) ==> RefsAt(Removed(st, uri), k) == Retain(RefsAt(st, k), uri)
    ensures forall u :: u != uri && u in st.documentResources ==> Removed(st, uri).documentResources[u] == st.documentResources[u]
  {
  }

  /** What removal makes of the definitions of a document that was overwritten
      by a later one: removal is by key, so it deletes the later document's
      definition too, though that document is still indexed. */
  lemma RemovingOverwrittenDocumentDropsNewerDefinition(st: IndexState, older: Uri, d: ResourceDefinition)
    requires older != d.uri
    requires DefinitionKey(Key(d.kind, d.name)) in Tracked(st, older)
    ensures var s := WithDefinition(st, d);
      s.resources[Key(d.kind, d.name)] == d
      && Key(d.kind, d.name) !in Removed(s, older).resources
      && d.uri in Removed(s, older).documentResources
  {
  }

  // ----- indexing -----

  /** After indexing, the document's definition is found under its key. */
  lemma IndexedDefinitionFound(st: IndexState, uri: Uri, doc: YamlDocument)
    ensures match DefinitionOf(uri, doc)
      case Some(d) => Key(d.kind, d.name) in Indexed(st, uri, doc).resources
                      && Indexed(st, uri, doc).resources[Key(d.kind, d.name)] == d
      case None => Indexed(st, uri, doc).resources == Removed(st, uri).resources
  {
    var cleared := Removed(st, uri);
    match DefinitionOf(uri, doc) {
      case Some(d) => WithReferencesKeepsResources(WithDefinition(cleared, d), ReferencesOf(uri, doc));
      case None => WithReferencesKeepsResources(cleared, ReferencesOf(uri, doc));
    }
  }

  /** After indexing, a key's references are the other documents' ones
      followed by this document's, in document order. */
  lemma IndexedReferencesOrder(st: IndexState, uri: Uri, doc: YamlDocument, key: string)
    ensures RefsAt(Indexed(st, uri, doc), key) == RefsAt(Removed(st, uri), key) + RefsWithKey(ReferencesOf(uri, doc), key)
  {
    var cleared := Removed(st, uri);
    match DefinitionOf(uri, doc) {
      case Some(d) =>
        WithReferencesOrder(WithDefinition(cleared, d), ReferencesOf(uri, doc), key);
      case None =>
        WithReferencesOrder(cleared, ReferencesOf(uri, doc), key);
    }
  }

  /** Re-indexing forgets the old content: afterwards every definition and
      every reference of the document comes from the new content. */
  lemma ReindexForgetsOldContent(st: IndexState, uri: Uri, doc: YamlDocument)
    requires Invariant(st)
    ensures var s := Indexed(st, uri, doc);
      (forall k :: k in s.resources && s.resources[k].uri == uri ==> Some(s.resources[k]) == DefinitionOf(uri, doc))
      && (forall k, r :: k in s.references && r in s.references[k] && r.uri == uri ==> r in ReferencesOf(uri, doc))
  {
    var s := Indexed(st, uri, doc);
    var cleared := Removed(st, uri);
    RemovedLeavesNoTrace(st, uri);
    IndexedDefinitionFound(st, uri, doc);
    forall k | k in s.resources && s.resources[k].uri == uri
      ensures Some(s.resources[k]) == DefinitionOf(uri, doc)
    {
      match DefinitionOf(uri, doc) {
        case Some(d) =>
          WithReferencesKeepsResources(WithDefinition(cleared, d), ReferencesOf(uri, doc));
        case None =>
      }
    }
    forall k, r | k in s.references && r in s.references[k] && r.uri == uri
      ensures r in ReferencesOf(uri, doc)
    {
      IndexedReferencesOrder(st, uri, doc, k);
      assert r in RefsAt(s, k);
    }
  }

  /** The lookup key of a definition names its kind and name, as long as names
      contain no '/'. */
  lemma FoundDefinitionMatches(st: IndexState, kind: string, name: string)
    requires Invariant(st)
    requires Key(kind, name) in st.resources
    requires '/' !in name && '/' !in st.resources[Key(kind, name)].name
    ensures st.resources[Key(kind, name)].kind == kind && st.resources[Key(kind, name)].name == name
  {
    var d := st.resources[Key(kind, name)];
    KeyInjective(kind, name, d.kind, d.name);
  }

  // ----- the tracking encoding as written -----

  /** The tracking entries as the source writes them: plain strings, a
      reference key marked by a "ref:" prefix. */
  function EncodeTracked(t: TrackedKey): string {
    match t
    case DefinitionKey(k) => k
    case ReferenceKey(k) => "ref:" + k
  }

  /** The definition keys deleted by the removal as written: every tracked
      string without the "ref:" prefix. */
  function DeletedDefinitionsAsWritten(tracked: seq<string>): set<string> {
    set k | k in tracked && !StartsWith(k, "ref:")
  }

  /** A definition whose kind starts with "ref:" is tracked under a string the
      removal as written takes for a reference key, so it is never deleted. */
  lemma RefPrefixedDefinitionSurvivesAsWritten()
    ensures var key := Key("ref:Task", "build");
      key !in DeletedDefinitionsAsWritten([EncodeTracked(DefinitionKey(key))])
  {
    var key := Key("ref:Task", "build");
    assert StartsWith(key, "ref:") by {
      assert key[..4] == "ref:";
    }
  }
}

/** The workspace index (src/workspace/index.rs): a class whose three maps
    the operations update in place, each operation proved to move the state
    as the functions of `IndexModel` say. */
module Workspace {
  import opened Wrappers
  import opened Lsp
  import opened Ast
  import opened YamlParser
  import opened IndexModel

  class WorkspaceIndex {
    var resources: map<string, ResourceDefinition>
    var references: map<string, seq<ResourceReference>>
    var documentResources: map<Uri, seq<TrackedKey>>

    ghost function State(): IndexState
      reads this
    {
      IndexState(resources, references, documentResources)
    }

    ghost predicate Valid()
      reads this
    {
      Invariant(State())
    }

    constructor ()
      ensures State() == IndexState(map[], map[], map[])
      ensures Valid()
    {
      resources := map[];
      references := map[];
      documentResources := map[];
      EmptyIndexInvariant();
    }

    /** `index_document`: the old entries go first; a document that does not
        parse leaves nothing behind and reports the parser's error. */
    method IndexDocument(uri: Uri, deserialized: Result<YamlValue, string>) returns (r: Result<(), string>)
      modifies this
      ensures r.Err? <==> deserialized.Err?
      ensures deserialized.Err? ==> r.error == deserialized.error && State() == Removed(old(State()), uri)
      ensures deserialized.Ok? ==> State() == Indexed(old(State()), uri, NewYamlDocument(uri, Built(deserialized.value, 0)))
      ensures old(Valid()) ==> Valid()
    {
      ghost var before := State();
      RemoveDocument(uri);
      var parsed := ParseYaml(uri, deserialized);
      if parsed.Err? {
        if Invariant(before) {
          RemovedKeepsInvariant(before, uri);
        }
        return Err(parsed.error);
      }
      var doc := parsed.value;
      IndexResourceDefinition(uri, doc);
      IndexReferences(uri, doc);
      if Invariant(before) {
        IndexedKeepsInvariant(before, uri, doc);
      }
      r := Ok(());
    }

    /** `index_resource_definition`. */
    method IndexResourceDefinition(uri: Uri, doc: YamlDocument)
      modifies this
      ensures State() == match DefinitionOf(uri, doc)
        case Some(d) => WithDefinition(old(State()), d)
        case None => old(State())
    {
      if doc.kind.None? {
        return;
      }
      var kind := doc.kind.value;
      var metadata := Get(doc.root, "metadata");
      if metadata.None? {
        return;
      }
      var nameNode := Get(metadata.value, "name");
      if nameNode.None? {
        return;
      }
      var name := AsScalar(nameNode.value);
      if name.None? {
        return;
      }
      var key := Key(kind, name.value);
      var resource := ResourceDefinition(uri, kind, name.value, doc.apiVersion, Location(uri, nameNode.value.range));
      resources := resources[key := resource];
      var tracked := if uri in documentResources then documentResources[uri] else [];
      documentResources := documentResources[uri := tracked + [DefinitionKey(key)]];
    }

    /** `index_references`. */
    method IndexReferences(uri: Uri, doc: YamlDocument)
      modifies this
      ensures State() == WithReferences(old(State()), ReferencesOf(uri, doc))
    {
      if doc.kind == Some("Pipeline") {
        IndexPipelineReferences(uri, doc);
      } else if doc.kind == Some("PipelineRun") {
        IndexPipelineRunReferences(uri, doc);
      }
    }

    /** `index_pipeline_references`: the `tasks` list, then the `finally` list. */
    method IndexPipelineReferences(uri: Uri, doc: YamlDocument)
      modifies this
      ensures State() == WithReferences(old(State()), PipelineReferences(uri, doc.root))
    {
      var spec := Get(doc.root, "spec");
      if spec.None? {
        return;
      }
      ghost var s0 := State();
      var tasks := Get(spec.value, "tasks");
      ghost var fromTasks: seq<ResourceReference> := [];
      if tasks.Some? {
        IndexPipelineTasks(uri, tasks.value);
        fromTasks := TaskListReferences(uri, tasks.value);
      }
      assert State() == WithReferences(s0, fromTasks);
      ghost var s1 := State();
      var fin := Get(spec.value, "finally");
      ghost var fromFinally: seq<ResourceReference> := [];
      if fin.Some? {
        IndexPipelineTasks(uri, fin.value);
        fromFinally := TaskListReferences(uri, fin.value);
      }
      assert State() == WithReferences(s1, fromFinally);
      WithReferencesAppend(s0, fromTasks, fromFinally);
    }

    /** `index_pipeline_tasks`: each task's `taskRef`, in list order. */
    method IndexPipelineTasks(uri: Uri, tasksNode: Node)
      modifies this
      ensures State() == WithReferences(old(State()), TaskListReferences(uri, tasksNode))
    {
      if !tasksNode.value.Sequence? {
        return;
      }
      var tasks := tasksNode.value.items;
      var i := 0;
      while i < |tasks|
        invariant 0 <= i <= |tasks|
        invariant State() == WithReferences(old(State()), TaskItemsReferences(uri, tasks[..i]))
      {
        IndexTask(uri, tasks[i]);
        TaskItemsReferencesStep(uri, tasks, i);
        WithReferencesAppend(old(State()), TaskItemsReferences(uri, tasks[..i]), OptionToSeq(TaskItemReference(uri, tasks[i])));
        i := i + 1;
      }
      assert tasks[..|tasks|] == tasks;
    }

    /** The loop body of `index_pipeline_tasks`: a task's `taskRef`, if any. */
    method IndexTask(uri: Uri, task: Node)
      modifies this
      ensures State() == WithReferences(old(State()), OptionToSeq(TaskItemReference(uri, task)))
    {
      var taskRef := Get(task, "taskRef");
      if taskRef.Some? {
        IndexTaskRef(uri, taskRef.value, "Task");
        match TaskRefReference(uri, taskRef.value, "Task") {
          case Some(r) => WithReferencesSingle(old(State()), r);
          case None =>
        }
      }
    }

    /** `index_task_ref`: a reference is recorded only when the `taskRef` has
        a scalar name. */
    method IndexTaskRef(uri: Uri, taskRef: Node, defaultKind: string)
      modifies this
      ensures State() == match TaskRefReference(uri, taskRef, defaultKind)
        case Some(r) => WithReference(old(State()), r)
        case None => old(State())
    {
      var nameNode := Get(taskRef, "name");
      if nameNode.None? {
        return;
      }
      var name := AsScalar(nameNode.value);
      if name.None? {
        return;
      }
      var kind := ScalarAt(taskRef, "kind").UnwrapOr(defaultKind);
      var reference := ResourceReference(uri, kind, name.value, Location(uri, nameNode.value.range));
      AddReference(Key(kind, name.value), reference);
    }

    /** `index_pipeline_run_references`: `spec.pipelineRef.name`, always of
        kind Pipeline. */
    method IndexPipelineRunReferences(uri: Uri, doc: YamlDocument)
      modifies this
      ensures State() == WithReferences(old(State()), PipelineRunReferences(uri, doc.root))
    {
      var spec := Get(doc.root, "spec");
      if spec.None? {
        return;
      }
      var pipelineRef := Get(spec.value, "pipelineRef");
      if pipelineRef.Some? {
        var nameNode := Get(pipelineRef.value, "name");
        if nameNode.Some? {
          var name := AsScalar(nameNode.value);
          if name.Some? {
            var reference := ResourceReference(uri, "Pipeline", name.value, Location(uri, nameNode.value.range));
            AddReference(Key("Pipeline", name.value), reference);
            WithReferencesSingle(old(State()), reference);
          }
        }
      }
    }

    /** Appends a reference to its key's list and tracks the key for the
        reference's document. */
    method AddReference(key: string, reference: ResourceReference)
      requires key == Key(reference.refKind, reference.refName)
      modifies this
      ensures State() == WithReference(old(State()), reference)
    {
      var existing := if key in references then references[key] else [];
      references := references[key := existing + [reference]];
      var tracked := if reference.uri in documentResources then documentResources[reference.uri] else [];
      documentResources := documentResources[reference.uri := tracked + [ReferenceKey(key)]];
    }

    /** `find_resource`. */
    function FindResource(kind: string, name: string): (r: Option<ResourceDefinition>)
      reads this
      ensures r.Some? <==> Key(kind, name) in resources
      ensures r.Some? ==> r.value == resources[Key(kind, name)]
    {
      var key := Key(kind, name);
      if key in resources then Some(resources[key]) else None
    }

    /** `find_references`: empty for a key nothing refers to. */
    function FindReferences(kind: string, name: string): (r: seq<ResourceReference>)
      reads this
      ensures r == RefsAt(State(), Key(kind, name))
      ensures Valid() ==> (r == [] <==> Key(kind, name) !in references)
    {
      var key := Key(kind, name);
      if key in references then references[key] else []
    }

    /** `remove_document`: first the definitions, then the references, then
        the tracking entry. */
    method RemoveDocument(uri: Uri)
      modifies this
      ensures State() == Removed(old(State()), uri)
      ensures old(Valid()) ==> Valid()
    {
      var keysToRemove := if uri in documentResources then documentResources[uri] else [];
      resources := RemoveDefinitions(resources, keysToRemove);
      references := RemoveReferences(references, uri, keysToRemove);
      documentResources := documentResources - {uri};
      if old(Valid()) {
        RemovedKeepsInvariant(old(State()), uri);
      }
    }

    /** `all_resources`: every definition once, in no particular order. */
    method AllResources() returns (all: seq<ResourceDefinition>)
      ensures |all| == |resources|
      ensures forall d :: d in all <==> d in resources.Values
    {
      all := [];
      var remaining := resources.Keys;
      while remaining != {}
        invariant remaining <= resources.Keys
        invariant |all| + |remaining| == |resources|
        invariant forall d :: d in all ==> d in resources.Values
        invariant forall k :: k in resources && k !in remaining ==> resources[k] in all
        decreases remaining
      {
        var k :| k in remaining;
        all := all + [resources[k]];
        remaining := remaining - {k};
      }
    }
  }

  /** The definition pass of `remove_document`. */
  method RemoveDefinitions(resources: map<string, ResourceDefinition>, keys: seq<TrackedKey>)
    returns (r: map<string, ResourceDefinition>)
    ensures r == DefinitionsAfterRemoval(resources, keys)
  {
    r := resources;
    var i := 0;
    while i < |keys|
      invariant 0 <= i <= |keys|
      invariant r == DefinitionsAfterRemoval(resources, keys[..i])
    {
      DefinitionsRemovalStep(resources, keys[..i], keys[i]);
      if keys[i].DefinitionKey? {
        r := r - {keys[i].key};
      }
      assert keys[..i + 1] == keys[..i] + [keys[i]];
      i := i + 1;
    }
    assert keys[..|keys|] == keys;
  }

  /** The reference pass of `remove_document`. */
  method RemoveReferences(references: map<string, seq<ResourceReference>>, uri: Uri, keys: seq<TrackedKey>)
    returns (r: map<string, seq<ResourceReference>>)
    ensures r == ReferencesAfterRemoval(references, uri, keys)
  {
    r := references;
    var i := 0;
    while i < |keys|
      invariant 0 <= i <= |keys|
      invariant r == ReferencesAfterRemoval(references, uri, keys[..i])
    {
      ReferencesRemovalStep(references, uri, keys[..i], keys[i]);
      if keys[i].ReferenceKey? && keys[i].key in r {
        var kept := Retain(r[keys[i].key], uri);
        if kept == [] {
          r := r - {keys[i].key};
        } else {
          r := r[keys[i].key := kept];
        }
      }
      assert keys[..i + 1] == keys[..i] + [keys[i]];
      i := i + 1;
    }
    assert keys[..|keys|] == keys;
  }
}

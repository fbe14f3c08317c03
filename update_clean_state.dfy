/**
  The `update_clean_state` workflow: after an incremental update, every run-state
  entry whose key starts with `incremental_update_` is deleted from the shared
  run state; every other entry stays as it was.
*/
module UpdateCleanState {
  import opened Wrappers

  const IncrementalUpdatePrefix: string := "incremental_update_"

  /** The run-state keys the incremental update workflows write. */
  const MergedEntitiesKey: string := IncrementalUpdatePrefix + "merged_entities"
  const MergedRelationshipsKey: string := IncrementalUpdatePrefix + "merged_relationships"
  const EntityIdMappingKey: string := IncrementalUpdatePrefix + "entity_id_mapping"
  const CommunityIdMappingKey: string := IncrementalUpdatePrefix + "community_id_mapping"
  const FinalDocumentsKey: string := IncrementalUpdatePrefix + "final_documents"

  /** `key.startswith(prefix)`. */
  predicate StartsWith(key: string, prefix: string)
  {
    |prefix| <= |key| && key[..|prefix|] == prefix
  }

  predicate IsIncrementalKey(key: string)
  {
    StartsWith(key, IncrementalUpdatePrefix)
  }

  /** The shared run context; only its state dictionary is modelled. */
  class PipelineRunContext<V> {
    var state: map<string, V>

    constructor (initial: map<string, V>)
      ensures state == initial
    {
      state := initial;
    }
  }

  /** What a workflow step hands back. */
  datatype WorkflowFunctionOutput<V> = WorkflowFunctionOutput(result: Option<V>)

  /** The state after the step: the entries whose keys do not carry the prefix. */
  function Cleaned<V>(state: map<string, V>): map<string, V>
  {
    map k | k in state && !IsIncrementalKey(k) :: state[k]
  }

  /** `run_workflow`: collect the prefixed keys, then delete them one by one. */
  method RunWorkflow<V>(context: PipelineRunContext<V>) returns (output: WorkflowFunctionOutput<V>)
    modifies context
    ensures context.state == Cleaned(old(context.state))
    ensures output.result.None?
  {
    var keysToDelete := set k | k in context.state && IsIncrementalKey(k);
    ghost var initial := context.state;
    var remaining := keysToDelete;
    while remaining != {}
      invariant remaining <= keysToDelete
      invariant context.state == map k | k in initial && (!IsIncrementalKey(k) || k in remaining) :: initial[k]
      decreases remaining
    {
      var keyName :| keyName in remaining;
      context.state := context.state - {keyName};
      remaining := remaining - {keyName};
    }
    output := WorkflowFunctionOutput(None);
  }

  /** No prefixed key survives. */
  lemma CleanedHasNoIncrementalKey<V>(state: map<string, V>)
    ensures forall k :: k in Cleaned(state) ==> !IsIncrementalKey(k)
  {
  }

  /** Every other entry is kept with its value. */
  lemma CleanedKeepsOthers<V>(state: map<string, V>)
    ensures forall k :: k in state && !IsIncrementalKey(k) ==> k in Cleaned(state) && Cleaned(state)[k] == state[k]
  {
  }

  /** The keys left are the old keys minus the prefixed ones. */
  lemma CleanedKeys<V>(state: map<string, V>)
    ensures Cleaned(state).Keys == state.Keys - set k | k in state && IsIncrementalKey(k)
  {
  }

  /** Cleaning twice is cleaning once. */
  lemma CleanedIdempotent<V>(state: map<string, V>)
    ensures Cleaned(Cleaned(state)) == Cleaned(state)
  {
  }

  /** Every key that starts with the prefix is an incremental key, whatever follows. */
  lemma PrefixedKeyIsIncremental(suffix: string)
    ensures IsIncrementalKey(IncrementalUpdatePrefix + suffix)
  {
    assert (IncrementalUpdatePrefix + suffix)[..|IncrementalUpdatePrefix|] == IncrementalUpdatePrefix;
  }

  /** The keys the update workflows leave behind are all removed. */
  lemma UpdateKeysRemoved<V>(state: map<string, V>)
    ensures MergedEntitiesKey !in Cleaned(state)
    ensures MergedRelationshipsKey !in Cleaned(state)
    ensures EntityIdMappingKey !in Cleaned(state)
    ensures CommunityIdMappingKey !in Cleaned(state)
    ensures FinalDocumentsKey !in Cleaned(state)
  {
    PrefixedKeyIsIncremental("merged_entities");
    PrefixedKeyIsIncremental("merged_relationships");
    PrefixedKeyIsIncremental("entity_id_mapping");
    PrefixedKeyIsIncremental("community_id_mapping");
    PrefixedKeyIsIncremental("final_documents");
  }
}

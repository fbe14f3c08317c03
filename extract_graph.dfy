/**
  The hard guard of `extract_graph`: the extractor's entity and relationship tables
  must both be non-empty, otherwise the run fails before any resolution or
  summarization; on success the raw tables handed to the type proposals are the
  extractor's tables as they came out.
*/
module ExtractGraph {
  import opened Wrappers
  import opened TypeProposals
  import opened ProposalTable

  /** The message of an extraction that found nothing of one kind. */
  function ExtractionFailure(what: string): string
  {
    "Graph Extraction failed. No " + what + " detected during extraction."
  }

  const NoEntitiesError: string := ExtractionFailure("entities")
  const NoRelationshipsError: string := ExtractionFailure("relationships")

  /** The raw copies `extract_graph` returns next to the summarized tables. */
  datatype RawGraph = RawGraph(rawEntities: seq<EntityRow>, rawRelationships: seq<RelationshipRow>)

  /** The guard and the raw copies, taken before anything changes the extracted
      tables. An `Err` is the `ValueError` the source raises. */
  function CheckExtraction(extractedEntities: seq<EntityRow>, extractedRelationships: seq<RelationshipRow>)
    : (r: Result<RawGraph, string>)
    ensures r.Ok? <==> extractedEntities != [] && extractedRelationships != []
    ensures extractedEntities == [] ==> r == Err(NoEntitiesError)
    ensures extractedEntities != [] && extractedRelationships == [] ==> r == Err(NoRelationshipsError)
    ensures r.Ok? ==> r.value.rawEntities == extractedEntities && r.value.rawRelationships == extractedRelationships
  {
    if |extractedEntities| == 0 then Err(NoEntitiesError)
    else if |extractedRelationships| == 0 then Err(NoRelationshipsError)
    else Ok(RawGraph(extractedEntities, extractedRelationships))
  }

  /** The two failures are told apart by their messages: each names what was
      missing right after the same opening. */
  lemma ExtractionErrorsDiffer()
    ensures NoEntitiesError != NoRelationshipsError
  {
    var opening := "Graph Extraction failed. No ";
    var closing := " detected during extraction.";
    assert |opening| == 28;
    assert NoEntitiesError == opening + "entities" + closing;
    assert NoRelationshipsError == opening + "relationships" + closing;
    assert NoEntitiesError[28] == 'e';
    assert NoRelationshipsError[28] == 'r';
  }

  /** After a successful extraction neither raw table is empty, so the proposals of
      every non-strict kind come from its collector over the whole raw table. */
  lemma ExtractionFeedsProposals(
    extractedEntities: seq<EntityRow>,
    extractedRelationships: seq<RelationshipRow>,
    allowedEntityTypes: seq<string>,
    allowedRelationshipTypes: seq<string>,
    strictEntityTypes: bool,
    strictRelationshipTypes: bool)
    requires CheckExtraction(extractedEntities, extractedRelationships).Ok?
    ensures
      var raw := CheckExtraction(extractedEntities, extractedRelationships).value;
      ProposalRecords(raw.rawEntities, raw.rawRelationships, allowedEntityTypes, allowedRelationshipTypes,
                      strictEntityTypes, strictRelationshipTypes)
      == (if strictEntityTypes then [] else EntityProposals(extractedEntities, AllowedKeys(allowedEntityTypes)))
         + (if strictRelationshipTypes then []
            else RelationshipProposals(extractedRelationships, AllowedKeys(allowedRelationshipTypes)))
  {
  }
}

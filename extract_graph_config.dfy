/**
  The `extract_graph` configuration section and its strict-mode check: a strict
  kind needs at least one configured type that is not blank.
*/
module ExtractGraphConfig {
  import opened Wrappers
  import opened Text

  datatype ExtractGraphConfig = ExtractGraphConfig(
    completionModelId: string,
    modelInstanceName: string,
    prompt: Option<string>,
    entityTypes: seq<string>,
    relationshipTypes: seq<string>,
    strictEntityTypes: bool,
    strictRelationshipTypes: bool,
    ontology: Option<string>,
    maxGleanings: int)

  /** The message of a strict setting whose type list has no usable entry. */
  function StrictSettingError(flag: string, typesField: string): string
  {
    "extract_graph." + flag + " requires extract_graph." + typesField + " to include at least one type."
  }

  const StrictEntityTypesError: string := StrictSettingError("strict_entity_types", "entity_types")
  const StrictRelationshipTypesError: string := StrictSettingError("strict_relationship_types", "relationship_types")

  /** `any(item.strip() for item in items)`, scanning from the front. */
  function AnyNonBlank(items: seq<string>): bool
  {
    if items == [] then false
    else Strip(items[0]) != [] || AnyNonBlank(items[1..])
  }

  /** The scan finds a non-blank item exactly when there is one. */
  lemma {:induction false} AnyNonBlankIff(items: seq<string>)
    ensures AnyNonBlank(items) <==> exists i :: 0 <= i < |items| && Strip(items[i]) != []
  {
    if items != [] {
      AnyNonBlankIff(items[1..]);
      if exists i :: 0 <= i < |items| && Strip(items[i]) != [] {
        var i :| 0 <= i < |items| && Strip(items[i]) != [];
        if i > 0 {
          assert items[1..][i - 1] == items[i];
        }
      }
      if exists i :: 0 <= i < |items[1..]| && Strip(items[1..][i]) != [] {
        var i :| 0 <= i < |items[1..]| && Strip(items[1..][i]) != [];
        assert items[i + 1] == items[1..][i];
      }
    }
  }

  /** `ExtractGraphConfig._validate_strict_type_settings`: the entity check first,
      then the relationship check; a valid config is returned as it is. */
  function ValidateStrictTypeSettings(config: ExtractGraphConfig): (r: Result<ExtractGraphConfig, string>)
    ensures r.Ok? ==> r.value == config
  {
    if config.strictEntityTypes && !AnyNonBlank(config.entityTypes) then Err(StrictEntityTypesError)
    else if config.strictRelationshipTypes && !AnyNonBlank(config.relationshipTypes) then Err(StrictRelationshipTypesError)
    else Ok(config)
  }

  /** A config is accepted exactly when every strict kind lists a non-blank type; a
      rejected entity setting is reported even when the relationship setting is
      also wrong. */
  lemma ValidateStrictTypeSettingsIff(config: ExtractGraphConfig)
    ensures ValidateStrictTypeSettings(config).Ok? <==>
      && (config.strictEntityTypes ==> exists i :: 0 <= i < |config.entityTypes| && Strip(config.entityTypes[i]) != [])
      && (config.strictRelationshipTypes ==>
            exists i :: 0 <= i < |config.relationshipTypes| && Strip(config.relationshipTypes[i]) != [])
    ensures config.strictEntityTypes && (forall i :: 0 <= i < |config.entityTypes| ==> Strip(config.entityTypes[i]) == [])
      ==> ValidateStrictTypeSettings(config) == Err(StrictEntityTypesError)
    ensures ValidateStrictTypeSettings(config).Err? && ValidateStrictTypeSettings(config) != Err(StrictEntityTypesError)
      ==> (ValidateStrictTypeSettings(config) == Err(StrictRelationshipTypesError)
           && (!config.strictEntityTypes || AnyNonBlank(config.entityTypes)))
  {
    AnyNonBlankIff(config.entityTypes);
    AnyNonBlankIff(config.relationshipTypes);
  }

  /** With neither kind strict, any type lists are accepted. */
  lemma NonStrictAlwaysValid(config: ExtractGraphConfig)
    requires !config.strictEntityTypes && !config.strictRelationshipTypes
    ensures ValidateStrictTypeSettings(config) == Ok(config)
  {
  }

  /** Each error message opens with the setting at fault, qualified by the section. */
  lemma ErrorNamesTheFlag(flag: string, typesField: string)
    ensures "extract_graph." + flag <= StrictSettingError(flag, typesField)
  {
    var rest := " requires extract_graph." + typesField + " to include at least one type.";
    assert StrictSettingError(flag, typesField) == ("extract_graph." + flag) + rest;
  }

  /** The two messages differ, so the failing setting can be told from the message. */
  lemma StrictErrorsDiffer()
    ensures StrictEntityTypesError != StrictRelationshipTypesError
  {
    var entityOpening := "extract_graph." + "strict_entity_types";
    var relationshipOpening := "extract_graph." + "strict_relationship_types";
    ErrorNamesTheFlag("strict_entity_types", "entity_types");
    ErrorNamesTheFlag("strict_relationship_types", "relationship_types");
    assert entityOpening[21] == 'e';
    assert relationshipOpening[21] == 'r';
    assert StrictEntityTypesError[21] == entityOpening[21];
    assert StrictRelationshipTypesError[21] == relationshipOpening[21];
  }

  /** Only blank entity types with strict entity types: rejected on the entity setting. */
  lemma BlankEntityTypesRejected(config: ExtractGraphConfig)
    requires config.entityTypes == [" "] && config.strictEntityTypes
    ensures ValidateStrictTypeSettings(config) == Err(StrictEntityTypesError)
  {
    var blank := " ";
    StripEmpty(blank);
    assert forall i :: 0 <= i < |blank| ==> IsSpace(blank[i]);
    assert Strip(config.entityTypes[0]) == [];
    assert config.entityTypes[1..] == [];
    assert !AnyNonBlank(config.entityTypes[1..]);
    assert !AnyNonBlank(config.entityTypes);
  }

  /** No relationship types with strict relationship types: rejected on the
      relationship setting once the entity setting passes. */
  lemma NoRelationshipTypesRejected(config: ExtractGraphConfig)
    requires config.relationshipTypes == [] && config.strictRelationshipTypes
    requires !config.strictEntityTypes || AnyNonBlank(config.entityTypes)
    ensures ValidateStrictTypeSettings(config) == Err(StrictRelationshipTypesError)
  {
  }

  /** Both kinds strict, each with one real type: the config is kept with its flags
      still set. */
  lemma StrictFlagsCanBeEnabled(config: ExtractGraphConfig)
    requires config.entityTypes == ["person"] && config.relationshipTypes == ["works_with"]
    requires config.strictEntityTypes && config.strictRelationshipTypes
    ensures ValidateStrictTypeSettings(config).Ok?
    ensures ValidateStrictTypeSettings(config).value.strictEntityTypes
    ensures ValidateStrictTypeSettings(config).value.strictRelationshipTypes
  {
    StripShape("person");
    StripShape("works_with");
  }
}

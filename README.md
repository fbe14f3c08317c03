# Type proposals, strict-type validation, state cleanup and strategy registries of hypergraph

A Dafny model of five pieces of the hypergraph indexing pipeline:

- **Type proposals of graph extraction** (`extract_graph.py`). The extractor proposes free-text entity types and relationship labels (`<label>: description`). A label is normalized: stripped, lower-cased, runs of `_`, `-` and `/` turned into one space, whitespace runs collapsed. It is then mapped through a small alias table for irregular plurals, singularized token by token and looked up once more. Labels whose canonical form is allowed by the configuration are dropped. The rest are grouped by `(proposal_kind, canonical_label)` into a table: summed occurrences, sorted distinct raw labels and at most three sample descriptions per row, rows sorted by occurrences descending and canonical label ascending. The same file holds the guard that fails a run with no extracted entities or no extracted relationships.
- **Strict-type validation** of the `extract_graph` configuration section: a strict kind must list at least one non-blank type.
- **Run-state cleanup** after an incremental update: every `incremental_update_*` entry is deleted from the shared run state.
- **Completion and input-reader factories**: a registry of strategies. A registered strategy is used as it is, a built-in one is registered on first use, and anything else fails. The init arguments are assembled from the configuration.

Modules follow the source: `Text` (the Python string operations used), `TypeLabels` (normalization and canonicalization), `Cells` and `UniqueValues` (dataframe cells and `_unique_non_empty`), `TypeProposals` (the two collectors), `ProposalTable` (grouping, aggregation and ordering), `ExtractGraph` (the guard), `ExtractGraphConfig`, `UpdateCleanState`, `Factory` (the registry), `CompletionFactory` and `InputReaderFactory`. Loops of the source are methods with loop invariants, proved equal to the functions that specify them. The run state and the registries, which the source mutates in place, are fields of classes.

Characters are ASCII. Whitespace is Python's `str.isspace` over ASCII: tab, line feed, vertical tab, form feed, carriage return, the four separators 28–31 and space. Letter case is changed only for `A`–`Z`.

Two facts about the code:
- Canonicalization is not idempotent for a label with a separator at either end. The code strips before it replaces separators, so `_org_` canonicalizes to ` org `, which canonicalizes to `organization` (`TypeLabels.EdgeSeparatorNotIdempotent`). Idempotence is proved for labels whose stripped form has no separator at either end (`TypeLabels.CanonicalIdempotent`).
- `create_completion` passes nine named init arguments, the last of them `cache_key_creator`.

## Model

| member | source | states |
|---|---|---|
| Text.LowerChar | packages/hypergraph/hypergraph/index/workflows/extract_graph.py:421 | lower-casing one character leaves no capital, keeps whitespace as whitespace and changes nothing that is not a capital |
| Text.Lower | packages/hypergraph/hypergraph/index/workflows/extract_graph.py:421 | `str.lower()` keeps the length, leaves no capital letter, and is the identity on a string without capitals |
| Text.TrimStartShape | packages/hypergraph/hypergraph/index/workflows/extract_graph.py:421 | `lstrip` keeps a suffix, drops only whitespace and stops at a non-space |
| Text.TrimEndShape | packages/hypergraph/hypergraph/index/workflows/extract_graph.py:421 | `rstrip` keeps a prefix, drops only whitespace and stops at a non-space |
| Text.StripShape | packages/hypergraph/hypergraph/index/workflows/extract_graph.py:316 | `strip()` leaves no whitespace at either end, never lengthens, and leaves a string already without edge whitespace unchanged |
| Text.StripIdempotent | packages/hypergraph/hypergraph/index/workflows/extract_graph.py:316 | stripping twice is stripping once |
| Text.StripEmpty | packages/hypergraph/hypergraph/index/workflows/extract_graph.py:317-318 | a string strips to `""` exactly when all its characters are whitespace, the blank labels the collector skips |
| Text.StripChars | packages/hypergraph/hypergraph/index/workflows/extract_graph.py:316 | every character of the stripped string occurs in the original |
| Text.SplitNoSpace | packages/hypergraph/hypergraph/index/workflows/extract_graph.py:406 | no piece of `split(" ")` contains a space |
| Text.SplitChars | packages/hypergraph/hypergraph/index/workflows/extract_graph.py:406 | every character of a piece comes from the split string |
| Text.SplitPiecesNonEmpty | packages/hypergraph/hypergraph/index/workflows/extract_graph.py:406 | a string without double spaces or a trailing space splits into non-empty pieces after the first, and into a non-empty first piece when it does not start with a space |
| Text.JoinSplit | packages/hypergraph/hypergraph/index/workflows/extract_graph.py:406-416 | `" ".join(s.split(" ")) == s` for every string |
| Text.SplitAfterWord | packages/hypergraph/hypergraph/index/workflows/extract_graph.py:406 | a space-free prefix is glued to the first piece of the rest |
| Text.SplitJoin | packages/hypergraph/hypergraph/index/workflows/extract_graph.py:406-416 | splitting the join of space-free pieces gives the pieces back |
| Text.StrLessIrreflexive | packages/hypergraph/hypergraph/index/workflows/extract_graph.py:301 | the string order used for `canonical_label` is irreflexive |
| Text.StrLessAsymmetric | packages/hypergraph/hypergraph/index/workflows/extract_graph.py:301 | the string order is asymmetric |
| Text.StrLessTransitive | packages/hypergraph/hypergraph/index/workflows/extract_graph.py:301 | the string order is transitive |
| Text.StrLessTotal | packages/hypergraph/hypergraph/index/workflows/extract_graph.py:301 | any two different strings are ordered one way or the other |
| TypeLabels.CollapseRunsClass | packages/hypergraph/hypergraph/index/workflows/extract_graph.py:422-423 | after `re.sub(<class>+, " ")` the only characters of the class left are spaces, and a non-empty input gives a non-empty output |
| TypeLabels.CollapseRunsKeepsLower | packages/hypergraph/hypergraph/index/workflows/extract_graph.py:422-423 | run collapsing keeps a string free of capitals |
| TypeLabels.CollapseRunsKeepsUnseparated | packages/hypergraph/hypergraph/index/workflows/extract_graph.py:423 | run collapsing keeps a string free of `_`, `-` and `/` |
| TypeLabels.CollapseRunsEdges | packages/hypergraph/hypergraph/index/workflows/extract_graph.py:422-423 | a first or last character outside the class stays in place |
| TypeLabels.CollapseRunsNoRun | packages/hypergraph/hypergraph/index/workflows/extract_graph.py:422-423 | after collapsing no two characters of the class are adjacent |
| TypeLabels.CollapseRunsIdentity | packages/hypergraph/hypergraph/index/workflows/extract_graph.py:422-423 | a string with no run and no class character other than a single space is left unchanged |
| TypeLabels.NormalizeTypeKeyShape | packages/hypergraph/hypergraph/index/workflows/extract_graph.py:420-424 | the normalized key is lower case, has no `_`, `-` or `/`, no whitespace other than single spaces and no two spaces in a row; it is empty exactly when the label is blank |
| TypeLabels.TidyIsNormal | packages/hypergraph/hypergraph/index/workflows/extract_graph.py:420-424 | a lower-case key with single inner spaces and no edge space normalizes to itself |
| TypeLabels.NormalizeTidy | packages/hypergraph/hypergraph/index/workflows/extract_graph.py:420-424 | a label without an edge separator normalizes to a key with no space at either end |
| TypeLabels.CollapsedEdges | packages/hypergraph/hypergraph/index/workflows/extract_graph.py:422-423 | collapsing a lowered label whose ends are neither separators nor whitespace leaves no space at either end |
| TypeLabels.SplitTidyWords | packages/hypergraph/hypergraph/index/workflows/extract_graph.py:406 | such a key splits into non-empty lower-case words |
| TypeLabels.JoinWordsTidy | packages/hypergraph/hypergraph/index/workflows/extract_graph.py:416 | joining words gives such a key back |
| TypeLabels.SingularizeAll | packages/hypergraph/hypergraph/index/workflows/extract_graph.py:406-414 | the loop keeps one token per part |
| TypeLabels.SingularizeTokens | packages/hypergraph/hypergraph/index/workflows/extract_graph.py:406-414 | the singularization loop appends exactly the singular form of each part, in order |
| TypeLabels.CanonicalizeTypeLabel | packages/hypergraph/hypergraph/index/workflows/extract_graph.py:389-417 | the canonicalizer as written (early returns, alias lookups, the loop) computes the canonical label |
| TypeLabels.SingularizeWord | packages/hypergraph/hypergraph/index/workflows/extract_graph.py:409-414 | singularizing a word gives a word |
| TypeLabels.EndsWithLast | packages/hypergraph/hypergraph/index/workflows/extract_graph.py:409-411 | a string ending with a suffix ends with the suffix's last character |
| TypeLabels.SingularizeIdempotent | packages/hypergraph/hypergraph/index/workflows/extract_graph.py:409-414 | singularizing a token twice is singularizing it once (`ies`→`y`, dropping one `s` unless `ss`/`us`, tokens of length ≤ 3 kept) |
| TypeLabels.SingularizeEmpty | packages/hypergraph/hypergraph/index/workflows/extract_graph.py:409-414 | singularization empties no token |
| TypeLabels.SingularizeAllWords | packages/hypergraph/hypergraph/index/workflows/extract_graph.py:406-414 | singularized words are words fixed by singularization |
| TypeLabels.SingularizeAllFixed | packages/hypergraph/hypergraph/index/workflows/extract_graph.py:406-414 | tokens already singular are left as they are |
| TypeLabels.SingularWordsFixed | packages/hypergraph/hypergraph/index/workflows/extract_graph.py:406-417 | a join of singular words outside the alias table is its own key and its own canonical form |
| TypeLabels.CanonicalOfKeyFixed | packages/hypergraph/hypergraph/index/workflows/extract_graph.py:403-417 | a key outside the alias table whose tokens are singular canonicalizes to itself |
| TypeLabels.CanonicalFixed | packages/hypergraph/hypergraph/index/workflows/extract_graph.py:389-417 | a label that is its own key and its own canonical key is a fixed point |
| TypeLabels.CanonicalOfSingularWord | packages/hypergraph/hypergraph/index/workflows/extract_graph.py:389-417 | a singular lower-case word outside the alias table is its own canonical label |
| TypeLabels.WordNoSpace | packages/hypergraph/hypergraph/index/workflows/extract_graph.py:406 | a word holds no space |
| TypeLabels.LowerLettersWord | packages/hypergraph/hypergraph/index/workflows/extract_graph.py:420-424 | a non-empty run of lower-case letters is a word |
| TypeLabels.AliasTargets | packages/hypergraph/hypergraph/index/workflows/extract_graph.py:395-402 | the alias table maps only to `organization`, `company` and `person` |
| TypeLabels.TargetWordCanonical | packages/hypergraph/hypergraph/index/workflows/extract_graph.py:389-417 | each alias target is its own canonical label |
| TypeLabels.OrganizationCanonical | packages/hypergraph/hypergraph/index/workflows/extract_graph.py:389-417 | `organization` canonicalizes to itself |
| TypeLabels.CompanyCanonical | packages/hypergraph/hypergraph/index/workflows/extract_graph.py:389-417 | `company` canonicalizes to itself |
| TypeLabels.PersonCanonical | packages/hypergraph/hypergraph/index/workflows/extract_graph.py:389-417 | `person` canonicalizes to itself |
| TypeLabels.AliasTargetsCanonical | packages/hypergraph/hypergraph/index/workflows/extract_graph.py:395-417 | every alias target is a fixed point of the canonicalizer |
| TypeLabels.CanonicalIdempotent | packages/hypergraph/hypergraph/index/workflows/extract_graph.py:389-424 | canonicalizing twice equals canonicalizing once, for every label whose stripped form has no separator at either end |
| TypeLabels.EdgeSeparatorKey | packages/hypergraph/hypergraph/index/workflows/extract_graph.py:421-423 | `_org_` normalizes to ` org `: it is stripped before its separators become spaces |
| TypeLabels.EdgeSeparatorsCollapsed | packages/hypergraph/hypergraph/index/workflows/extract_graph.py:422 | the separator pass turns `_org_` into ` org ` |
| TypeLabels.SpacedKeyCollapsed | packages/hypergraph/hypergraph/index/workflows/extract_graph.py:423 | the whitespace pass leaves ` org ` unchanged |
| TypeLabels.SpacedKeySplit | packages/hypergraph/hypergraph/index/workflows/extract_graph.py:406 | ` org `.split(" ") is `["", "org", ""]` |
| TypeLabels.SpacedKeyCanonical | packages/hypergraph/hypergraph/index/workflows/extract_graph.py:403-417 | ` org ` misses the alias table both times and canonicalizes to itself |
| TypeLabels.SpacedKeyAliased | packages/hypergraph/hypergraph/index/workflows/extract_graph.py:391-404 | canonicalizing ` org ` gives `organization` |
| TypeLabels.EdgeSeparatorNotIdempotent | packages/hypergraph/hypergraph/index/workflows/extract_graph.py:389-424 | without the edge condition idempotence fails: `_org_` → ` org ` → `organization` |
| TypeLabels.NormalizeWord | packages/hypergraph/hypergraph/index/workflows/extract_graph.py:420-424 | a word with no whitespace or separator normalizes to its lower-case form |
| TypeLabels.AliasKeyCanonical | packages/hypergraph/hypergraph/index/workflows/extract_graph.py:391-404 | an alias key, in any letter case, canonicalizes straight to its target (`org`/`orgs`/`organisations` → `organization`, `companies` → `company`, `people`/`persons` → `person`) |
| TypeLabels.JoinEmpty | packages/hypergraph/hypergraph/index/workflows/extract_graph.py:416 | a join is empty exactly when it joins no token or one empty token |
| TypeLabels.CanonicalEmptyIffBlank | packages/hypergraph/hypergraph/index/workflows/extract_graph.py:391-393 | the canonical label is `""` exactly when the label is blank |
| Cells.StringsOf | packages/hypergraph/hypergraph/index/workflows/extract_graph.py:365 | the comprehension yields at most one string per item, and a string is yielded exactly when it is an item of the list |
| Cells.PrepDescriptions | packages/hypergraph/hypergraph/index/workflows/extract_graph.py:362-368 | a string gives itself; a list gives the filter `StringsOf` of its items, in list order with repetitions; anything else gives nothing |
| Cells.StringsOfAppend | packages/hypergraph/hypergraph/index/workflows/extract_graph.py:365 | filtering distributes over concatenation, so the strings keep the order and the repetitions of the list |
| Cells.StringsOfOne | packages/hypergraph/hypergraph/index/workflows/extract_graph.py:365 | a one-item list keeps a string item and drops any other item; with `StringsOfAppend` this pins the filter down completely |
| Cells.StringsOfFirst | packages/hypergraph/hypergraph/index/workflows/extract_graph.py:365 | the first string of the filter is the first string item of the list; the filter is empty exactly when no item is a string |
| Cells.PrepDescriptionsFirst | packages/hypergraph/hypergraph/index/workflows/extract_graph.py:362-365 | for a list, `_prep_descriptions(value)[0]` is its first string item, and the result is empty exactly when the list holds no string |
| UniqueValues.FirstDistinct | packages/hypergraph/hypergraph/index/workflows/extract_graph.py:427-438 | the result is a prefix of the stripped, non-empty, distinct strings in first-occurrence order, of length exactly `min(Cap(limit), number of distinct strings)`, where `Cap(limit)` is the limit but at least one |
| UniqueValues.UniqueNonEmpty | packages/hypergraph/hypergraph/index/workflows/extract_graph.py:427-438 | the loop with its `continue`s and early `break` returns exactly `FirstDistinct` |
| UniqueValues.DistinctPrefix | packages/hypergraph/hypergraph/index/workflows/extract_graph.py:429-435 | the distinct strings of a prefix of the values are a prefix of the distinct strings of all values, so order is first occurrence |
| UniqueValues.DistinctStripped | packages/hypergraph/hypergraph/index/workflows/extract_graph.py:432-433 | every kept value is non-empty and stripped |
| UniqueValues.DistinctNoDuplicates | packages/hypergraph/hypergraph/index/workflows/extract_graph.py:433 | no value is kept twice |
| UniqueValues.DistinctMembers | packages/hypergraph/hypergraph/index/workflows/extract_graph.py:429-435 | a string is kept exactly when it is non-empty and is the stripped form of some string value |
| UniqueValues.FirstDistinctComplete | packages/hypergraph/hypergraph/index/workflows/extract_graph.py:436-437 | when there are no more distinct strings than the limit, all of them are returned |
| TypeProposals.AllowedKeys | packages/hypergraph/hypergraph/index/workflows/extract_graph.py:381-386 | the allowed keys hold no `""`, every non-empty canonical form of a configured label, and nothing else |
| TypeProposals.BeforeColon | packages/hypergraph/hypergraph/index/workflows/extract_graph.py:376 | `split(":", 1)[0]` is the prefix up to the first colon and holds no colon |
| TypeProposals.RelationshipLabelShape | packages/hypergraph/hypergraph/index/workflows/extract_graph.py:371-378 | no colon gives no label; a label is non-empty, stripped and colon-free |
| TypeProposals.RelationshipLabelBeforeColon | packages/hypergraph/hypergraph/index/workflows/extract_graph.py:373-378 | for `prefix:rest` with a colon-free prefix the label is the stripped prefix, or none when that is blank |
| TypeProposals.EntityProposal | packages/hypergraph/hypergraph/index/workflows/extract_graph.py:312-331 | a row gives no record exactly when its type is not a string, is blank, or canonicalizes to an allowed key; the record is an entity record with the stripped label and `frequency` or 1 as occurrences; its sample is a string description itself, for a list the first string item of the list (`""` when the list has no string), and `""` for any other cell |
| TypeProposals.EntityProposals | packages/hypergraph/hypergraph/index/workflows/extract_graph.py:307-332 | at most one record per row |
| TypeProposals.CollectEntityProposals | packages/hypergraph/hypergraph/index/workflows/extract_graph.py:307-332 | the collector loop, with its `continue`s, appends exactly the records of `EntityProposals` |
| TypeProposals.DescriptionProposals | packages/hypergraph/hypergraph/index/workflows/extract_graph.py:342-357 | at most one record per description |
| TypeProposals.CollectRelationshipProposals | packages/hypergraph/hypergraph/index/workflows/extract_graph.py:335-359 | the nested loop appends exactly the records of `RelationshipProposals`, row by row and description by description |
| TypeProposals.EntityProposalOk | packages/hypergraph/hypergraph/index/workflows/extract_graph.py:312-331 | an entity record has a non-empty stripped raw label, its canonical label is the raw label canonicalized, non-empty and not allowed |
| TypeProposals.RelationshipProposalOk | packages/hypergraph/hypergraph/index/workflows/extract_graph.py:343-357 | a relationship record has one occurrence, its raw label is the label of its own sample description, its canonical label is non-empty and not allowed |
| TypeProposals.EntityRecordSource | packages/hypergraph/hypergraph/index/workflows/extract_graph.py:312-331 | every collected entity record is the proposal of some row |
| TypeProposals.EntityRecordCollected | packages/hypergraph/hypergraph/index/workflows/extract_graph.py:312-331 | every row's proposal is collected |
| TypeProposals.EntityProposalsOk | packages/hypergraph/hypergraph/index/workflows/extract_graph.py:307-332 | every collected entity record satisfies the entity record properties |
| TypeProposals.DescriptionRecordSource | packages/hypergraph/hypergraph/index/workflows/extract_graph.py:342-357 | every record of a row comes from one of its descriptions |
| TypeProposals.DescriptionRecordCollected | packages/hypergraph/hypergraph/index/workflows/extract_graph.py:342-357 | every description's proposal is among the row's records |
| TypeProposals.RelationshipRecordSource | packages/hypergraph/hypergraph/index/workflows/extract_graph.py:340-357 | every collected relationship record comes from some row |
| TypeProposals.RelationshipRecordCollected | packages/hypergraph/hypergraph/index/workflows/extract_graph.py:340-357 | every record of a row is collected |
| TypeProposals.DescriptionCollected | packages/hypergraph/hypergraph/index/workflows/extract_graph.py:340-357 | the proposal of any description of any row is collected |
| TypeProposals.RelationshipProposalsOk | packages/hypergraph/hypergraph/index/workflows/extract_graph.py:335-359 | every collected relationship record satisfies the relationship record properties |
| TypeProposals.RelationshipProposalsCount | packages/hypergraph/hypergraph/index/workflows/extract_graph.py:340-357 | no more relationship records than string descriptions |
| ProposalTable.GroupKeysDistinct | packages/hypergraph/hypergraph/index/workflows/extract_graph.py:292 | the group keys are pairwise distinct |
| ProposalTable.GroupKeysMembers | packages/hypergraph/hypergraph/index/workflows/extract_graph.py:292 | a key is a group key exactly when some record has it |
| ProposalTable.GroupOf | packages/hypergraph/hypergraph/index/workflows/extract_graph.py:292 | a group holds exactly the records with its `(proposal_kind, canonical_label)` |
| ProposalTable.TotalOccurrencesOfOnes | packages/hypergraph/hypergraph/index/workflows/extract_graph.py:294 | summing occurrences of records that each count 1 gives the group size |
| ProposalTable.TotalOccurrencesBound | packages/hypergraph/hypergraph/index/workflows/extract_graph.py:294 | with non-negative counts the sum is at least each record's count |
| ProposalTable.TotalOccurrencesNonNegative | packages/hypergraph/hypergraph/index/workflows/extract_graph.py:294 | with non-negative counts the sum is non-negative |
| ProposalTable.RawLabelsOf | packages/hypergraph/hypergraph/index/workflows/extract_graph.py:295 | the raw labels of a group, record by record |
| ProposalTable.SampleCellsOf | packages/hypergraph/hypergraph/index/workflows/extract_graph.py:296-299 | the sample descriptions of a group, record by record, as string cells |
| ProposalTable.InsertLabel | packages/hypergraph/hypergraph/index/workflows/extract_graph.py:295 | inserting adds exactly the new label |
| ProposalTable.SortedLabels | packages/hypergraph/hypergraph/index/workflows/extract_graph.py:295 | `sorted(set(values))` holds exactly the values |
| ProposalTable.StrictlySortedCons | packages/hypergraph/hypergraph/index/workflows/extract_graph.py:295 | a label below every label of a strictly sorted list extends it |
| ProposalTable.InsertLabelSorted | packages/hypergraph/hypergraph/index/workflows/extract_graph.py:295 | insertion keeps a list strictly increasing, so without duplicates |
| ProposalTable.SortedLabelsSorted | packages/hypergraph/hypergraph/index/workflows/extract_graph.py:295 | `sorted(set(values))` is strictly increasing |
| ProposalTable.Aggregate | packages/hypergraph/hypergraph/index/workflows/extract_graph.py:292-300 | an aggregated row carries the key of its group |
| ProposalTable.AggregateRawLabels | packages/hypergraph/hypergraph/index/workflows/extract_graph.py:295 | a row's `raw_labels` are strictly sorted and are exactly the raw labels of its group |
| ProposalTable.AggregateSamples | packages/hypergraph/hypergraph/index/workflows/extract_graph.py:296-299 | a row's samples are the first `min(3, n)` of the `n` distinct, non-empty, stripped samples of its group in record order; so they are pairwise distinct, each comes from a record of the group, and a group with any non-blank sample keeps at least one |
| ProposalTable.AggregateCountsRelationships | packages/hypergraph/hypergraph/index/workflows/extract_graph.py:294 | a relationship row's `occurrences` is the number of its records |
| ProposalTable.BeforeIrreflexive | packages/hypergraph/hypergraph/index/workflows/extract_graph.py:301 | the row order is irreflexive |
| ProposalTable.BeforeTransitive | packages/hypergraph/hypergraph/index/workflows/extract_graph.py:301 | the row order is transitive |
| ProposalTable.BeforeTotal | packages/hypergraph/hypergraph/index/workflows/extract_graph.py:292-301 | rows with different keys are ordered one way or the other |
| ProposalTable.InsertRow | packages/hypergraph/hypergraph/index/workflows/extract_graph.py:301 | insertion adds exactly the new row (as a multiset) |
| ProposalTable.SortRows | packages/hypergraph/hypergraph/index/workflows/extract_graph.py:301 | sorting is a permutation of the rows |
| ProposalTable.RowsSortedCons | packages/hypergraph/hypergraph/index/workflows/extract_graph.py:301 | a row before every row of a sorted list extends it |
| ProposalTable.InsertRowSorted | packages/hypergraph/hypergraph/index/workflows/extract_graph.py:301 | insertion of a row with a new key keeps the rows sorted |
| ProposalTable.SortRowsSorted | packages/hypergraph/hypergraph/index/workflows/extract_graph.py:301 | rows with distinct keys come out sorted: occurrences descending, then canonical label ascending, entity before relationship |
| ProposalTable.Aggregates | packages/hypergraph/hypergraph/index/workflows/extract_graph.py:292-300 | one aggregated row per group key, in order |
| ProposalTable.ConsolidatedRowSource | packages/hypergraph/hypergraph/index/workflows/extract_graph.py:290-303 | every consolidated row is the aggregate of a group some record belongs to |
| ProposalTable.RecordGroupConsolidated | packages/hypergraph/hypergraph/index/workflows/extract_graph.py:290-303 | every record's group appears as a row |
| ProposalTable.ConsolidateSorted | packages/hypergraph/hypergraph/index/workflows/extract_graph.py:290-303 | the consolidated rows are sorted and have pairwise distinct keys |
| ProposalTable.BuildTypeProposals | packages/hypergraph/hypergraph/index/workflows/extract_graph.py:260-304 | the table always has exactly the `TYPE_PROPOSALS_COLUMNS` |
| ProposalTable.ProposalRecordsOk | packages/hypergraph/hypergraph/index/workflows/extract_graph.py:269-284 | a kind whose strict flag is set contributes no record; every record is a valid record of its kind against that kind's allowed keys |
| ProposalTable.BuildTypeProposalsEmpty | packages/hypergraph/hypergraph/index/workflows/extract_graph.py:286-287 | the table has no rows exactly when there are no records, and is then the empty table with the columns |
| ProposalTable.NothingToPropose | packages/hypergraph/hypergraph/index/workflows/extract_graph.py:269-287 | with each kind strict or without raw rows, the result is the empty table with the columns |
| ProposalTable.BuildTypeProposalsOrdered | packages/hypergraph/hypergraph/index/workflows/extract_graph.py:290-303 | the rows are sorted by occurrences descending then canonical label ascending, one row per `(proposal_kind, canonical_label)` |
| ProposalTable.BuildTypeProposalsRow | packages/hypergraph/hypergraph/index/workflows/extract_graph.py:269-303 | every row is the aggregate of its group, has a non-empty canonical label of a non-strict kind that is not allowed, and a relationship row counts its records |
| ProposalTable.BuildTypeProposalsComplete | packages/hypergraph/hypergraph/index/workflows/extract_graph.py:290-303 | every record's group is a row of the table |
| ExtractGraph.CheckExtraction | packages/hypergraph/hypergraph/index/workflows/extract_graph.py:188-202 | extraction succeeds exactly when both tables are non-empty; no entities is reported first, then no relationships; the raw copies are the extracted tables |
| ExtractGraph.ExtractionErrorsDiffer | packages/hypergraph/hypergraph/index/workflows/extract_graph.py:188-198 | the two failure messages differ: each names what was missing right after the same opening |
| ExtractGraph.ExtractionFeedsProposals | packages/hypergraph/hypergraph/index/workflows/extract_graph.py:200-202 | after a successful guard, each non-strict kind's records come from its collector over the whole raw table |
| ExtractGraphConfig.AnyNonBlankIff | packages/hypergraph/hypergraph/config/models/extract_graph_config.py:71-73 | `any(item.strip() for item in items)` holds exactly when some item is not blank |
| ExtractGraphConfig.ValidateStrictTypeSettings | packages/hypergraph/hypergraph/config/models/extract_graph_config.py:89 | an accepted config is returned unchanged |
| ExtractGraphConfig.ValidateStrictTypeSettingsIff | packages/hypergraph/hypergraph/config/models/extract_graph_config.py:68-89 | a config is accepted exactly when each strict kind lists a non-blank type; the entity error wins when both fail |
| ExtractGraphConfig.NonStrictAlwaysValid | packages/hypergraph/hypergraph/config/models/extract_graph_config.py:68-89 | with both flags off any type lists are accepted |
| ExtractGraphConfig.ErrorNamesTheFlag | packages/hypergraph/hypergraph/config/models/extract_graph_config.py:74-86 | each error message opens with `extract_graph.` followed by its strict flag |
| ExtractGraphConfig.StrictErrorsDiffer | packages/hypergraph/hypergraph/config/models/extract_graph_config.py:74-86 | the two error messages differ |
| ExtractGraphConfig.BlankEntityTypesRejected | tests/unit/config/test_config.py:83-92 | `[" "]` with strict entity types is rejected on the entity setting |
| ExtractGraphConfig.NoRelationshipTypesRejected | tests/unit/config/test_config.py:95-104 | no relationship types with strict relationship types is rejected on the relationship setting |
| ExtractGraphConfig.StrictFlagsCanBeEnabled | tests/unit/config/test_config.py:107-120 | `["person"]` and `["works_with"]` with both flags set are accepted with the flags kept |
| UpdateCleanState.PipelineRunContext.constructor | packages/hypergraph/hypergraph/index/workflows/update_clean_state.py:17 | a context starts with the given state |
| UpdateCleanState.RunWorkflow | packages/hypergraph/hypergraph/index/workflows/update_clean_state.py:21-31 | the new state is the old state without the `incremental_update_` keys; the result is `None` |
| UpdateCleanState.CleanedHasNoIncrementalKey | packages/hypergraph/hypergraph/index/workflows/update_clean_state.py:21-28 | no prefixed key survives |
| UpdateCleanState.CleanedKeepsOthers | packages/hypergraph/hypergraph/index/workflows/update_clean_state.py:21-28 | every other key is kept with its value |
| UpdateCleanState.CleanedKeys | packages/hypergraph/hypergraph/index/workflows/update_clean_state.py:21-28 | the new keys are the old keys minus the prefixed ones |
| UpdateCleanState.CleanedIdempotent | packages/hypergraph/hypergraph/index/workflows/update_clean_state.py:21-28 | running the step twice equals running it once |
| UpdateCleanState.PrefixedKeyIsIncremental | packages/hypergraph/hypergraph/index/workflows/update_clean_state.py:24 | every key built from the prefix counts as incremental |
| UpdateCleanState.UpdateKeysRemoved | packages/hypergraph/hypergraph/index/workflows/update_clean_state.py:21-28 | the five keys the update workflows write are all removed |
| Factory.Factory.constructor | packages/hypergraph-llm/hypergraph_llm/completion/completion_factory.py:33 | a new registry is empty |
| Factory.Factory.Register | packages/hypergraph-llm/hypergraph_llm/completion/completion_factory.py:52 | registering sets one strategy's initializer and scope and touches no other |
| Factory.Factory.Create | packages/hypergraph-llm/hypergraph_llm/completion/completion_factory.py:136-150 | the registry builds with the registered initializer and scope and the given init args |
| CompletionFactory.ModelIdParts | packages/hypergraph-llm/hypergraph_llm/completion/completion_factory.py:82 | `model_id` is the provider, `/`, then the model |
| CompletionFactory.ExtraArgs | packages/hypergraph-llm/hypergraph_llm/completion/completion_factory.py:84 | `model_extra or {}`: no extra fields give no arguments, otherwise one per field |
| CompletionFactory.RegisterCompletion | packages/hypergraph-llm/hypergraph_llm/completion/completion_factory.py:36-52 | registration with the default scope `transient` |
| CompletionFactory.CreateCompletion | packages/hypergraph-llm/hypergraph_llm/completion/completion_factory.py:55-150 | the registry afterwards and the result are those of the dispatch specification |
| CompletionFactory.UnknownStrategyFails | packages/hypergraph-llm/hypergraph_llm/completion/completion_factory.py:107-109 | an unregistered strategy that is not built in fails, naming the registered strategies, and the registry is unchanged |
| CompletionFactory.RegisteredStrategyUsedAsIs | packages/hypergraph-llm/hypergraph_llm/completion/completion_factory.py:86 | a registered strategy, a custom override of a built-in included, is not registered again and is built as registered |
| CompletionFactory.BuiltinsRegisteredOnFirstUse | packages/hypergraph-llm/hypergraph_llm/completion/completion_factory.py:86-106 | an unregistered LiteLLM is registered as a singleton, MockLLM as transient, nothing else changes |
| CompletionFactory.DispatchIdempotent | packages/hypergraph-llm/hypergraph_llm/completion/completion_factory.py:86-109 | a second call finds the registry as the first left it and builds the same thing |
| CompletionFactory.ModelInitArgs | packages/hypergraph-llm/hypergraph_llm/completion/completion_factory.py:111-142 | `model_id`, `model_config`, and the passed tokenizer or one created for the model id |
| CompletionFactory.OptionalInitArgs | packages/hypergraph-llm/hypergraph_llm/completion/completion_factory.py:113-146 | rate limiter and retrier are `None` exactly when their section is missing; without metrics the store is the no-op store and the processor `None` |
| CompletionFactory.CacheInitArgs | packages/hypergraph-llm/hypergraph_llm/completion/completion_factory.py:81-148 | the cache is passed as given and the key creator defaults to `create_cache_key` |
| CompletionFactory.ExtraInitArgs | packages/hypergraph-llm/hypergraph_llm/completion/completion_factory.py:138-149 | the named keys override same-named extra fields, other extra fields pass through, nothing else is added |
| InputReaderFactory.DumpArgs | packages/hypergraph-input/hypergraph_input/input_reader_factory.py:59 | the dumped config as init arguments, key for key |
| InputReaderFactory.RegisterInputReader | packages/hypergraph-input/hypergraph_input/input_reader_factory.py:27-41 | registration with the default scope `transient` |
| InputReaderFactory.CreateInputReader | packages/hypergraph-input/hypergraph_input/input_reader_factory.py:44-90 | the registry afterwards and the result are those of the dispatch specification |
| InputReaderFactory.UnknownInputTypeFails | packages/hypergraph-input/hypergraph_input/input_reader_factory.py:84-86 | an unregistered type that is not built in fails, naming the registered types, and the registry is unchanged |
| InputReaderFactory.RegisteredReaderUsedAsIs | packages/hypergraph-input/hypergraph_input/input_reader_factory.py:62 | a registered type is not registered again and is built as registered |
| InputReaderFactory.BuiltinReadersRegisteredOnFirstUse | packages/hypergraph-input/hypergraph_input/input_reader_factory.py:62-83 | each unregistered built-in type is registered, transient, with its own reader; nothing else changes |
| InputReaderFactory.BuiltinReadersDistinct | packages/hypergraph-input/hypergraph_input/input_reader_factory.py:64-83 | different built-in types get different readers |
| InputReaderFactory.ReaderDispatchIdempotent | packages/hypergraph-input/hypergraph_input/input_reader_factory.py:62-90 | a second call finds the registry as the first left it and builds the same thing |
| InputReaderFactory.StorageInitArg | packages/hypergraph-input/hypergraph_input/input_reader_factory.py:59-90 | `storage` is the passed storage, overriding any dumped value; every other dumped field is passed through and nothing else is added |

## Left out

- `clean_str` is not part of this model; it is taken to be the identity on strings (`TypeLabels.CleanStr`).
- Unicode: whitespace, `\s` and `str.lower` are modelled over ASCII only; Unicode case mapping and Unicode spaces are not.
- The language-model steps around the guard (extraction, entity resolution, description summarization), the reading of text units and the writing of tables are I/O against external models and storage, and are not modelled.
- pandas beyond what the consolidation uses: a table is a sequence of records, a cell is a string, a list, an integer or missing. `int(row.get("frequency", 1))` is modelled for integer or missing frequencies only; a `NaN` or non-numeric frequency, which makes the source raise, is not.
- `raw_labels` holds strings only, since both collectors emit string labels; Python's ordering of mixed types is not needed.
- The sort order of equal occurrences and equal canonical labels (entity before relationship) follows from pandas sorting the groups by key and `sort_values` being stable for a two-column sort; the model states the resulting order directly.
- TypeLabels.CanonicalIdempotent: requires a label whose stripped form has no `_`, `-` or `/` at either end, because the code is not idempotent on other labels (`TypeLabels.EdgeSeparatorNotIdempotent`).
- CompletionFactory.CreateCompletion: a provider is a built-in constructor or `OtherProvider(name)`, so the model assumes that no custom provider name equals the string value of a built-in provider. The values of the provider enum are not part of this model. The source compares the names as values, so a custom completion registered under a built-in's value would be found and used. The model does not capture that case.
- InputReaderFactory.CreateInputReader: an input type is a built-in constructor or `OtherInput(name)`, so the model assumes that no custom type name equals the string value of a built-in input type. The values of the input-type enum are not part of this model. The source compares the names as values, so a custom reader registered under a built-in's value would be found and used. The model does not capture that case.
- The message of an unknown strategy is modelled as the strategy and the set of registered strategies; the order in which the source lists them in the text, and the exact text, are not modelled.
- The factory's own instance building and singleton caching are not part of this model; `Factory.Factory.Create` records the initializer, scope and init arguments it is called with.
- The collaborators `create_completion` builds (tokenizer, rate limiter, retrier, metrics store and processor) are modelled as values naming their configuration; their behaviour is not modelled.
- `model_dump()` of the input config is modelled as a given map of field names to values; pydantic serialization is not modelled.
- The order in which `update_clean_state` deletes keys, and logging everywhere, are not modelled; the resulting state does not depend on the order.
- `resolved_prompts` reads a prompt file and is not modelled.

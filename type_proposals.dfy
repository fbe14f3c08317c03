/**
  The proposal records of the graph-extraction workflow: every raw entity row and
  every relationship description whose type label is not in the configured
  allow-list yields one record naming the raw label, its canonical label, an
  occurrence count and a sample description.
*/
module TypeProposals {
  import opened Wrappers
  import opened Text
  import opened Cells
  import opened TypeLabels

  datatype ProposalKind = EntityKind | RelationshipKind

  /** The `proposal_kind` column value. */
  function KindName(kind: ProposalKind): string
  {
    match kind
    case EntityKind => "entity"
    case RelationshipKind => "relationship"
  }

  /** The columns of a raw entity row the collector reads: `type`, `description` and
      `frequency` (`None` when the row has no frequency). */
  datatype EntityRow = EntityRow(entityType: Cell, description: Cell, frequency: Option<int>)

  /** The column of a raw relationship row the collector reads. */
  datatype RelationshipRow = RelationshipRow(description: Cell)

  datatype ProposalRecord = ProposalRecord(
    kind: ProposalKind,
    rawLabel: string,
    canonicalLabel: string,
    occurrences: int,
    sampleDescription: string)

  /** `_build_allowed_keys`: the non-empty canonical labels of the configured types. */
  function AllowedKeys(labels: seq<string>): (keys: set<string>)
    ensures [] !in keys
    ensures forall l :: l in labels && CanonicalTypeLabel(l) != [] ==> CanonicalTypeLabel(l) in keys
    ensures forall k :: k in keys ==> exists l :: l in labels && CanonicalTypeLabel(l) == k
  {
    set l | l in labels && CanonicalTypeLabel(l) != [] :: CanonicalTypeLabel(l)
  }

  /** The text before the first colon. */
  function BeforeColon(s: string): (r: string)
    requires ':' in s
    ensures |r| < |s| && r == s[..|r|] && s[|r|] == ':' && ':' !in r
  {
    if s[0] == ':' then []
    else
      assert ':' in s[1..] by {
        var i :| 0 <= i < |s| && s[i] == ':';
        assert s[1..][i - 1] == ':';
      }
      [s[0]] + BeforeColon(s[1..])
  }

  /** `_extract_relationship_label`: the cleaned, stripped text before the first colon
      of a `<label>: description` string, when there is a colon and that text is not
      blank. */
  function RelationshipLabel(description: string): Option<string>
  {
    if ':' !in description then None
    else
      var normalized := Strip(CleanStr(BeforeColon(description)));
      if normalized == [] then None else Some(normalized)
  }

  /** A relationship label is found only in a description with a colon, and it is
      non-blank, stripped and free of colons. */
  lemma RelationshipLabelShape(description: string)
    ensures ':' !in description ==> RelationshipLabel(description).None?
    ensures RelationshipLabel(description).Some? ==>
      var found := RelationshipLabel(description).value;
      found != [] && Strip(found) == found && ':' !in found
  {
    if ':' in description {
      var candidate := BeforeColon(description);
      StripChars(candidate);
      StripIdempotent(candidate);
    }
  }

  /** Only the text up to the first colon matters; the rest of the description,
      further colons included, is ignored. */
  lemma {:induction false} RelationshipLabelBeforeColon(prefix: string, rest: string)
    requires ':' !in prefix
    ensures RelationshipLabel(prefix + [':'] + rest) == if Strip(prefix) == [] then None else Some(Strip(prefix))
  {
    BeforeColonPrefix(prefix, rest);
  }

  lemma {:induction false} BeforeColonPrefix(prefix: string, rest: string)
    requires ':' !in prefix
    ensures ':' in prefix + [':'] + rest && BeforeColon(prefix + [':'] + rest) == prefix
  {
    var s := prefix + [':'] + rest;
    assert s[|prefix|] == ':';
    if prefix != [] {
      assert prefix[0] in prefix;
      assert s[1..] == prefix[1..] + [':'] + rest;
      assert ':' !in prefix[1..] by {
        assert forall c :: c in prefix[1..] ==> c in prefix;
      }
      BeforeColonPrefix(prefix[1..], rest);
    }
  }

  /** The record one raw entity row yields, if any. */
  function EntityProposal(row: EntityRow, allowed: set<string>): (r: Option<ProposalRecord>)
    ensures r.None? <==>
      !row.entityType.Str? || Strip(row.entityType.s) == [] || CanonicalTypeLabel(Strip(row.entityType.s)) in allowed
    ensures r.Some? ==> r.value.kind == EntityKind && r.value.rawLabel == Strip(row.entityType.s)
    ensures r.Some? ==> r.value.occurrences == if row.frequency.Some? then row.frequency.value else 1
    ensures r.Some? && row.description.Str? ==> r.value.sampleDescription == row.description.s
    ensures r.Some? && !row.description.Str? && !row.description.List? ==> r.value.sampleDescription == []
    ensures r.Some? && row.description.List? && (forall c :: c in row.description.items ==> !c.Str?) ==>
      r.value.sampleDescription == []
    ensures r.Some? && row.description.List? && (exists c :: c in row.description.items && c.Str?) ==>
      exists i :: 0 <= i < |row.description.items| && row.description.items[i] == Str(r.value.sampleDescription)
        && forall j :: 0 <= j < i ==> !row.description.items[j].Str?
  {
    if !row.entityType.Str? then None
    else
      var rawLabel := Strip(CleanStr(row.entityType.s));
      if rawLabel == [] then None
      else
        var canonicalLabel := CanonicalTypeLabel(rawLabel);
        if canonicalLabel in allowed then None
        else
          var sampleDescriptions := PrepDescriptions(row.description);
          PrepDescriptionsFirst(row.description);
          var sample := if sampleDescriptions != [] then sampleDescriptions[0] else "";
          Some(ProposalRecord(EntityKind, rawLabel, canonicalLabel, row.frequency.GetOr(1), sample))
  }

  /** `_collect_entity_proposals` as a value: the records of the rows, in row order. */
  function EntityProposals(rows: seq<EntityRow>, allowed: set<string>): (records: seq<ProposalRecord>)
    ensures |records| <= |rows|
  {
    if rows == [] then []
    else
      var last := EntityProposal(rows[|rows| - 1], allowed);
      EntityProposals(rows[..|rows| - 1], allowed) + if last.Some? then [last.value] else []
  }

  /** `_collect_entity_proposals` as the source runs it: one pass over the rows,
      appending a record for every row that is not skipped. */
  method CollectEntityProposals(rows: seq<EntityRow>, allowed: set<string>) returns (records: seq<ProposalRecord>)
    ensures records == EntityProposals(rows, allowed)
  {
    records := [];
    for i := 0 to |rows|
      invariant records == EntityProposals(rows[..i], allowed)
    {
      var row := rows[i];
      assert rows[..i + 1][..i] == rows[..i];
      if !row.entityType.Str? {
        continue;
      }
      var rawLabel := Strip(CleanStr(row.entityType.s));
      if rawLabel == [] {
        continue;
      }
      var canonicalLabel := CanonicalizeTypeLabel(rawLabel);
      if canonicalLabel in allowed {
        continue;
      }
      var sampleDescriptions := PrepDescriptions(row.description);
      var sample := if sampleDescriptions != [] then sampleDescriptions[0] else "";
      records := records + [ProposalRecord(EntityKind, rawLabel, canonicalLabel, row.frequency.GetOr(1), sample)];
    }
    assert rows[..|rows|] == rows;
  }

  /** The record one relationship description yields, if any. */
  function RelationshipProposal(description: string, allowed: set<string>): Option<ProposalRecord>
  {
    match RelationshipLabel(description)
    case None => None
    case Some(rawLabel) =>
      var canonicalLabel := CanonicalTypeLabel(rawLabel);
      if canonicalLabel in allowed then None
      else Some(ProposalRecord(RelationshipKind, rawLabel, canonicalLabel, 1, description))
  }

  /** The records of the descriptions of one relationship row, in order: at most one
      per description. */
  function DescriptionProposals(descriptions: seq<string>, allowed: set<string>): (records: seq<ProposalRecord>)
    ensures |records| <= |descriptions|
  {
    if descriptions == [] then []
    else
      var last := RelationshipProposal(descriptions[|descriptions| - 1], allowed);
      DescriptionProposals(descriptions[..|descriptions| - 1], allowed) + if last.Some? then [last.value] else []
  }

  /** The records of one relationship row. */
  function RowProposals(row: RelationshipRow, allowed: set<string>): seq<ProposalRecord>
  {
    DescriptionProposals(PrepDescriptions(row.description), allowed)
  }

  /** `_collect_relationship_proposals` as a value: the records of the rows, in row
      order. */
  function RelationshipProposals(rows: seq<RelationshipRow>, allowed: set<string>): seq<ProposalRecord>
  {
    if rows == [] then []
    else RelationshipProposals(rows[..|rows| - 1], allowed) + RowProposals(rows[|rows| - 1], allowed)
  }

  /** `_collect_relationship_proposals` as the source runs it: a pass over the rows
      and, inside it, over the string descriptions of each row. */
  method CollectRelationshipProposals(rows: seq<RelationshipRow>, allowed: set<string>)
    returns (records: seq<ProposalRecord>)
    ensures records == RelationshipProposals(rows, allowed)
  {
    records := [];
    for i := 0 to |rows|
      invariant records == RelationshipProposals(rows[..i], allowed)
    {
      var descriptions := PrepDescriptions(rows[i].description);
      RelationshipProposalsStep(rows, i, allowed);
      ghost var before := records;
      for j := 0 to |descriptions|
        invariant records == before + DescriptionProposals(descriptions[..j], allowed)
      {
        var description := descriptions[j];
        var rawLabel := RelationshipLabel(description);
        if rawLabel.None? {
          DescriptionSkipped(descriptions, j, allowed);
          continue;
        }
        var canonicalLabel := CanonicalizeTypeLabel(rawLabel.value);
        if canonicalLabel in allowed {
          DescriptionSkipped(descriptions, j, allowed);
          continue;
        }
        var record := ProposalRecord(RelationshipKind, rawLabel.value, canonicalLabel, 1, description);
        DescriptionKept(before, descriptions, j, allowed, record);
        records := records + [record];
      }
      assert descriptions[..|descriptions|] == descriptions;
      assert records == before + RowProposals(rows[i], allowed);
    }
    assert rows[..|rows|] == rows;
  }

  /** One more row extends the records by the row's own. */
  lemma RelationshipProposalsStep(rows: seq<RelationshipRow>, i: nat, allowed: set<string>)
    requires i < |rows|
    ensures RelationshipProposals(rows[..i + 1], allowed) == RelationshipProposals(rows[..i], allowed) + RowProposals(rows[i], allowed)
  {
    assert rows[..i + 1][..i] == rows[..i];
  }

  /** A description that yields no record leaves the records as they are. */
  lemma DescriptionSkipped(descriptions: seq<string>, j: nat, allowed: set<string>)
    requires j < |descriptions| && RelationshipProposal(descriptions[j], allowed).None?
    ensures DescriptionProposals(descriptions[..j + 1], allowed) == DescriptionProposals(descriptions[..j], allowed)
  {
    assert descriptions[..j + 1][..j] == descriptions[..j];
  }

  /** A description that yields a record appends it. */
  lemma DescriptionKept(before: seq<ProposalRecord>, descriptions: seq<string>, j: nat, allowed: set<string>, record: ProposalRecord)
    requires j < |descriptions| && RelationshipProposal(descriptions[j], allowed) == Some(record)
    ensures before + DescriptionProposals(descriptions[..j + 1], allowed) == before + DescriptionProposals(descriptions[..j], allowed) + [record]
  {
    assert descriptions[..j + 1][..j] == descriptions[..j];
  }

  /** What every entity record says: a stripped, non-blank raw label, its canonical
      label, which is non-empty and not allowed. */
  predicate EntityRecordOk(r: ProposalRecord, allowed: set<string>)
  {
    && r.kind == EntityKind
    && r.rawLabel != [] && Strip(r.rawLabel) == r.rawLabel
    && r.canonicalLabel == CanonicalTypeLabel(r.rawLabel)
    && r.canonicalLabel != []
    && r.canonicalLabel !in allowed
  }

  /** What every relationship record says: one occurrence, the label taken from its
      own sample description, and a canonical label that is non-empty and not
      allowed. */
  predicate RelationshipRecordOk(r: ProposalRecord, allowed: set<string>)
  {
    && r.kind == RelationshipKind
    && r.occurrences == 1
    && RelationshipLabel(r.sampleDescription) == Some(r.rawLabel)
    && r.canonicalLabel == CanonicalTypeLabel(r.rawLabel)
    && r.canonicalLabel != []
    && r.canonicalLabel !in allowed
  }

  lemma EntityProposalOk(row: EntityRow, allowed: set<string>)
    requires EntityProposal(row, allowed).Some?
    ensures EntityRecordOk(EntityProposal(row, allowed).value, allowed)
  {
    var raw := Strip(row.entityType.s);
    StripIdempotent(row.entityType.s);
    CanonicalEmptyIffBlank(raw);
  }

  lemma RelationshipProposalOk(description: string, allowed: set<string>)
    requires RelationshipProposal(description, allowed).Some?
    ensures RelationshipRecordOk(RelationshipProposal(description, allowed).value, allowed)
  {
    RelationshipLabelShape(description);
    CanonicalEmptyIffBlank(RelationshipLabel(description).value);
  }

  /** Every collected entity record comes from some row. */
  lemma {:induction false} EntityRecordSource(rows: seq<EntityRow>, allowed: set<string>, r: ProposalRecord)
    requires r in EntityProposals(rows, allowed)
    ensures exists i :: 0 <= i < |rows| && EntityProposal(rows[i], allowed) == Some(r)
  {
    var init := rows[..|rows| - 1];
    if r in EntityProposals(init, allowed) {
      EntityRecordSource(init, allowed, r);
      var i :| 0 <= i < |init| && EntityProposal(init[i], allowed) == Some(r);
      assert rows[i] == init[i];
    } else {
      assert EntityProposal(rows[|rows| - 1], allowed) == Some(r);
    }
  }

  /** Every record a row yields is collected. */
  lemma {:induction false} EntityRecordCollected(rows: seq<EntityRow>, allowed: set<string>, i: nat)
    requires i < |rows| && EntityProposal(rows[i], allowed).Some?
    ensures EntityProposal(rows[i], allowed).value in EntityProposals(rows, allowed)
  {
    if i < |rows| - 1 {
      var init := rows[..|rows| - 1];
      assert init[i] == rows[i];
      EntityRecordCollected(init, allowed, i);
    }
  }

  /** Every collected entity record is well formed and never names an allowed type. */
  lemma EntityProposalsOk(rows: seq<EntityRow>, allowed: set<string>)
    ensures forall r :: r in EntityProposals(rows, allowed) ==> EntityRecordOk(r, allowed)
  {
    forall r | r in EntityProposals(rows, allowed) ensures EntityRecordOk(r, allowed) {
      EntityRecordSource(rows, allowed, r);
      var i :| 0 <= i < |rows| && EntityProposal(rows[i], allowed) == Some(r);
      EntityProposalOk(rows[i], allowed);
    }
  }

  /** Every record of a row's descriptions comes from one of them. */
  lemma {:induction false} DescriptionRecordSource(descriptions: seq<string>, allowed: set<string>, r: ProposalRecord)
    requires r in DescriptionProposals(descriptions, allowed)
    ensures exists k :: 0 <= k < |descriptions| && RelationshipProposal(descriptions[k], allowed) == Some(r)
  {
    var init := descriptions[..|descriptions| - 1];
    if r in DescriptionProposals(init, allowed) {
      DescriptionRecordSource(init, allowed, r);
      var k :| 0 <= k < |init| && RelationshipProposal(init[k], allowed) == Some(r);
      assert descriptions[k] == init[k];
    } else {
      assert RelationshipProposal(descriptions[|descriptions| - 1], allowed) == Some(r);
    }
  }

  /** Every record a description yields is kept for its row. */
  lemma {:induction false} DescriptionRecordCollected(descriptions: seq<string>, allowed: set<string>, k: nat)
    requires k < |descriptions| && RelationshipProposal(descriptions[k], allowed).Some?
    ensures RelationshipProposal(descriptions[k], allowed).value in DescriptionProposals(descriptions, allowed)
  {
    if k < |descriptions| - 1 {
      var init := descriptions[..|descriptions| - 1];
      assert init[k] == descriptions[k];
      DescriptionRecordCollected(init, allowed, k);
    }
  }

  /** Every collected relationship record comes from some row. */
  lemma {:induction false} RelationshipRecordSource(rows: seq<RelationshipRow>, allowed: set<string>, r: ProposalRecord)
    requires r in RelationshipProposals(rows, allowed)
    ensures exists i :: 0 <= i < |rows| && r in RowProposals(rows[i], allowed)
  {
    var init := rows[..|rows| - 1];
    if r in RelationshipProposals(init, allowed) {
      RelationshipRecordSource(init, allowed, r);
      var i :| 0 <= i < |init| && r in RowProposals(init[i], allowed);
      assert rows[i] == init[i];
    }
  }

  /** Every record of every row is collected. */
  lemma {:induction false} RelationshipRecordCollected(rows: seq<RelationshipRow>, allowed: set<string>, i: nat, r: ProposalRecord)
    requires i < |rows| && r in RowProposals(rows[i], allowed)
    ensures r in RelationshipProposals(rows, allowed)
  {
    if i < |rows| - 1 {
      var init := rows[..|rows| - 1];
      assert init[i] == rows[i];
      RelationshipRecordCollected(init, allowed, i, r);
    }
  }

  /** A string description of a row whose label is not allowed yields a collected
      record. */
  lemma DescriptionCollected(rows: seq<RelationshipRow>, allowed: set<string>, i: nat, k: nat)
    requires i < |rows| && k < |PrepDescriptions(rows[i].description)|
    requires RelationshipProposal(PrepDescriptions(rows[i].description)[k], allowed).Some?
    ensures RelationshipProposal(PrepDescriptions(rows[i].description)[k], allowed).value in RelationshipProposals(rows, allowed)
  {
    var ds := PrepDescriptions(rows[i].description);
    DescriptionRecordCollected(ds, allowed, k);
    RelationshipRecordCollected(rows, allowed, i, RelationshipProposal(ds[k], allowed).value);
  }

  /** Every collected relationship record is well formed and never names an allowed
      type. */
  lemma RelationshipProposalsOk(rows: seq<RelationshipRow>, allowed: set<string>)
    ensures forall r :: r in RelationshipProposals(rows, allowed) ==> RelationshipRecordOk(r, allowed)
  {
    forall r | r in RelationshipProposals(rows, allowed) ensures RelationshipRecordOk(r, allowed) {
      RelationshipRecordSource(rows, allowed, r);
      var i :| 0 <= i < |rows| && r in RowProposals(rows[i], allowed);
      var ds := PrepDescriptions(rows[i].description);
      DescriptionRecordSource(ds, allowed, r);
      var k :| 0 <= k < |ds| && RelationshipProposal(ds[k], allowed) == Some(r);
      RelationshipProposalOk(ds[k], allowed);
    }
  }

  /** The number of string descriptions across the rows. */
  function DescriptionCount(rows: seq<RelationshipRow>): nat
  {
    if rows == [] then 0
    else DescriptionCount(rows[..|rows| - 1]) + |PrepDescriptions(rows[|rows| - 1].description)|
  }

  /** At most one relationship record per string description. */
  lemma {:induction false} RelationshipProposalsCount(rows: seq<RelationshipRow>, allowed: set<string>)
    ensures |RelationshipProposals(rows, allowed)| <= DescriptionCount(rows)
  {
    if rows != [] {
      RelationshipProposalsCount(rows[..|rows| - 1], allowed);
    }
  }
}

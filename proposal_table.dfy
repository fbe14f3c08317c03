/**
  `_build_type_proposals`: the collected records are grouped by proposal kind and
  canonical label, each group is folded into one row (summed occurrences, the
  sorted distinct raw labels, up to three sample descriptions), and the rows are
  ordered by occurrences, most first, then by canonical label.
*/
module ProposalTable {
  import opened Text
  import opened Cells
  import opened UniqueValues
  import opened TypeProposals

  /** `TYPE_PROPOSALS_COLUMNS`. */
  const TypeProposalsColumns: seq<string> :=
    ["proposal_kind", "canonical_label", "occurrences", "raw_labels", "sample_descriptions"]

  /** How many sample descriptions a row keeps. */
  const SampleLimit: int := 3

  datatype GroupKey = GroupKey(kind: ProposalKind, canonicalLabel: string)

  /** One row of the consolidated table. */
  datatype TypeProposal = TypeProposal(
    kind: ProposalKind,
    canonicalLabel: string,
    occurrences: int,
    rawLabels: seq<string>,
    sampleDescriptions: seq<string>)

  datatype Table = Table(columns: seq<string>, rows: seq<TypeProposal>)

  function KeyOf(r: ProposalRecord): GroupKey
  {
    GroupKey(r.kind, r.canonicalLabel)
  }

  function RowKey(p: TypeProposal): GroupKey
  {
    GroupKey(p.kind, p.canonicalLabel)
  }

  // ----- grouping -----

  /** The group keys of the records, each once, in order of first occurrence. */
  function GroupKeys(records: seq<ProposalRecord>): seq<GroupKey>
  {
    if records == [] then []
    else
      var keys := GroupKeys(records[..|records| - 1]);
      var key := KeyOf(records[|records| - 1]);
      if key in keys then keys else keys + [key]
  }

  /** No key is listed twice. */
  lemma {:induction false} GroupKeysDistinct(records: seq<ProposalRecord>)
    ensures forall i, j :: 0 <= i < j < |GroupKeys(records)| ==> GroupKeys(records)[i] != GroupKeys(records)[j]
  {
    if records != [] {
      GroupKeysDistinct(records[..|records| - 1]);
    }
  }

  /** A key is listed exactly when some record has it. */
  lemma {:induction false} GroupKeysMembers(records: seq<ProposalRecord>)
    ensures forall k :: k in GroupKeys(records) <==> exists r :: r in records && KeyOf(r) == k
  {
    if records != [] {
      var init := records[..|records| - 1];
      GroupKeysMembers(init);
      assert records == init + [records[|records| - 1]];
    }
  }

  /** The records with the given key, in their original order. */
  function GroupOf(records: seq<ProposalRecord>, key: GroupKey): (group: seq<ProposalRecord>)
    ensures forall r :: r in group <==> r in records && KeyOf(r) == key
  {
    if records == [] then []
    else
      var init := records[..|records| - 1];
      var last := records[|records| - 1];
      assert records == init + [last];
      GroupOf(init, key) + if KeyOf(last) == key then [last] else []
  }

  // ----- aggregation -----

  /** The `occurrences` sum of a group. */
  function TotalOccurrences(group: seq<ProposalRecord>): int
  {
    if group == [] then 0
    else TotalOccurrences(group[..|group| - 1]) + group[|group| - 1].occurrences
  }

  /** A group of single occurrences sums to its size. */
  lemma {:induction false} TotalOccurrencesOfOnes(group: seq<ProposalRecord>)
    requires forall r :: r in group ==> r.occurrences == 1
    ensures TotalOccurrences(group) == |group|
  {
    if group != [] {
      var init := group[..|group| - 1];
      assert forall r :: r in init ==> r in group;
      TotalOccurrencesOfOnes(init);
      assert group[|group| - 1] in group;
    }
  }

  /** A group whose counts are all non-negative sums to at least the largest of them. */
  lemma {:induction false} TotalOccurrencesBound(group: seq<ProposalRecord>, r: ProposalRecord)
    requires forall x :: x in group ==> x.occurrences >= 0
    requires r in group
    ensures TotalOccurrences(group) >= r.occurrences
  {
    var init := group[..|group| - 1];
    assert forall x :: x in init ==> x in group;
    assert group == init + [group[|group| - 1]];
    if r in init {
      TotalOccurrencesBound(init, r);
      TotalOccurrencesNonNegative(init);
    } else {
      TotalOccurrencesNonNegative(init);
    }
  }

  lemma {:induction false} TotalOccurrencesNonNegative(group: seq<ProposalRecord>)
    requires forall x :: x in group ==> x.occurrences >= 0
    ensures TotalOccurrences(group) >= 0
  {
    if group != [] {
      var init := group[..|group| - 1];
      assert forall x :: x in init ==> x in group;
      TotalOccurrencesNonNegative(init);
      assert group[|group| - 1] in group;
    }
  }

  function RawLabelsOf(group: seq<ProposalRecord>): (labels: seq<string>)
    ensures |labels| == |group|
    ensures forall i :: 0 <= i < |group| ==> labels[i] == group[i].rawLabel
  {
    seq(|group|, i requires 0 <= i < |group| => group[i].rawLabel)
  }

  /** The sample descriptions of a group as the cells of a column. */
  function SampleCellsOf(group: seq<ProposalRecord>): (cells: seq<Cell>)
    ensures |cells| == |group|
    ensures forall i :: 0 <= i < |group| ==> cells[i] == Str(group[i].sampleDescription)
  {
    seq(|group|, i requires 0 <= i < |group| => Str(group[i].sampleDescription))
  }

  predicate StrictlySorted(s: seq<string>)
  {
    forall i, j :: 0 <= i < j < |s| ==> StrLess(s[i], s[j])
  }

  /** Insert a string into a strictly sorted list, unless it is already there. */
  function InsertLabel(x: string, s: seq<string>): (r: seq<string>)
    ensures forall y :: y in r <==> y == x || y in s
  {
    if s == [] then [x]
    else if x == s[0] then s
    else if StrLess(x, s[0]) then [x] + s
    else
      assert forall y :: y in s <==> y == s[0] || y in s[1..];
      [s[0]] + InsertLabel(x, s[1..])
  }

  /** `sorted(set(values))`. */
  function SortedLabels(xs: seq<string>): (r: seq<string>)
    ensures forall y :: y in r <==> y in xs
  {
    if xs == [] then []
    else
      var init := xs[..|xs| - 1];
      assert xs == init + [xs[|xs| - 1]];
      InsertLabel(xs[|xs| - 1], SortedLabels(init))
  }

  lemma StrictlySortedCons(h: string, t: seq<string>)
    requires StrictlySorted(t)
    requires forall y :: y in t ==> StrLess(h, y)
    ensures StrictlySorted([h] + t)
  {
    var s := [h] + t;
    forall i, j | 0 <= i < j < |s| ensures StrLess(s[i], s[j]) {
      if i > 0 {
        assert s[i] == t[i - 1] && s[j] == t[j - 1];
      } else {
        assert s[j] == t[j - 1];
      }
    }
  }

  lemma {:induction false} InsertLabelSorted(x: string, s: seq<string>)
    requires StrictlySorted(s)
    ensures StrictlySorted(InsertLabel(x, s))
  {
    if s == [] {
    } else if x == s[0] {
    } else if StrLess(x, s[0]) {
      forall y | y in s ensures StrLess(x, y) {
        var j :| 0 <= j < |s| && s[j] == y;
        if j > 0 {
          StrLessTransitive(x, s[0], y);
        }
      }
      StrictlySortedCons(x, s);
    } else {
      var t := s[1..];
      assert StrictlySorted(t) by {
        forall i, j | 0 <= i < j < |t| ensures StrLess(t[i], t[j]) {
          assert t[i] == s[i + 1] && t[j] == s[j + 1];
        }
      }
      InsertLabelSorted(x, t);
      StrLessTotal(x, s[0]);
      forall y | y in InsertLabel(x, t) ensures StrLess(s[0], y) {
        if y != x {
          var j :| 0 <= j < |t| && t[j] == y;
          assert s[j + 1] == y;
        }
      }
      StrictlySortedCons(s[0], InsertLabel(x, t));
    }
  }

  /** `sorted(set(values))` is strictly increasing. */
  lemma {:induction false} SortedLabelsSorted(xs: seq<string>)
    ensures StrictlySorted(SortedLabels(xs))
  {
    if xs != [] {
      SortedLabelsSorted(xs[..|xs| - 1]);
      InsertLabelSorted(xs[|xs| - 1], SortedLabels(xs[..|xs| - 1]));
    }
  }

  /** The row of one group. */
  function Aggregate(records: seq<ProposalRecord>, key: GroupKey): (p: TypeProposal)
    ensures RowKey(p) == key
  {
    var group := GroupOf(records, key);
    TypeProposal(
      key.kind,
      key.canonicalLabel,
      TotalOccurrences(group),
      SortedLabels(RawLabelsOf(group)),
      FirstDistinct(SampleCellsOf(group), SampleLimit))
  }

  /** The raw labels of a row are strictly increasing and are exactly the raw labels
      of the records of its group. */
  lemma AggregateRawLabels(records: seq<ProposalRecord>, key: GroupKey)
    ensures StrictlySorted(Aggregate(records, key).rawLabels)
    ensures forall x :: x in Aggregate(records, key).rawLabels <==>
      exists r :: r in records && KeyOf(r) == key && r.rawLabel == x
  {
    var group := GroupOf(records, key);
    var labels := RawLabelsOf(group);
    SortedLabelsSorted(labels);
    forall x | x in labels ensures exists r :: r in records && KeyOf(r) == key && r.rawLabel == x {
      var i :| 0 <= i < |group| && labels[i] == x;
      assert group[i] in group;
    }
    forall r | r in records && KeyOf(r) == key ensures r.rawLabel in labels {
      var i :| 0 <= i < |group| && group[i] == r;
      assert labels[i] == r.rawLabel;
    }
  }

  /** The sample descriptions of a row: at most three, pairwise distinct, each the
      non-empty stripped sample of some record of its group. */
  lemma AggregateSamples(records: seq<ProposalRecord>, key: GroupKey)
    ensures |Aggregate(records, key).sampleDescriptions| <= SampleLimit
    ensures forall i, j :: 0 <= i < j < |Aggregate(records, key).sampleDescriptions| ==>
      Aggregate(records, key).sampleDescriptions[i] != Aggregate(records, key).sampleDescriptions[j]
    ensures forall x :: x in Aggregate(records, key).sampleDescriptions ==>
      x != [] && exists r :: r in records && KeyOf(r) == key && Strip(r.sampleDescription) == x
    ensures Aggregate(records, key).sampleDescriptions <= Distinct(SampleCellsOf(GroupOf(records, key)))
    ensures |Aggregate(records, key).sampleDescriptions|
      == if |Distinct(SampleCellsOf(GroupOf(records, key)))| <= SampleLimit
         then |Distinct(SampleCellsOf(GroupOf(records, key)))| else SampleLimit
    ensures (exists r :: r in records && KeyOf(r) == key && Strip(r.sampleDescription) != []) ==>
      Aggregate(records, key).sampleDescriptions != []
  {
    var group := GroupOf(records, key);
    var cells := SampleCellsOf(group);
    var samples := Aggregate(records, key).sampleDescriptions;
    var d := Distinct(cells);
    assert samples <= d;
    DistinctNoDuplicates(cells);
    DistinctMembers(cells);
    forall i, j | 0 <= i < j < |samples| ensures samples[i] != samples[j] {
      assert samples[i] == d[i] && samples[j] == d[j];
    }
    forall x | x in samples ensures x != [] && exists r :: r in records && KeyOf(r) == key && Strip(r.sampleDescription) == x {
      var k :| 0 <= k < |samples| && samples[k] == x;
      assert x in d by { assert d[k] == x; }
      var i :| 0 <= i < |cells| && cells[i].Str? && Strip(cells[i].s) == x;
      assert group[i] in group;
    }
    if exists r :: r in records && KeyOf(r) == key && Strip(r.sampleDescription) != [] {
      var r :| r in records && KeyOf(r) == key && Strip(r.sampleDescription) != [];
      assert r in group;
      var i :| 0 <= i < |group| && group[i] == r;
      assert cells[i] == Str(r.sampleDescription);
      assert Strip(r.sampleDescription) in d;
    }
  }

  /** A relationship group counts its records. */
  lemma AggregateCountsRelationships(records: seq<ProposalRecord>, key: GroupKey)
    requires forall r :: r in records && r.kind == RelationshipKind ==> r.occurrences == 1
    requires key.kind == RelationshipKind
    ensures Aggregate(records, key).occurrences == |GroupOf(records, key)|
  {
    TotalOccurrencesOfOnes(GroupOf(records, key));
  }

  // ----- ordering -----

  /** The row order: more occurrences first, then canonical label ascending; for the
      same count and label the entity row precedes the relationship row, as the
      groups come out of the grouping sorted by kind and the sort is stable. */
  predicate Before(a: TypeProposal, b: TypeProposal)
  {
    || a.occurrences > b.occurrences
    || (a.occurrences == b.occurrences && StrLess(a.canonicalLabel, b.canonicalLabel))
    || (a.occurrences == b.occurrences && a.canonicalLabel == b.canonicalLabel
        && a.kind == EntityKind && b.kind == RelationshipKind)
  }

  lemma BeforeIrreflexive(a: TypeProposal)
    ensures !Before(a, a)
  {
    StrLessIrreflexive(a.canonicalLabel);
  }

  lemma BeforeTransitive(a: TypeProposal, b: TypeProposal, c: TypeProposal)
    requires Before(a, b) && Before(b, c)
    ensures Before(a, c)
  {
    if StrLess(a.canonicalLabel, b.canonicalLabel) && StrLess(b.canonicalLabel, c.canonicalLabel) {
      StrLessTransitive(a.canonicalLabel, b.canonicalLabel, c.canonicalLabel);
    }
  }

  /** Two rows of different groups are always ordered one way or the other. */
  lemma BeforeTotal(a: TypeProposal, b: TypeProposal)
    requires RowKey(a) != RowKey(b)
    ensures Before(a, b) || Before(b, a)
  {
    if a.canonicalLabel != b.canonicalLabel {
      StrLessTotal(a.canonicalLabel, b.canonicalLabel);
    }
  }

  predicate RowsSorted(rows: seq<TypeProposal>)
  {
    forall i, j :: 0 <= i < j < |rows| ==> Before(rows[i], rows[j])
  }

  predicate KeysDistinct(rows: seq<TypeProposal>)
  {
    forall i, j :: 0 <= i < j < |rows| ==> RowKey(rows[i]) != RowKey(rows[j])
  }

  function InsertRow(x: TypeProposal, rows: seq<TypeProposal>): (r: seq<TypeProposal>)
    ensures multiset(r) == multiset(rows) + multiset{x}
  {
    if rows == [] then [x]
    else if Before(x, rows[0]) then [x] + rows
    else
      assert rows == [rows[0]] + rows[1..];
      [rows[0]] + InsertRow(x, rows[1..])
  }

  /** The rows in `Before` order. */
  function SortRows(rows: seq<TypeProposal>): (r: seq<TypeProposal>)
    ensures multiset(r) == multiset(rows)
  {
    if rows == [] then []
    else
      assert rows == [rows[0]] + rows[1..];
      InsertRow(rows[0], SortRows(rows[1..]))
  }

  lemma RowsSortedCons(h: TypeProposal, t: seq<TypeProposal>)
    requires RowsSorted(t)
    requires forall y :: y in t ==> Before(h, y)
    ensures RowsSorted([h] + t)
  {
    var s := [h] + t;
    forall i, j | 0 <= i < j < |s| ensures Before(s[i], s[j]) {
      if i > 0 {
        assert s[i] == t[i - 1] && s[j] == t[j - 1];
      } else {
        assert s[j] == t[j - 1];
      }
    }
  }

  lemma {:induction false} InsertRowSorted(x: TypeProposal, rows: seq<TypeProposal>)
    requires RowsSorted(rows)
    requires forall y :: y in rows ==> RowKey(y) != RowKey(x)
    ensures RowsSorted(InsertRow(x, rows))
  {
    if rows == [] {
    } else if Before(x, rows[0]) {
      forall y | y in rows ensures Before(x, y) {
        var j :| 0 <= j < |rows| && rows[j] == y;
        if j > 0 {
          BeforeTransitive(x, rows[0], y);
        }
      }
      RowsSortedCons(x, rows);
    } else {
      var t := rows[1..];
      assert RowsSorted(t) by {
        forall i, j | 0 <= i < j < |t| ensures Before(t[i], t[j]) {
          assert t[i] == rows[i + 1] && t[j] == rows[j + 1];
        }
      }
      assert forall y :: y in t ==> y in rows;
      InsertRowSorted(x, t);
      BeforeTotal(x, rows[0]);
      forall y | y in InsertRow(x, t) ensures Before(rows[0], y) {
        assert y in multiset(InsertRow(x, t));
        if y != x {
          assert y in multiset(t);
          var j :| 0 <= j < |t| && t[j] == y;
          assert rows[j + 1] == y;
        }
      }
      RowsSortedCons(rows[0], InsertRow(x, t));
    }
  }

  /** Rows of distinct groups come out of the sort strictly in `Before` order. */
  lemma {:induction false} SortRowsSorted(rows: seq<TypeProposal>)
    requires KeysDistinct(rows)
    ensures RowsSorted(SortRows(rows))
  {
    if rows != [] {
      var t := rows[1..];
      assert KeysDistinct(t) by {
        forall i, j | 0 <= i < j < |t| ensures RowKey(t[i]) != RowKey(t[j]) {
          assert t[i] == rows[i + 1] && t[j] == rows[j + 1];
        }
      }
      SortRowsSorted(t);
      forall y | y in SortRows(t) ensures RowKey(y) != RowKey(rows[0]) {
        assert y in multiset(SortRows(t));
        var j :| 0 <= j < |t| && t[j] == y;
        assert rows[j + 1] == y;
      }
      InsertRowSorted(rows[0], SortRows(t));
    }
  }

  // ----- consolidation -----

  /** One row per key, in the order of the keys. */
  function Aggregates(records: seq<ProposalRecord>, keys: seq<GroupKey>): (rows: seq<TypeProposal>)
    ensures |rows| == |keys|
    ensures forall i :: 0 <= i < |keys| ==> rows[i] == Aggregate(records, keys[i])
  {
    seq(|keys|, i requires 0 <= i < |keys| => Aggregate(records, keys[i]))
  }

  /** The grouped, aggregated and sorted rows of a non-empty record list. */
  function Consolidate(records: seq<ProposalRecord>): seq<TypeProposal>
  {
    SortRows(Aggregates(records, GroupKeys(records)))
  }

  /** Every consolidated row is the aggregate of its own group, which some record
      has. */
  lemma ConsolidatedRowSource(records: seq<ProposalRecord>, p: TypeProposal)
    requires p in Consolidate(records)
    ensures p == Aggregate(records, RowKey(p))
    ensures exists r :: r in records && KeyOf(r) == RowKey(p)
  {
    var keys := GroupKeys(records);
    var rows := Aggregates(records, keys);
    assert p in multiset(rows);
    var i :| 0 <= i < |rows| && rows[i] == p;
    GroupKeysMembers(records);
    assert keys[i] in keys;
  }

  /** The group of every record has its row. */
  lemma RecordGroupConsolidated(records: seq<ProposalRecord>, r: ProposalRecord)
    requires r in records
    ensures Aggregate(records, KeyOf(r)) in Consolidate(records)
  {
    var keys := GroupKeys(records);
    var rows := Aggregates(records, keys);
    GroupKeysMembers(records);
    assert KeyOf(r) in keys;
    var i :| 0 <= i < |keys| && keys[i] == KeyOf(r);
    var p := rows[i];
    assert p == Aggregate(records, KeyOf(r));
    assert p in multiset(rows);
    assert p in multiset(Consolidate(records));
  }

  /** The consolidated rows are strictly in `Before` order and no group has two rows. */
  lemma ConsolidateSorted(records: seq<ProposalRecord>)
    ensures RowsSorted(Consolidate(records))
    ensures KeysDistinct(Consolidate(records))
  {
    var keys := GroupKeys(records);
    var rows := Aggregates(records, keys);
    GroupKeysDistinct(records);
    assert KeysDistinct(rows) by {
      forall i, j | 0 <= i < j < |rows| ensures RowKey(rows[i]) != RowKey(rows[j]) {
        assert RowKey(rows[i]) == keys[i] && RowKey(rows[j]) == keys[j];
      }
    }
    SortRowsSorted(rows);
    var sorted := Consolidate(records);
    forall i, j | 0 <= i < j < |sorted| ensures RowKey(sorted[i]) != RowKey(sorted[j]) {
      ConsolidatedRowSource(records, sorted[i]);
      ConsolidatedRowSource(records, sorted[j]);
      BeforeIrreflexive(sorted[i]);
    }
  }

  // ----- the table -----

  /** The records the table is built from: the entity records unless entity types are
      strict or there are no entity rows, then the relationship records likewise. */
  function ProposalRecords(
    rawEntities: seq<EntityRow>,
    rawRelationships: seq<RelationshipRow>,
    allowedEntityTypes: seq<string>,
    allowedRelationshipTypes: seq<string>,
    strictEntityTypes: bool,
    strictRelationshipTypes: bool): seq<ProposalRecord>
  {
    var entityRecords :=
      if !strictEntityTypes && |rawEntities| > 0 then EntityProposals(rawEntities, AllowedKeys(allowedEntityTypes)) else [];
    var relationshipRecords :=
      if !strictRelationshipTypes && |rawRelationships| > 0
      then RelationshipProposals(rawRelationships, AllowedKeys(allowedRelationshipTypes))
      else [];
    entityRecords + relationshipRecords
  }

  /** `_build_type_proposals`. */
  function BuildTypeProposals(
    rawEntities: seq<EntityRow>,
    rawRelationships: seq<RelationshipRow>,
    allowedEntityTypes: seq<string>,
    allowedRelationshipTypes: seq<string>,
    strictEntityTypes: bool,
    strictRelationshipTypes: bool): (table: Table)
    ensures table.columns == TypeProposalsColumns
  {
    var records := ProposalRecords(rawEntities, rawRelationships, allowedEntityTypes, allowedRelationshipTypes,
                                   strictEntityTypes, strictRelationshipTypes);
    if records == [] then Table(TypeProposalsColumns, [])
    else Table(TypeProposalsColumns, Consolidate(records))
  }

  /** What every collected record says, by kind: the kind was not strict, and the
      record is well formed against its kind's allowed keys. */
  lemma ProposalRecordsOk(
    rawEntities: seq<EntityRow>,
    rawRelationships: seq<RelationshipRow>,
    allowedEntityTypes: seq<string>,
    allowedRelationshipTypes: seq<string>,
    strictEntityTypes: bool,
    strictRelationshipTypes: bool)
    ensures forall r :: r in ProposalRecords(rawEntities, rawRelationships, allowedEntityTypes, allowedRelationshipTypes,
                                             strictEntityTypes, strictRelationshipTypes) ==>
      && (r.kind == EntityKind ==> !strictEntityTypes && EntityRecordOk(r, AllowedKeys(allowedEntityTypes)))
      && (r.kind == RelationshipKind ==> !strictRelationshipTypes && RelationshipRecordOk(r, AllowedKeys(allowedRelationshipTypes)))
  {
    EntityProposalsOk(rawEntities, AllowedKeys(allowedEntityTypes));
    RelationshipProposalsOk(rawRelationships, AllowedKeys(allowedRelationshipTypes));
  }

  /** The table has no rows exactly when no record was collected; then it is the empty
      table with the proposal columns. */
  lemma BuildTypeProposalsEmpty(
    rawEntities: seq<EntityRow>,
    rawRelationships: seq<RelationshipRow>,
    allowedEntityTypes: seq<string>,
    allowedRelationshipTypes: seq<string>,
    strictEntityTypes: bool,
    strictRelationshipTypes: bool)
    ensures
      var records := ProposalRecords(rawEntities, rawRelationships, allowedEntityTypes, allowedRelationshipTypes,
                                     strictEntityTypes, strictRelationshipTypes);
      var table := BuildTypeProposals(rawEntities, rawRelationships, allowedEntityTypes, allowedRelationshipTypes,
                                      strictEntityTypes, strictRelationshipTypes);
      (table.rows == [] <==> records == []) && (records == [] ==> table == Table(TypeProposalsColumns, []))
  {
    var records := ProposalRecords(rawEntities, rawRelationships, allowedEntityTypes, allowedRelationshipTypes,
                                   strictEntityTypes, strictRelationshipTypes);
    if records != [] {
      RecordGroupConsolidated(records, records[0]);
    }
  }

  /** Both kinds strict, or both raw tables empty: nothing is proposed. */
  lemma NothingToPropose(
    rawEntities: seq<EntityRow>,
    rawRelationships: seq<RelationshipRow>,
    allowedEntityTypes: seq<string>,
    allowedRelationshipTypes: seq<string>,
    strictEntityTypes: bool,
    strictRelationshipTypes: bool)
    requires (strictEntityTypes || rawEntities == []) && (strictRelationshipTypes || rawRelationships == [])
    ensures BuildTypeProposals(rawEntities, rawRelationships, allowedEntityTypes, allowedRelationshipTypes,
                               strictEntityTypes, strictRelationshipTypes) == Table(TypeProposalsColumns, [])
  {
  }

  /** The rows are strictly ordered by occurrences (descending), canonical label
      (ascending), entity before relationship, and no (kind, label) pair has two rows. */
  lemma BuildTypeProposalsOrdered(
    rawEntities: seq<EntityRow>,
    rawRelationships: seq<RelationshipRow>,
    allowedEntityTypes: seq<string>,
    allowedRelationshipTypes: seq<string>,
    strictEntityTypes: bool,
    strictRelationshipTypes: bool)
    ensures RowsSorted(BuildTypeProposals(rawEntities, rawRelationships, allowedEntityTypes, allowedRelationshipTypes,
                                          strictEntityTypes, strictRelationshipTypes).rows)
    ensures KeysDistinct(BuildTypeProposals(rawEntities, rawRelationships, allowedEntityTypes, allowedRelationshipTypes,
                                            strictEntityTypes, strictRelationshipTypes).rows)
  {
    ConsolidateSorted(ProposalRecords(rawEntities, rawRelationships, allowedEntityTypes, allowedRelationshipTypes,
                                      strictEntityTypes, strictRelationshipTypes));
  }

  /** Every row aggregates the group of its own (kind, label) pair, that label is
      non-empty and not allowed for its kind, the kind is not strict, and a
      relationship row counts the descriptions that proposed its label. */
  lemma BuildTypeProposalsRow(
    rawEntities: seq<EntityRow>,
    rawRelationships: seq<RelationshipRow>,
    allowedEntityTypes: seq<string>,
    allowedRelationshipTypes: seq<string>,
    strictEntityTypes: bool,
    strictRelationshipTypes: bool,
    p: TypeProposal)
    requires p in BuildTypeProposals(rawEntities, rawRelationships, allowedEntityTypes, allowedRelationshipTypes,
                                     strictEntityTypes, strictRelationshipTypes).rows
    ensures
      var records := ProposalRecords(rawEntities, rawRelationships, allowedEntityTypes, allowedRelationshipTypes,
                                     strictEntityTypes, strictRelationshipTypes);
      && p == Aggregate(records, RowKey(p))
      && p.canonicalLabel != []
      && (p.kind == EntityKind ==> !strictEntityTypes && p.canonicalLabel !in AllowedKeys(allowedEntityTypes))
      && (p.kind == RelationshipKind ==>
            && !strictRelationshipTypes
            && p.canonicalLabel !in AllowedKeys(allowedRelationshipTypes)
            && p.occurrences == |GroupOf(records, RowKey(p))|)
  {
    var records := ProposalRecords(rawEntities, rawRelationships, allowedEntityTypes, allowedRelationshipTypes,
                                   strictEntityTypes, strictRelationshipTypes);
    ConsolidatedRowSource(records, p);
    ProposalRecordsOk(rawEntities, rawRelationships, allowedEntityTypes, allowedRelationshipTypes,
                      strictEntityTypes, strictRelationshipTypes);
    var r :| r in records && KeyOf(r) == RowKey(p);
    if p.kind == RelationshipKind {
      AggregateCountsRelationships(records, RowKey(p));
    }
  }

  /** Every collected record is represented: its (kind, label) group has a row. */
  lemma BuildTypeProposalsComplete(
    rawEntities: seq<EntityRow>,
    rawRelationships: seq<RelationshipRow>,
    allowedEntityTypes: seq<string>,
    allowedRelationshipTypes: seq<string>,
    strictEntityTypes: bool,
    strictRelationshipTypes: bool,
    r: ProposalRecord)
    requires r in ProposalRecords(rawEntities, rawRelationships, allowedEntityTypes, allowedRelationshipTypes,
                                  strictEntityTypes, strictRelationshipTypes)
    ensures
      var records := ProposalRecords(rawEntities, rawRelationships, allowedEntityTypes, allowedRelationshipTypes,
                                     strictEntityTypes, strictRelationshipTypes);
      Aggregate(records, KeyOf(r)) in BuildTypeProposals(rawEntities, rawRelationships, allowedEntityTypes,
                                                         allowedRelationshipTypes, strictEntityTypes,
                                                         strictRelationshipTypes).rows
  {
    RecordGroupConsolidated(ProposalRecords(rawEntities, rawRelationships, allowedEntityTypes, allowedRelationshipTypes,
                                            strictEntityTypes, strictRelationshipTypes), r);
  }
}

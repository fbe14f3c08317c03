/**
  `_unique_non_empty`: the sample descriptions kept for one type proposal. The
  loop keeps the stripped, non-empty strings it has not kept yet and stops as soon
  as it holds `limit` of them, so the result is always a prefix of the distinct
  stripped strings of the input.
*/
module UniqueValues {
  import opened Text
  import opened Cells

  /** Reference definition: every distinct non-empty stripped string among the
      values, in order of first occurrence. */
  function Distinct(values: seq<Cell>): seq<string>
  {
    if values == [] then []
    else
      var d := Distinct(values[..|values| - 1]);
      var v := values[|values| - 1];
      if v.Str? && Strip(v.s) != [] && Strip(v.s) !in d then d + [Strip(v.s)] else d
  }

  /** The loop appends before it tests the limit, so a limit below one still lets
      one string through. */
  function Cap(limit: int): nat
  {
    if limit < 1 then 1 else limit
  }

  /** `_unique_non_empty(values, limit)` as a value: the first `Cap(limit)` distinct
      strings. */
  function FirstDistinct(values: seq<Cell>, limit: int): (r: seq<string>)
    ensures |r| <= Cap(limit)
    ensures r <= Distinct(values)
    ensures |r| == if |Distinct(values)| <= Cap(limit) then |Distinct(values)| else Cap(limit)
  {
    var d := Distinct(values);
    if |d| <= Cap(limit) then d else d[..Cap(limit)]
  }

  /** `_unique_non_empty` as the source runs it. */
  method UniqueNonEmpty(values: seq<Cell>, limit: int) returns (unique: seq<string>)
    ensures unique == FirstDistinct(values, limit)
  {
    unique := [];
    for i := 0 to |values|
      invariant unique == Distinct(values[..i])
      invariant |unique| < Cap(limit)
    {
      var value := values[i];
      DistinctStep(values, i);
      if !value.Str? {
        continue;
      }
      var v := Strip(value.s);
      if v == [] || v in unique {
        continue;
      }
      unique := unique + [v];
      if |unique| >= limit {
        DistinctPrefix(values, i + 1);
        break;
      }
    }
    assert values[..|values|] == values;
  }

  /** One more value extends the distinct strings by its stripped form when that is
      new and non-empty. */
  lemma DistinctStep(values: seq<Cell>, i: nat)
    requires i < |values|
    ensures var v := values[i];
      Distinct(values[..i + 1]) ==
        if v.Str? && Strip(v.s) != [] && Strip(v.s) !in Distinct(values[..i]) then Distinct(values[..i]) + [Strip(v.s)]
        else Distinct(values[..i])
  {
    assert values[..i + 1][..i] == values[..i];
  }

  /** Distinct strings of a prefix are a prefix of the distinct strings: later values
      never reorder the earlier ones. */
  lemma {:induction false} DistinctPrefix(values: seq<Cell>, j: nat)
    requires j <= |values|
    ensures Distinct(values[..j]) <= Distinct(values)
    decreases |values| - j
  {
    if j == |values| {
      assert values[..j] == values;
    } else {
      var init := values[..|values| - 1];
      DistinctPrefix(init, j);
      assert init[..j] == values[..j];
    }
  }

  /** Every kept string is non-empty and already stripped. */
  lemma {:induction false} DistinctStripped(values: seq<Cell>)
    ensures forall x :: x in Distinct(values) ==> x != [] && Strip(x) == x
  {
    if values != [] {
      DistinctStripped(values[..|values| - 1]);
      var v := values[|values| - 1];
      if v.Str? {
        StripIdempotent(v.s);
      }
    }
  }

  /** No string is kept twice. */
  lemma {:induction false} DistinctNoDuplicates(values: seq<Cell>)
    ensures forall i, j :: 0 <= i < j < |Distinct(values)| ==> Distinct(values)[i] != Distinct(values)[j]
  {
    if values != [] {
      var d := Distinct(values[..|values| - 1]);
      DistinctNoDuplicates(values[..|values| - 1]);
      var r := Distinct(values);
      forall i, j | 0 <= i < j < |r| ensures r[i] != r[j] {
        if j == |d| {
          assert r[i] == d[i];
        }
      }
    }
  }

  /** A string is kept exactly when it is the non-empty stripped form of some string
      value. */
  lemma {:induction false} DistinctMembers(values: seq<Cell>)
    ensures forall x :: x in Distinct(values) <==>
      x != [] && exists i :: 0 <= i < |values| && values[i].Str? && Strip(values[i].s) == x
  {
    if values != [] {
      var init := values[..|values| - 1];
      DistinctMembers(init);
      var n := |values| - 1;
      forall x ensures x in Distinct(values) <==>
        x != [] && exists i :: 0 <= i < |values| && values[i].Str? && Strip(values[i].s) == x
      {
        if x in Distinct(values) && x in Distinct(init) {
          var i :| 0 <= i < |init| && init[i].Str? && Strip(init[i].s) == x;
          assert values[i] == init[i];
        }
        if x != [] && exists i :: 0 <= i < |values| && values[i].Str? && Strip(values[i].s) == x {
          var i :| 0 <= i < |values| && values[i].Str? && Strip(values[i].s) == x;
          if i < n {
            assert init[i] == values[i];
          }
        }
      }
    }
  }

  /** Below the limit nothing is cut: every distinct string is kept. */
  lemma FirstDistinctComplete(values: seq<Cell>, limit: int)
    requires |Distinct(values)| <= Cap(limit)
    ensures FirstDistinct(values, limit) == Distinct(values)
  {
  }
}

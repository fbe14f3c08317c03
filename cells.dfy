/**
  The cells of the raw extraction tables. A column of a data frame may hold a
  string, a list of values, a number or nothing at all; the proposal code checks the
  kind of every cell before using it.
*/
module Cells {

  datatype Cell = Str(s: string) | List(items: seq<Cell>) | Int(n: int) | Missing

  /** The strings of a list, in order, skipping every other kind of item. */
  function StringsOf(items: seq<Cell>): (r: seq<string>)
    ensures |r| <= |items|
    ensures forall x :: x in r <==> Str(x) in items
  {
    if items == [] then []
    else
      var rest := StringsOf(items[1..]);
      assert forall c :: c in items <==> c == items[0] || c in items[1..];
      if items[0].Str? then [items[0].s] + rest else rest
  }

  /** `_prep_descriptions`: a list gives its string items, a string gives itself and
      anything else gives nothing. */
  function PrepDescriptions(value: Cell): (r: seq<string>)
    ensures value.Str? ==> r == [value.s]
    ensures value.List? ==> r == StringsOf(value.items)
    ensures value.List? ==> forall x :: x in r <==> Str(x) in value.items
    ensures !value.Str? && !value.List? ==> r == []
  {
    match value
    case List(items) => StringsOf(items)
    case Str(s) => [s]
    case _ => []
  }

  /** Filtering distributes over concatenation, so the strings keep the order of the
      list and every repetition. */
  lemma {:induction false} StringsOfAppend(a: seq<Cell>, b: seq<Cell>)
    ensures StringsOf(a + b) == StringsOf(a) + StringsOf(b)
  {
    if a != [] {
      assert (a + b)[1..] == a[1..] + b;
      StringsOfAppend(a[1..], b);
    } else {
      assert a + b == b;
    }
  }

  /** A one-item list: a string item is kept, any other item is dropped. */
  lemma StringsOfOne(c: Cell)
    ensures StringsOf([c]) == if c.Str? then [c.s] else []
  {
    assert [c][1..] == [];
  }

  /** The first string of a list is its first string item; a list has no string
      exactly when none of its items is a string. */
  lemma {:induction false} StringsOfFirst(items: seq<Cell>)
    ensures StringsOf(items) == [] <==> forall c :: c in items ==> !c.Str?
    ensures StringsOf(items) != [] ==>
      exists i :: 0 <= i < |items| && items[i] == Str(StringsOf(items)[0]) && forall j :: 0 <= j < i ==> !items[j].Str?
  {
    if items != [] {
      StringsOfFirst(items[1..]);
      assert forall c :: c in items <==> c == items[0] || c in items[1..];
      if !items[0].Str? && StringsOf(items) != [] {
        var i :| 0 <= i < |items[1..]| && items[1..][i] == Str(StringsOf(items[1..])[0])
          && forall j :: 0 <= j < i ==> !items[1..][j].Str?;
        assert items[i + 1] == items[1..][i];
        forall j | 0 <= j < i + 1 ensures !items[j].Str? {
          if j > 0 {
            assert items[j] == items[1..][j - 1];
          }
        }
      }
    }
  }

  /** For a list, `_prep_descriptions(value)[0]` is its first string item, and the
      result is empty exactly when the list holds no string. */
  lemma PrepDescriptionsFirst(value: Cell)
    ensures value.List? ==>
      && (PrepDescriptions(value) == [] <==> forall c :: c in value.items ==> !c.Str?)
      && (PrepDescriptions(value) != [] ==>
            exists i :: 0 <= i < |value.items| && value.items[i] == Str(PrepDescriptions(value)[0])
              && forall j :: 0 <= j < i ==> !value.items[j].Str?)
  {
    if value.List? {
      StringsOfFirst(value.items);
    }
  }
}

/** The list editors the pages share: an input box whose trimmed text is added
    as a chip unless blank or already listed, removal of the chip at a
    position, and removal of every copy of a value. */
module Chips {
  import opened Query
  import opened Text

  /** A chip list together with the text in its input box. */
  datatype ChipEdit = ChipEdit(values: seq<string>, current: string)

  /** The text the add handler would add: the input trimmed, when that is
      non-blank and not listed yet. */
  predicate Accepts(values: seq<string>, current: string) {
    Trim(current) != [] && Trim(current) !in values
  }

  /** Chips as the add handler builds them: trimmed and non-blank. */
  predicate Clean(values: seq<string>) {
    forall i :: 0 <= i < |values| ==> values[i] != [] && IsTrimmed(values[i])
  }

  /** The add handler: an accepted input is appended trimmed and the box is
      cleared; anything else leaves list and box as they were. */
  function AddChip(values: seq<string>, current: string): (e: ChipEdit)
    ensures |values| <= |e.values| <= |values| + 1 && e.values[..|values|] == values
    ensures |e.values| == |values| + 1 <==> Accepts(values, current)
    ensures |e.values| == |values| + 1 ==>
      e.values[|values|] == Trim(current) && e.values[|values|] !in values && e.current == ""
    ensures |e.values| == |values| ==> e.current == current
  {
    if Accepts(values, current) then ChipEdit(values + [Trim(current)], "")
    else ChipEdit(values, current)
  }

  /** Adding keeps a list free of duplicates and of untrimmed or blank chips. */
  lemma AddChipKeepsInvariant(values: seq<string>, current: string)
    requires Distinct(values) && Clean(values)
    ensures Distinct(AddChip(values, current).values) && Clean(AddChip(values, current).values)
  {
    var e := AddChip(values, current);
    if Accepts(values, current) {
      forall i, j | 0 <= i < j < |e.values| ensures e.values[i] != e.values[j] {
        if j == |values| {
          assert e.values[i] == values[i];
        }
      }
    }
  }

  /** Adding the same input twice in a row adds it once. */
  lemma AddChipTwice(values: seq<string>, current: string)
    ensures var once := AddChip(values, current);
      AddChip(once.values, current).values == once.values
  {
  }

  /** The chips whose position is not `index`, in order (a filter on position). */
  function RemoveAt<T>(s: seq<T>, index: int): (r: seq<T>)
    ensures |r| == if 0 <= index < |s| then |s| - 1 else |s|
  {
    if s == [] then []
    else RemoveAt(s[..|s| - 1], index) + (if |s| - 1 != index then [s[|s| - 1]] else [])
  }

  /** Removing position `index` deletes exactly that chip and keeps the others
      in order; a position outside the list changes nothing. */
  lemma {:induction false} RemoveAtDeletes<T>(s: seq<T>, index: int)
    ensures 0 <= index < |s| ==> RemoveAt(s, index) == s[..index] + s[index + 1..]
    ensures !(0 <= index < |s|) ==> RemoveAt(s, index) == s
  {
    if s != [] {
      var init := s[..|s| - 1];
      RemoveAtDeletes(init, index);
      if index == |s| - 1 {
        assert s[..index] == init;
      } else if 0 <= index < |s| - 1 {
        assert init[..index] == s[..index];
        assert init[index + 1..] + [s[|s| - 1]] == s[index + 1..];
      } else {
        assert init + [s[|s| - 1]] == s;
      }
    }
  }

  /** The list with every copy of `x` filtered out. */
  function Without(s: seq<string>, x: string): (r: seq<string>)
    ensures forall y :: y in r <==> y in s && y != x
    ensures |r| <= |s|
  {
    var keep := (y: string) => y != x;
    WhereMembers(s, keep);
    Where(s, keep)
  }
}

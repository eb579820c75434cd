/**
 * Answer values and answer records, shared by the per-step form and the
 * wizard page: the record is a flat map from question id to either one
 * string (radio, select, free text) or a list of strings (checkboxes).
 */
module Answers {

  datatype Answer = Str(text: string) | Strs(items: seq<string>)

  type Record = map<string, Answer>

  /** Object spread `{ ...prev, ...data }`: every key of `data` takes its
      value from `data`, every other key keeps its old value, no key is lost. */
  function Merge(prev: Record, data: Record): (r: Record)
    ensures r.Keys == prev.Keys + data.Keys
    ensures forall k :: k in data ==> r[k] == data[k]
    ensures forall k :: k in prev && k !in data ==> r[k] == prev[k]
  {
    prev + data
  }

  /** Object spread with one computed key, `{ ...prev, [id]: value }`. */
  function SetEntry(prev: Record, id: string, value: Answer): (r: Record)
    ensures r.Keys == prev.Keys + {id}
    ensures r[id] == value
    ensures forall k :: k in prev && k != id ==> r[k] == prev[k]
  {
    prev[id := value]
  }

  /** The value shown by a radio group, select or text area:
      the stored value when it is a string, otherwise the empty string. */
  function StringOrEmpty(buffer: Record, id: string): (shown: string)
    ensures id in buffer && buffer[id].Str? ==> shown == buffer[id].text
    ensures !(id in buffer && buffer[id].Str?) ==> shown == ""
  {
    if id in buffer && buffer[id].Str? then buffer[id].text else ""
  }

  /** The list shown by a checkbox group: the stored list, or `[]` when
      nothing (or a non-list) is stored under the id. */
  function CheckedValues(buffer: Record, id: string): (shown: seq<string>)
    ensures id in buffer && buffer[id].Strs? ==> shown == buffer[id].items
    ensures !(id in buffer && buffer[id].Strs?) ==> shown == []
  {
    if id in buffer && buffer[id].Strs? then buffer[id].items else []
  }

  /** Checking an option appends it at the end. */
  function Check(values: seq<string>, option: string): (r: seq<string>)
    ensures |r| == |values| + 1
    ensures r[..|values|] == values
    ensures r[|values|] == option
    ensures multiset(r) == multiset(values) + multiset{option}
  {
    values + [option]
  }

  /** Unchecking an option keeps, in order, every element different from it. */
  function Uncheck(values: seq<string>, option: string): (r: seq<string>)
    ensures option !in r
    ensures |r| <= |values|
    ensures forall x :: x != option ==> multiset(r)[x] == multiset(values)[x]
  {
    if |values| == 0 then []
    else
      assert values == [values[0]] + values[1..];
      if values[0] == option then Uncheck(values[1..], option)
      else [values[0]] + Uncheck(values[1..], option)
  }

  /** The `onCheckedChange` handler of one checkbox. */
  function CheckboxChange(values: seq<string>, option: string, checked: bool): (r: seq<string>)
    ensures checked ==> |r| == |values| + 1 && r[..|values|] == values && r[|values|] == option
    ensures !checked ==> option !in r
    ensures forall x :: x != option ==> multiset(r)[x] == multiset(values)[x]
  {
    if checked then Check(values, option) else Uncheck(values, option)
  }

  /** No value occurs twice in the list. */
  predicate Distinct(values: seq<string>)
  {
    forall x :: x in values ==> multiset(values)[x] <= 1
  }

  /** A click on a controlled checkbox: it reports the opposite of what is
      currently shown. The option flips membership, nothing else changes,
      and a duplicate-free list stays duplicate-free. */
  function Click(values: seq<string>, option: string): (r: seq<string>)
    ensures option in r <==> option !in values
    ensures forall x :: x != option ==> multiset(r)[x] == multiset(values)[x]
    ensures Distinct(values) ==> Distinct(r)
  {
    CheckboxChange(values, option, option !in values)
  }

  /** Merging in an empty record changes nothing. */
  lemma MergeEmpty(prev: Record)
    ensures Merge(prev, map[]) == prev
  {
  }

  /** Merging the same data twice is the same as merging it once. */
  lemma MergeIdempotent(prev: Record, data: Record)
    ensures Merge(Merge(prev, data), data) == Merge(prev, data)
  {
  }

  /** Reading a field right after writing a string into it gives that string back. */
  lemma ReadAfterWrite(buffer: Record, id: string, s: string)
    ensures StringOrEmpty(SetEntry(buffer, id, Str(s)), id) == s
    ensures CheckedValues(SetEntry(buffer, id, Str(s)), id) == []
  {
  }

  /** Writing a list and reading the checkbox group gives the list back. */
  lemma CheckedAfterWrite(buffer: Record, id: string, xs: seq<string>)
    ensures CheckedValues(SetEntry(buffer, id, Strs(xs)), id) == xs
    ensures StringOrEmpty(SetEntry(buffer, id, Strs(xs)), id) == ""
  {
  }

  /** Filtering an option out of a concatenation filters each part: the
      elements that stay keep their relative order. */
  lemma {:induction false} UncheckConcat(a: seq<string>, b: seq<string>, option: string)
    ensures Uncheck(a + b, option) == Uncheck(a, option) + Uncheck(b, option)
  {
    if |a| == 0 {
      assert a + b == b;
    } else {
      assert (a + b)[0] == a[0];
      assert (a + b)[1..] == a[1..] + b;
      UncheckConcat(a[1..], b, option);
    }
  }

  /** Unchecking an option that is not in the list leaves the list as it was. */
  lemma {:induction false} UncheckAbsent(values: seq<string>, option: string)
    requires option !in values
    ensures Uncheck(values, option) == values
  {
    if |values| > 0 {
      assert values[1..] == values[|values| - |values[1..]|..];
      assert option !in values[1..];
      UncheckAbsent(values[1..], option);
    }
  }

  /** Checking and then unchecking the same option is undone: the list is
      the same as if the option had only been unchecked. */
  lemma UncheckAfterCheck(values: seq<string>, option: string)
    ensures Uncheck(Check(values, option), option) == Uncheck(values, option)
  {
    UncheckConcat(values, [option], option);
    assert Uncheck([option], option) == [];
  }

  /** Two clicks on an unchecked option restore the original list. */
  lemma ClickTwice(values: seq<string>, option: string)
    requires option !in values
    ensures Click(Click(values, option), option) == values
  {
    assert option in Check(values, option);
    UncheckAfterCheck(values, option);
    UncheckAbsent(values, option);
  }
}

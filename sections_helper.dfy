/**
 * The fast-scroll index's section map: for each letter of the index bar,
 * the position of that letter among the list's sections, or, for a letter
 * the list has no section for, the position of the nearest letter above it
 * that has one.
 */
module SectionsHelper {
  import opened Common

  /** The value the map gives index `i` of `test`. */
  function SectionValue(sections: seq<string>, test: seq<string>, i: nat): (v: int)
    requires i < |test|
    ensures 0 <= v < |sections| || v == 0
  {
    if test[i] in sections then IndexOf(sections, test[i])
    else if i == 0 then 0
    else SectionValue(sections, test, i - 1)
  }

  /** The last index at or before `i` whose letter has a section, or -1. */
  function LastFoundAt(sections: seq<string>, test: seq<string>, i: int): (j: int)
    requires -1 <= i < |test|
    ensures -1 <= j <= i
    ensures j >= 0 ==> test[j] in sections
    ensures forall k :: j < k <= i ==> test[k] !in sections
    decreases i + 1
  {
    if i < 0 then -1
    else if test[i] in sections then i
    else LastFoundAt(sections, test, i - 1)
  }

  /**
   * A letter with a section maps to that section's first position; any
   * other letter takes the value of the nearest earlier letter with one, or
   * 0 when there is none.
   */
  lemma {:induction false} SectionValueSpec(sections: seq<string>, test: seq<string>, i: nat)
    requires i < |test|
    ensures test[i] in sections ==> SectionValue(sections, test, i) == IndexOf(sections, test[i])
    ensures test[i] !in sections && LastFoundAt(sections, test, i) == -1 ==> SectionValue(sections, test, i) == 0
    ensures LastFoundAt(sections, test, i) >= 0 ==>
      SectionValue(sections, test, i) == IndexOf(sections, test[LastFoundAt(sections, test, i)])
  {
    if test[i] !in sections && i > 0 {
      SectionValueSpec(sections, test, i - 1);
    }
  }

  /** `sectionsHelper`: walk the letters, remembering the last section found. */
  method SectionsHelperMap(sections: seq<string>, test: seq<string>) returns (m: map<int, int>)
    ensures forall i :: i in m <==> 0 <= i < |test|
    ensures forall i :: 0 <= i < |test| ==> m[i] == SectionValue(sections, test, i)
  {
    m := map[];
    var lastFound := 0;
    var index := 0;
    while index < |test|
      invariant 0 <= index <= |test|
      invariant forall i :: i in m <==> 0 <= i < index
      invariant forall i :: 0 <= i < index ==> m[i] == SectionValue(sections, test, i)
      invariant lastFound == if index == 0 then 0 else SectionValue(sections, test, index - 1)
    {
      var s := test[index];
      var value := lastFound;
      if s in sections {
        value := IndexOf(sections, s);
        lastFound := value;
      }
      assert value == SectionValue(sections, test, index);
      MapStep(sections, test, m, index, value, m[index := value]);
      m := m[index := value];
      index := index + 1;
    }
  }

  /** One step of the walk: the map extended at `index` with its value is the map for one more letter. */
  lemma MapStep(sections: seq<string>, test: seq<string>, m: map<int, int>, index: nat, value: int, next: map<int, int>)
    requires index < |test| && value == SectionValue(sections, test, index) && next == m[index := value]
    requires forall i :: i in m <==> 0 <= i < index
    requires forall i :: 0 <= i < index ==> m[i] == SectionValue(sections, test, i)
    ensures forall i :: i in next <==> 0 <= i < index + 1
    ensures forall i :: 0 <= i < index + 1 ==> next[i] == SectionValue(sections, test, i)
  {
  }
}

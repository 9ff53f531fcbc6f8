/** The two index-based list edits the comment reducers are built from:
    `Array.prototype.filter` on the index, and `splice` followed by an append. */
module Seqs {

  /** `s.filter((_, i) => i !== index)`, walked from the end. The result is
      `s` with position `index` cut out, or `s` itself when `index` names no
      position. */
  function RemoveIndex<T>(s: seq<T>, index: int): (r: seq<T>)
    ensures 0 <= index < |s| ==> r == s[..index] + s[index + 1..]
    ensures !(0 <= index < |s|) ==> r == s
  {
    if |s| == 0 then
      []
    else
      var init := s[..|s| - 1];
      var kept := RemoveIndex(init, index);
      if index == |s| - 1 then
        assert s[index + 1..] == [];
        kept
      else if 0 <= index < |s| - 1 then
        assert init[..index] == s[..index];
        assert init[index + 1..] + [s[|s| - 1]] == s[index + 1..];
        kept + [s[|s| - 1]]
      else
        assert init + [s[|s| - 1]] == s;
        kept + [s[|s| - 1]]
  }

  /** `splice(index, 1)` then appending the removed element: the element at
      `index` moves to the end and the others keep their relative order. */
  function MoveToEnd<T>(s: seq<T>, index: nat): (r: seq<T>)
    requires index < |s|
    ensures |r| == |s|
    ensures r[|r| - 1] == s[index]
    ensures forall j :: 0 <= j < index ==> r[j] == s[j]
    ensures forall j :: index <= j < |s| - 1 ==> r[j] == s[j + 1]
    ensures multiset(r) == multiset(s)
  {
    var rest := s[..index] + s[index + 1..];
    assert s == s[..index] + [s[index]] + s[index + 1..];
    rest + [s[index]]
  }

  /** Moving an element to the end is deleting it by index and appending it
      again. */
  lemma MoveToEndIsRemoveThenAppend<T>(s: seq<T>, index: nat)
    requires index < |s|
    ensures MoveToEnd(s, index) == RemoveIndex(s, index) + [s[index]]
  {
  }

  /** Moving the last element to the end changes nothing. */
  lemma MoveLastIsIdentity<T>(s: seq<T>)
    requires |s| > 0
    ensures MoveToEnd(s, |s| - 1) == s
  {
  }

  /** `k` moves of the first element to the end rotate the sequence left by `k`. */
  function MoveFirstRepeatedly<T>(s: seq<T>, k: nat): (r: seq<T>)
    requires |s| > 0
    ensures |r| == |s|
  {
    if k == 0 then s else MoveToEnd(MoveFirstRepeatedly(s, k - 1), 0)
  }

  /** Moving the first element to the end is a left rotation by one. */
  lemma MoveFirstToEnd<T>(s: seq<T>)
    requires |s| > 0
    ensures MoveToEnd(s, 0) == s[1..] + [s[0]]
  {
    assert s[..0] == [];
  }

  /** Rotating `s[k - 1..] + s[..k - 1]` left by one gives `s[k..] + s[..k]`. */
  lemma RotateOneMore<T>(s: seq<T>, k: nat)
    requires 0 < k <= |s|
    ensures var t := s[k - 1..] + s[..k - 1]; t[1..] + [t[0]] == s[k..] + s[..k]
  {
    var t := s[k - 1..] + s[..k - 1];
    assert t[0] == s[k - 1];
    assert t[1..] == s[k..] + s[..k - 1];
    assert s[..k] == s[..k - 1] + [s[k - 1]];
  }

  lemma {:induction false} MoveFirstRepeatedlyRotates<T>(s: seq<T>, k: nat)
    requires 0 < |s| && k <= |s|
    ensures MoveFirstRepeatedly(s, k) == s[k..] + s[..k]
  {
    if k > 0 {
      MoveFirstRepeatedlyRotates(s, k - 1);
      var prev := MoveFirstRepeatedly(s, k - 1);
      MoveFirstToEnd(prev);
      RotateOneMore(s, k);
    }
  }

  /** Moving the first element to the end once per element restores the
      original order. */
  lemma MoveFirstFullCycleIsIdentity<T>(s: seq<T>)
    requires |s| > 0
    ensures MoveFirstRepeatedly(s, |s|) == s
  {
    MoveFirstRepeatedlyRotates(s, |s|);
  }
}

/** Removing tasks by their position in the displayed list.

    The application removes the selected rows one by one, popping each
    row's position from the list as it goes (`PopEach`). The positions are
    those of the rows before any removal, so once one task is gone every
    later position names the task after the one meant: with rows 0 and 1
    selected out of three, the first and the third task are removed
    (`AscendingSelectionRemovesWrongTask`), and with both rows of a
    two-task list selected the second pop is out of range
    (`AscendingSelectionOverruns`). `Keep` is the list without the
    selected positions, which is what removing the selected rows means;
    popping the positions from the highest down gives it
    (`DescendingPopsKeepUnselected`). */
module Removal {

  /** Python's `list.pop(i)`: the list without its element at `i`. */
  function Pop<T>(s: seq<T>, i: nat): (r: seq<T>)
    requires i < |s|
    ensures |r| == |s| - 1
    ensures forall j :: 0 <= j < i ==> r[j] == s[j]
    ensures forall j :: i <= j < |r| ==> r[j] == s[j + 1]
    ensures multiset(r) + multiset{s[i]} == multiset(s)
  {
    assert s == s[..i] + [s[i]] + s[i + 1..];
    s[..i] + s[i + 1..]
  }

  /** The list after a sequence of pops, and whether one of them was out of
      range (Python raises `IndexError` there, after the earlier pops). */
  datatype PopOutcome<T> = Completed(remaining: seq<T>) | IndexError(remaining: seq<T>, index: nat)

  /** Pops the given positions in the given order. */
  function PopEach<T>(s: seq<T>, positions: seq<nat>): (r: PopOutcome<T>)
    ensures |r.remaining| <= |s|
    ensures r.Completed? ==> |r.remaining| == |s| - |positions|
    ensures r.IndexError? ==> r.index in positions && r.index >= |r.remaining|
  {
    if positions == [] then Completed(s)
    else if positions[0] < |s| then
      var r := PopEach(Pop(s, positions[0]), positions[1..]);
      assert r.IndexError? ==> r.index in positions;
      r
    else IndexError(s, positions[0])
  }

  /** With one position selected, the pop removes exactly that element. */
  lemma PopEachSingle<T>(s: seq<T>, i: nat)
    requires i < |s|
    ensures PopEach(s, [i]) == Completed(Pop(s, i))
  {
  }

  /** The elements at positions `k` and later that are not in `selected`, in order. */
  function KeepFrom<T>(s: seq<T>, selected: set<nat>, k: nat): (r: seq<T>)
    ensures k <= |s| ==> |r| <= |s| - k
    ensures k >= |s| ==> r == []
    decreases |s| - k
  {
    if k >= |s| then []
    else (if k in selected then [] else [s[k]]) + KeepFrom(s, selected, k + 1)
  }

  /** The list without the elements at the selected positions. */
  function Keep<T>(s: seq<T>, selected: set<nat>): seq<T> {
    KeepFrom(s, selected, 0)
  }

  /** One step of removing from the highest position down: with the positions
      above `k` already dealt with, popping `k` when it is selected (and
      leaving it when not) deals with `k` too. */
  lemma KeepStepDown<T>(s: seq<T>, selected: set<nat>, k: nat)
    requires k < |s|
    ensures k in selected ==>
              Pop(s[..k + 1] + KeepFrom(s, selected, k + 1), k) == s[..k] + KeepFrom(s, selected, k)
    ensures k !in selected ==>
              s[..k + 1] + KeepFrom(s, selected, k + 1) == s[..k] + KeepFrom(s, selected, k)
  {
    var rest := KeepFrom(s, selected, k + 1);
    var upTo := s[..k + 1];
    assert upTo == s[..k] + [s[k]];
    if k in selected {
      var x := upTo + rest;
      assert x[..k] == s[..k];
      assert x[k + 1..] == rest;
      assert KeepFrom(s, selected, k) == [] + rest;
      assert [] + rest == rest;
    } else {
      assert KeepFrom(s, selected, k) == [s[k]] + rest;
      assert upTo + rest == s[..k] + ([s[k]] + rest);
    }
  }

  /** Nothing selected keeps everything. */
  lemma {:induction false} KeepNothingSelected<T>(s: seq<T>, k: nat)
    requires k <= |s|
    ensures KeepFrom(s, {}, k) == s[k..]
    decreases |s| - k
  {
    if k < |s| {
      KeepNothingSelected(s, k + 1);
    }
  }

  /** When no position from `k` on is selected, everything from `k` on is kept. */
  lemma {:induction false} KeepNothingAbove<T>(s: seq<T>, selected: set<nat>, k: nat)
    requires forall j :: k <= j ==> j !in selected
    ensures k <= |s| ==> KeepFrom(s, selected, k) == s[k..]
    decreases |s| - k
  {
    if k < |s| {
      KeepNothingAbove(s, selected, k + 1);
    }
  }

  /** Only the selected positions below the end of the list matter. */
  lemma {:induction false} KeepIgnoresOutOfRange<T>(s: seq<T>, a: set<nat>, b: set<nat>, k: nat)
    requires forall j :: k <= j < |s| ==> (j in a <==> j in b)
    ensures KeepFrom(s, a, k) == KeepFrom(s, b, k)
    decreases |s| - k
  {
    if k < |s| {
      KeepIgnoresOutOfRange(s, a, b, k + 1);
    }
  }

  /** Popping the highest selected position removes that position from the selection's effect. */
  lemma {:induction false} KeepAfterPop<T>(s: seq<T>, selected: set<nat>, i: nat, k: nat)
    requires k <= i < |s|
    requires forall j :: j in selected ==> j < i
    ensures KeepFrom(Pop(s, i), selected, k) == KeepFrom(s, selected + {i}, k)
    decreases i - k
  {
    var p := Pop(s, i);
    if k < i {
      KeepAfterPop(s, selected, i, k + 1);
      assert p[k] == s[k];
    } else {
      KeepNothingAbove(p, selected, i);
      KeepNothingAbove(s, selected + {i}, i + 1);
      assert p[i..] == s[i + 1..];
    }
  }

  predicate StrictlyDecreasing(positions: seq<nat>) {
    forall a, b :: 0 <= a < b < |positions| ==> positions[a] > positions[b]
  }

  /** Popping the selected positions from the highest down removes exactly
      the selected elements and keeps the rest in their order. */
  lemma {:induction false} DescendingPopsKeepUnselected<T>(s: seq<T>, positions: seq<nat>)
    requires StrictlyDecreasing(positions)
    requires forall a :: 0 <= a < |positions| ==> positions[a] < |s|
    ensures PopEach(s, positions) == Completed(Keep(s, set a | 0 <= a < |positions| :: positions[a]))
  {
    var selected := set a | 0 <= a < |positions| :: positions[a];
    if positions == [] {
      KeepNothingSelected(s, 0);
      assert selected == {};
    } else {
      var i := positions[0];
      var rest := positions[1..];
      var restSet := set a | 0 <= a < |rest| :: rest[a];
      DescendingPopsKeepUnselected(Pop(s, i), rest);
      forall j | j in restSet ensures j < i {
        var a :| 0 <= a < |rest| && rest[a] == j;
        assert positions[a + 1] == j;
      }
      KeepAfterPop(s, restSet, i, 0);
      assert selected == restSet + {i} by {
        forall j | j in selected ensures j in restSet + {i} {
          var a :| 0 <= a < |positions| && positions[a] == j;
          if a > 0 { assert rest[a - 1] == j; }
        }
        forall j | j in restSet ensures j in selected {
          var a :| 0 <= a < |rest| && rest[a] == j;
          assert positions[a + 1] == j;
        }
      }
    }
  }

  /** One selected position removes exactly that element, as one pop does. */
  lemma KeepOneIsPop<T>(s: seq<T>, i: nat)
    requires i < |s|
    ensures Keep(s, {i}) == Pop(s, i)
  {
    DescendingPopsKeepUnselected(s, [i]);
    assert (set a | 0 <= a < |[i]| :: [i][a]) == {i};
  }

  /** Rows 0 and 1 of three selected: the as-written removal keeps the
      second task and removes the third, where the first and the second
      were meant. */
  lemma AscendingSelectionRemovesWrongTask<T>(a: T, b: T, c: T)
    ensures PopEach([a, b, c], [0, 1]) == Completed([b])
    ensures Keep([a, b, c], {0, 1}) == [c]
  {
    assert Pop([a, b, c], 0) == [b, c];
    assert Pop([b, c], 1) == [b];
    assert PopEach([b], []) == Completed([b]);
    assert PopEach([b, c], [1]) == Completed([b]);
    KeepThreeFirstTwo(a, b, c);
  }

  lemma KeepThreeFirstTwo<T>(a: T, b: T, c: T)
    ensures Keep([a, b, c], {0, 1}) == [c]
  {
    var s, selected := [a, b, c], {0, 1};
    assert KeepFrom(s, selected, 3) == [];
    assert KeepFrom(s, selected, 2) == [c];
    assert KeepFrom(s, selected, 1) == [c];
  }

  /** Both rows of a two-task list selected: the second pop is out of range. */
  lemma AscendingSelectionOverruns<T>(a: T, b: T)
    ensures PopEach([a, b], [0, 1]) == IndexError([b], 1)
    ensures Keep([a, b], {0, 1}) == []
  {
    var afterFirst := Pop([a, b], 0);
    assert afterFirst == [b];
    assert [0, 1][1..] == [1];
    assert KeepFrom([a, b], {0, 1}, 1) == [];
  }
}

/**
 * The `ListView` factory: the dropdown's visibility, its duplicate-free list
 * of results, the active index, and keyboard navigation. The HTML it paints
 * and the CSS class of the active entry are not modelled.
 *
 * The pure functions over `ListState` specify the class `ListView` below;
 * the lemmas state what the source promises about them.
 */
module ListViews {
  import opened Wrappers
  import Utils

  /** The key codes `onKeydown` reacts to. */
  const ESC := 27
  const UP := 38
  const DOWN := 40
  const ENTER := 13
  const TAB := 9

  /**
   * The fields of a list view. `data` and `index` are `None` where the
   * source holds `null` (after `deactivate`) or `undefined` (`data` before
   * the first `clear`). `maxCount` is the cap of the strategy the completer
   * assigned when it last showed the list; `render` reads nothing else of
   * that strategy.
   */
  datatype ListState<T> = ListState(shown: bool, data: Option<seq<T>>, index: Option<int>, maxCount: int)

  /** A new list view: hidden, `index` 0, `data` not yet assigned, no strategy yet. */
  function Initial<T>(): ListState<T>
  {
    ListState(false, None, Some(0), 0)
  }

  /** The state the completer keeps between events: a shown list has
      entries and its index designates one of them. */
  predicate Populated<T>(s: ListState<T>)
  {
    s.shown ==> s.data.Some? && |s.data.value| > 0 && s.index.Some? && 0 <= s.index.value < |s.data.value|
  }

  /** No value occurs twice. */
  predicate Distinct<T(==)>(s: seq<T>)
  {
    forall i, j :: 0 <= i < j < |s| ==> s[i] != s[j]
  }

  /** The entries, when there are any, hold no value twice. */
  predicate DistinctEntries<T(==)>(s: ListState<T>)
  {
    s.data.Some? ==> Distinct(s.data.value)
  }

  function Cleared<T>(s: ListState<T>): ListState<T>
  {
    s.(data := Some([]), index := Some(0))
  }

  function Activated<T>(s: ListState<T>): ListState<T>
  {
    s.(shown := true)
  }

  function Deactivated<T>(s: ListState<T>): ListState<T>
  {
    if s.shown then s.(shown := false, data := None, index := None) else s
  }

  /**
   * The loop of `render`: each value of `batch` not already present is
   * pushed, in order, and the loop stops as soon as the length EQUALS
   * `maxCount` right after a push.
   */
  function Appended<T(==)>(data: seq<T>, batch: seq<T>, maxCount: int): seq<T>
    decreases |batch|
  {
    if batch == [] then data
    else if Utils.Include(data, batch[0]) then Appended(data, batch[1..], maxCount)
    else if |data| + 1 == maxCount then data + [batch[0]]
    else Appended(data + [batch[0]], batch[1..], maxCount)
  }

  /** `render(batch)`: append, then deactivate if the list is still empty. */
  function Rendered<T(==)>(s: ListState<T>, batch: seq<T>): ListState<T>
    requires s.data.Some?
  {
    var d := Appended(s.data.value, batch, s.maxCount);
    if |d| == 0 then Deactivated(s.(data := Some(d))) else s.(data := Some(d))
  }

  /** The index after UP: from the first entry to the last, otherwise one back. */
  function Up(index: int, length: int): int
  {
    if index == 0 then length - 1 else index - 1
  }

  /** The index after DOWN: from the last entry to the first, otherwise one on. */
  function Down(index: int, length: int): int
  {
    if index == length - 1 then 0 else index + 1
  }

  /** `select(i)`: the entry handed to the completer, and the list deactivated. */
  function Selected<T>(s: ListState<T>, i: int): (ListState<T>, T)
    requires s.data.Some? && 0 <= i < |s.data.value|
  {
    (Deactivated(s), s.data.value[i])
  }

  /** `onKeydown`: the new state and the entry committed by ENTER or TAB, if any. */
  function AfterKeydown<T>(s: ListState<T>, keyCode: int): (ListState<T>, Option<T>)
    requires Populated(s)
  {
    if !s.shown then (s, None)
    else if keyCode == ESC then (Deactivated(s), None)
    else if keyCode == UP then (s.(index := Some(Up(s.index.value, |s.data.value|))), None)
    else if keyCode == DOWN then (s.(index := Some(Down(s.index.value, |s.data.value|))), None)
    else if keyCode == ENTER || keyCode == TAB then
      var (r, item) := Selected(s, s.index.value); (r, Some(item))
    else (s, None)
  }

  // ---------------------------------------------------------------------
  // A reference definition of what `render` appends, independent of its loop.

  /** `s` without any occurrence of `x`. */
  function Remove<T(==)>(s: seq<T>, x: T): seq<T>
  {
    if s == [] then [] else (if s[0] == x then [] else [s[0]]) + Remove(s[1..], x)
  }

  /** `s` without any value that occurs in `seen`. */
  function Without<T(==)>(s: seq<T>, seen: seq<T>): seq<T>
  {
    if s == [] then [] else (if s[0] in seen then [] else [s[0]]) + Without(s[1..], seen)
  }

  /** Each value of `s` once, at the place of its first occurrence. */
  function FirstOccurrences<T(==)>(s: seq<T>): seq<T>
  {
    if s == [] then [] else [s[0]] + Remove(FirstOccurrences(s[1..]), s[0])
  }

  /** The values of `batch` that `data` lacks, once each, in first-seen order. */
  function NewItems<T(==)>(data: seq<T>, batch: seq<T>): seq<T>
  {
    Without(FirstOccurrences(batch), data)
  }

  /** The first `n` elements of `s`, or all of it. */
  function Take<T>(s: seq<T>, n: int): seq<T>
  {
    if 0 <= n <= |s| then s[..n] else s
  }

  lemma {:induction false} RemoveMembers<T>(s: seq<T>, x: T)
    ensures forall y :: y in Remove(s, x) <==> y in s && y != x
    ensures Distinct(s) ==> Distinct(Remove(s, x))
  {
    if s != [] {
      RemoveMembers(s[1..], x);
      assert s == [s[0]] + s[1..];
      if Distinct(s) {
        assert Distinct(s[1..]);
        assert s[0] !in s[1..];
        DistinctConcat((if s[0] == x then [] else [s[0]]), Remove(s[1..], x));
      }
    }
  }

  lemma {:induction false} WithoutMembers<T>(s: seq<T>, seen: seq<T>)
    ensures forall y :: y in Without(s, seen) <==> y in s && y !in seen
    ensures Distinct(s) ==> Distinct(Without(s, seen))
  {
    if s != [] {
      WithoutMembers(s[1..], seen);
      assert s == [s[0]] + s[1..];
      if Distinct(s) {
        assert Distinct(s[1..]);
        assert s[0] !in s[1..];
        DistinctConcat((if s[0] in seen then [] else [s[0]]), Without(s[1..], seen));
      }
    }
  }

  lemma {:induction false} FirstOccurrencesMembers<T>(s: seq<T>)
    ensures forall y :: y in FirstOccurrences(s) <==> y in s
    ensures Distinct(FirstOccurrences(s))
  {
    if s != [] {
      FirstOccurrencesMembers(s[1..]);
      var rest := Remove(FirstOccurrences(s[1..]), s[0]);
      RemoveMembers(FirstOccurrences(s[1..]), s[0]);
      assert s == [s[0]] + s[1..];
      DistinctConcat([s[0]], rest);
    }
  }

  /** Two duplicate-free sequences with no common value concatenate to a duplicate-free one. */
  lemma DistinctConcat<T>(a: seq<T>, b: seq<T>)
    requires Distinct(a) && Distinct(b)
    requires forall y :: y in a ==> y !in b
    ensures Distinct(a + b)
  {
    forall i, j | 0 <= i < j < |a + b|
      ensures (a + b)[i] != (a + b)[j]
    {
      if j >= |a| && i < |a| {
        assert (a + b)[i] in a && (a + b)[j] in b;
      }
    }
  }

  /** Removing `x` first and then `seen` is removing `seen + [x]`. */
  lemma {:induction false} WithoutRemove<T>(s: seq<T>, x: T, seen: seq<T>)
    ensures Without(Remove(s, x), seen) == Without(s, seen + [x])
  {
    if s != [] {
      WithoutRemove(s[1..], x, seen);
      WithoutConcat((if s[0] == x then [] else [s[0]]), Remove(s[1..], x), seen);
    }
  }

  lemma {:induction false} WithoutConcat<T>(a: seq<T>, b: seq<T>, seen: seq<T>)
    ensures Without(a + b, seen) == Without(a, seen) + Without(b, seen)
  {
    if a != [] {
      assert (a + b)[1..] == a[1..] + b;
      WithoutConcat(a[1..], b, seen);
    } else {
      assert a + b == b;
    }
  }

  /** `Without` depends only on which values `seen` holds. */
  lemma {:induction false} WithoutSameMembers<T>(s: seq<T>, seen: seq<T>, seen': seq<T>)
    requires forall y :: y in seen <==> y in seen'
    ensures Without(s, seen) == Without(s, seen')
  {
    if s != [] {
      WithoutSameMembers(s[1..], seen, seen');
    }
  }

  /** One step of `NewItems`: the first value of the batch is new or it is not. */
  lemma NewItemsStep<T>(data: seq<T>, batch: seq<T>)
    requires batch != []
    ensures batch[0] in data ==> NewItems(data, batch) == NewItems(data, batch[1..])
    ensures batch[0] !in data ==> NewItems(data, batch) == [batch[0]] + NewItems(data + [batch[0]], batch[1..])
  {
    var x, rest := batch[0], FirstOccurrences(batch[1..]);
    assert FirstOccurrences(batch) == [x] + Remove(rest, x);
    WithoutConcat([x], Remove(rest, x), data);
    WithoutRemove(rest, x, data);
    if x in data {
      WithoutSameMembers(rest, data + [x], data);
    }
  }

  /**
   * What the loop of `render` appends, stated without the loop: the new
   * values of the batch in first-seen order, cut at `maxCount` when the
   * list started below it; a list already at or past `maxCount` is never
   * cut, because the loop tests for equality only.
   */
  lemma {:induction false} AppendedIsCappedNewItems<T>(data: seq<T>, batch: seq<T>, maxCount: int)
    ensures Appended(data, batch, maxCount) ==
      if |data| < maxCount then Take(data + NewItems(data, batch), maxCount)
      else data + NewItems(data, batch)
    decreases |batch|
  {
    if batch == [] {
      assert NewItems(data, batch) == [];
    } else {
      var x, rest := batch[0], batch[1..];
      NewItemsStep(data, batch);
      if x in data {
        assert Appended(data, batch, maxCount) == Appended(data, rest, maxCount);
        AppendedIsCappedNewItems(data, rest, maxCount);
      } else {
        var data' := data + [x];
        assert data + NewItems(data, batch) == data' + NewItems(data', rest);
        if |data| + 1 == maxCount {
          assert Appended(data, batch, maxCount) == data';
        } else {
          assert Appended(data, batch, maxCount) == Appended(data', rest, maxCount);
          AppendedIsCappedNewItems(data', rest, maxCount);
        }
      }
    }
  }

  /** `NewItems` lists each value of the batch missing from `data` exactly once, and nothing else. */
  lemma NewItemsExactlyOnce<T>(data: seq<T>, batch: seq<T>)
    ensures Distinct(NewItems(data, batch))
    ensures forall y :: y in NewItems(data, batch) <==> y in batch && y !in data
  {
    FirstOccurrencesMembers(batch);
    WithoutMembers(FirstOccurrences(batch), data);
  }

  /**
   * `render` appends only values absent from the list, so a duplicate-free
   * list stays duplicate-free; what was there is left untouched as a prefix,
   * and every value added comes from the batch.
   */
  lemma AppendedKeepsDistinctPrefix<T>(data: seq<T>, batch: seq<T>, maxCount: int)
    ensures data <= Appended(data, batch, maxCount)
    ensures Distinct(data) ==> Distinct(Appended(data, batch, maxCount))
    ensures forall y :: y in Appended(data, batch, maxCount) ==> y in data || y in batch
  {
    AppendedIsCappedNewItems(data, batch, maxCount);
    NewItemsExactlyOnce(data, batch);
    var full := data + NewItems(data, batch);
    if Distinct(data) {
      DistinctConcat(data, NewItems(data, batch));
    }
    assert Take(full, maxCount) <= full;
  }

  /** `render` leaves the list empty only when it was empty and the batch was too. */
  lemma AppendedEmptyOnlyFromEmpty<T>(data: seq<T>, batch: seq<T>, maxCount: int)
    ensures Appended(data, batch, maxCount) == [] <==> data == [] && batch == []
  {
    AppendedKeepsDistinctPrefix(data, batch, maxCount);
    if data == [] && batch != [] {
      assert !Utils.Include(data, batch[0]);
      assert data + [batch[0]] == [batch[0]];
      AppendedKeepsDistinctPrefix([batch[0]], batch[1..], maxCount);
    }
  }

  /**
   * The cap of `render`: a list below `maxCount` ends at most at
   * `maxCount`; and unless the cap cut it short, every value of the batch
   * ends up in the list.
   */
  lemma AppendedCap<T>(data: seq<T>, batch: seq<T>, maxCount: int)
    ensures |data| < maxCount ==> |Appended(data, batch, maxCount)| <= maxCount
    ensures |Appended(data, batch, maxCount)| < maxCount || |data| >= maxCount ==>
      forall y :: y in batch ==> y in Appended(data, batch, maxCount)
  {
    AppendedIsCappedNewItems(data, batch, maxCount);
    NewItemsExactlyOnce(data, batch);
  }

  /** Across two batches the cap does not hold: with `maxCount` 2, a second
      batch of two new values is appended in full to a list already at 2. */
  lemma CapExceededAcrossBatches()
    ensures Appended([1, 2], [3, 4], 2) == [1, 2, 3, 4]
    ensures Appended([], [1, 2], 2) == [1, 2]
  {
    assert [3, 4][1..] == [4];
    assert [1, 2][1..] == [2];
  }

  /** UP and DOWN keep an index that designates an entry within the entries,
      step back or on by one, wrap at both ends, and undo each other. */
  lemma UpDownWrap(index: int, length: int)
    requires 0 <= index < length
    ensures 0 <= Up(index, length) < length && 0 <= Down(index, length) < length
    ensures Up(0, length) == length - 1 && Down(length - 1, length) == 0
    ensures Down(Up(index, length), length) == index && Up(Down(index, length), length) == index
    ensures 0 < index ==> Up(index, length) == index - 1
    ensures index < length - 1 ==> Down(index, length) == index + 1
  {
  }

  /**
   * `onKeydown` is ignored while hidden, keeps a populated list populated
   * and its entries duplicate-free, deactivates on ESC, and on ENTER or TAB
   * commits the active entry and deactivates.
   */
  lemma KeydownKeepsPopulated<T>(s: ListState<T>, keyCode: int)
    requires Populated(s)
    ensures Populated(AfterKeydown(s, keyCode).0)
    ensures DistinctEntries(s) ==> DistinctEntries(AfterKeydown(s, keyCode).0)
    ensures !s.shown ==> AfterKeydown(s, keyCode) == (s, None)
    ensures s.shown && keyCode == ESC ==> !AfterKeydown(s, keyCode).0.shown
    ensures AfterKeydown(s, keyCode).1.Some? <==> s.shown && (keyCode == ENTER || keyCode == TAB)
    ensures AfterKeydown(s, keyCode).1.Some? ==>
      AfterKeydown(s, keyCode).1.value == s.data.value[s.index.value] && !AfterKeydown(s, keyCode).0.shown
  {
    if s.shown {
      UpDownWrap(s.index.value, |s.data.value|);
    }
  }

  /** `deactivate` hides the list and drops its entries, and does nothing to a hidden list. */
  lemma DeactivatedHides<T>(s: ListState<T>)
    ensures !Deactivated(s).shown && Populated(Deactivated(s))
    ensures DistinctEntries(s) ==> DistinctEntries(Deactivated(s))
    ensures s.shown ==> Deactivated(s).data.None? && Deactivated(s).index.None?
    ensures !s.shown ==> Deactivated(s) == s
    ensures Deactivated(Deactivated(s)) == Deactivated(s)
  {
  }

  /** `clear` empties the entries and resets the index, visibility unchanged. */
  lemma ClearedEmpties<T>(s: ListState<T>)
    ensures Cleared(s).data == Some([]) && Cleared(s).index == Some(0)
    ensures Cleared(s).shown == s.shown && Cleared(s).maxCount == s.maxCount
    ensures DistinctEntries(Cleared(s))
  {
  }

  /**
   * The dropdown object. Its methods do what the functions above specify;
   * painting the entries and the active-entry highlight is left out.
   */
  class ListView<T(==)> {
    var shown: bool
    var data: Option<seq<T>>
    var index: Option<int>
    var maxCount: int

    function State(): ListState<T>
      reads this
    {
      ListState(shown, data, index, maxCount)
    }

    constructor ()
      ensures State() == Initial()
    {
      shown, data, index, maxCount := false, None, Some(0), 0;
    }

    method Clear()
      modifies this
      ensures State() == Cleared(old(State()))
    {
      data := Some([]);
      index := Some(0);
    }

    method Activate()
      modifies this
      ensures State() == Activated(old(State()))
    {
      if !shown {
        shown := true;
      }
    }

    method Deactivate()
      modifies this
      ensures State() == Deactivated(old(State()))
    {
      if shown {
        shown := false;
        data, index := None, None;
      }
    }

    /** Pushes each new value of `batch` onto `data` in place. */
    method Render(batch: seq<T>)
      requires data.Some?
      modifies this
      ensures State() == Rendered(old(State()), batch)
    {
      ghost var start := data.value;
      var i := 0;
      while i < |batch|
        invariant 0 <= i <= |batch|
        invariant data.Some?
        invariant shown == old(shown) && index == old(index) && maxCount == old(maxCount)
        invariant Appended(data.value, batch[i..], maxCount) == Appended(start, batch, maxCount)
      {
        var val := batch[i];
        assert batch[i..][0] == val && batch[i..][1..] == batch[i + 1..];
        if Utils.Include(data.value, val) {
          i := i + 1;
          continue;
        }
        data := Some(data.value + [val]);
        if |data.value| == maxCount {
          assert data.value == Appended(start, batch, maxCount);
          break;
        }
        i := i + 1;
      }
      if |data.value| == 0 {
        Deactivate();
      }
    }

    /** `select(i)`: returns the entry for the completer to commit, and deactivates. */
    method Select(i: int) returns (item: T)
      requires data.Some? && 0 <= i < |data.value|
      modifies this
      ensures (State(), item) == Selected(old(State()), i)
    {
      item := data.value[i];
      Deactivate();
    }

    /** `onKeydown`: returns the entry committed by ENTER or TAB, if any. */
    method OnKeydown(keyCode: int) returns (commit: Option<T>)
      requires Populated(State())
      modifies this
      ensures (State(), commit) == AfterKeydown(old(State()), keyCode)
    {
      commit := None;
      if !shown {
        return;
      }
      if keyCode == ESC {
        Deactivate();
      } else if keyCode == UP {
        if index.value == 0 {
          index := Some(|data.value| - 1);
        } else {
          index := Some(index.value - 1);
        }
      } else if keyCode == DOWN {
        if index.value == |data.value| - 1 {
          index := Some(0);
        } else {
          index := Some(index.value + 1);
        }
      } else if keyCode == ENTER || keyCode == TAB {
        var item := Select(index.value);
        commit := Some(item);
      }
    }
  }
}

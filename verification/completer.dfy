/**
 * The `Completer` factory: extracting the query before the caret, the
 * locked search with its result callback, the deferred clear of the list,
 * and the text rewrite on selection.
 *
 * The strategy's search function is asynchronous and outside the model:
 * `Search` hands it a callback and records that one is outstanding
 * (`inFlight`), and `Deliver` is that callback being invoked with a batch
 * and its `keep` flag.
 */
module Completers {
  import opened Wrappers
  import opened Js
  import opened Strategies
  import opened ListViews
  import Utils

  // ---------------------------------------------------------------------
  // extractSearchQuery

  /** `match[strategy.index]`: the match-array element the strategy names as
      its term, `undefined` when that group did not take part or does not exist. */
  function Capture(m: RegexMatch, index: int): (t: Term)
    ensures t != Null
    ensures t.Str? <==> 0 <= index < |m.groups| && m.groups[index].Some?
    ensures t.Str? ==> m.groups[index] == Some(t.text)
  {
    if 0 <= index < |m.groups| && m.groups[index].Some? then Str(m.groups[index].value) else Undefined
  }

  /** The loop of `extractSearchQuery`, resumed at strategy `from`. */
  function FirstMatchFrom<T>(strategies: seq<Strategy<T>>, text: string, from: nat): (q: Option<Query>)
    requires from <= |strategies|
    ensures q.None? <==> forall i :: from <= i < |strategies| ==> strategies[i].pattern(text).None?
    ensures q.Some? ==>
      && from <= q.value.position < |strategies|
      && strategies[q.value.position].pattern(text).Some?
      && (forall i :: from <= i < q.value.position ==> strategies[i].pattern(text).None?)
      && q.value.term == Capture(strategies[q.value.position].pattern(text).value, strategies[q.value.position].index)
    decreases |strategies| - from
  {
    if from == |strategies| then None
    else match strategies[from].pattern(text)
      case Some(m) => Some(Query(from, Capture(m, strategies[from].index)))
      case None => FirstMatchFrom(strategies, text, from + 1)
  }

  /**
   * `extractSearchQuery(text)`: the first strategy, in iteration order,
   * whose pattern matches the text before the caret, with the term its
   * capture group yields; nothing exactly when no strategy matches.
   */
  function ExtractSearchQuery<T>(strategies: seq<Strategy<T>>, text: string): (q: Option<Query>)
    ensures q.None? <==> forall i :: 0 <= i < |strategies| ==> strategies[i].pattern(text).None?
    ensures q.Some? ==>
      && q.value.position < |strategies|
      && strategies[q.value.position].pattern(text).Some?
      && (forall i :: 0 <= i < q.value.position ==> strategies[i].pattern(text).None?)
      && q.value.term == Capture(strategies[q.value.position].pattern(text).value, strategies[q.value.position].index)
  {
    FirstMatchFrom(strategies, text, 0)
  }

  // ---------------------------------------------------------------------
  // onSelect

  /** `pre.replace(strategy.match, newSubStr)` for a pattern without the
      global flag: the first match is replaced, and the replacement is taken
      as literal text. */
  function ReplaceFirst(text: string, pattern: Matcher, newSubStr: string): string
    requires ValidMatcher(pattern)
  {
    match pattern(text)
    case None => text
    case Some(m) => text[..m.start] + newSubStr + text[m.end..]
  }

  /** The two parts of `replace(item)`: the text that replaces the match and
      the text inserted right after the caret. */
  function Parts(r: Replacement): (string, string)
  {
    match r
    case Text(s) => (s, "")
    case Pair(pre, post) => (pre, post)
  }

  /** The rewrite of `onSelect`: the new field value and the new caret position. */
  function Rewrite<T>(value: string, caret: nat, strategy: Strategy<T>, item: T): (string, nat)
    requires ValidMatcher(strategy.pattern)
  {
    var pre := Head(value, caret);
    var (newSubStr, insertion) := Parts(strategy.replace(item));
    var pre' := ReplaceFirst(pre, strategy.pattern, newSubStr);
    (pre' + insertion + Tail(value, caret), |pre'|)
  }

  /**
   * What `onSelect` does to the field: the text before the match is kept,
   * the replacement stands where the match was, the text between the match
   * and the caret is kept, and after the new caret come the optional
   * insertion and then the text that followed the old caret. Without a
   * match, only the insertion changes the field.
   */
  lemma RewriteLayout<T>(value: string, caret: nat, strategy: Strategy<T>, item: T)
    requires ValidMatcher(strategy.pattern)
    ensures
      var (v, c) := Rewrite(value, caret, strategy, item);
      var pre := Head(value, caret);
      var (newSubStr, insertion) := Parts(strategy.replace(item));
      && c <= |v|
      && v[c..] == insertion + value[|pre|..]
      && (strategy.pattern(pre).None? ==> v[..c] == pre && c == |pre|)
      && (strategy.pattern(pre).None? && strategy.replace(item).Text? ==> v == value)
      && (strategy.pattern(pre).Some? ==>
            var m := strategy.pattern(pre).value;
            && c == m.start + |newSubStr| + (|pre| - m.end)
            && v[..m.start] == value[..m.start]
            && v[m.start..m.start + |newSubStr|] == newSubStr
            && v[m.start + |newSubStr|..c] == value[m.end..|pre|])
  {
    var pre := Head(value, caret);
    var (newSubStr, insertion) := Parts(strategy.replace(item));
    assert Tail(value, caret) == value[|pre|..];
    match strategy.pattern(pre)
    case None =>
    case Some(m) =>
      assert MatchesIn(m, pre);
      assert pre[..m.start] == value[..m.start];
      assert pre[m.end..] == value[m.end..|pre|];
  }

  // ---------------------------------------------------------------------
  // renderList and the search callback

  /** Lines 169-176 of `renderList`: a non-empty batch shows the list (cleared,
      with the current strategy) if it was hidden, and is rendered cut to the
      current strategy's `maxCount`. */
  function ShowAndRender<T(==)>(list: ListState<T>, batch: seq<T>, maxCount: int): (r: ListState<T>)
    requires list.shown ==> list.data.Some?
    ensures r.shown ==> r.data.Some?
    ensures |batch| == 0 ==> r == list
    ensures |batch| > 0 ==>
      var cap := if list.shown then list.maxCount else maxCount;
      var d := Appended(if list.shown then list.data.value else [], SliceTo(batch, maxCount), cap);
      && r.maxCount == cap
      && r.shown == (d != [])
      && r.data == (if d == [] then None else Some(d))
      && (r.shown ==> r.index == if list.shown then list.index else Some(0))
  {
    if |batch| == 0 then list
    else
      var showing := if list.shown then list else Activated(Cleared(list)).(maxCount := maxCount);
      Rendered(showing, SliceTo(batch, maxCount))
  }

  /**
   * `renderList(batch)`, with the final test done as intended. A pending
   * clear drops the old entries first, so that an empty answer then leaves
   * the list hidden. A non-empty answer is cut to the current strategy's
   * `maxCount` and its new values are appended, under the cap the list was
   * shown with (the current strategy's if the list was hidden); the list is
   * shown exactly when it ends up with entries. With no clear pending, an
   * empty answer leaves a populated list as it was.
   */
  function RenderedList<T(==)>(list: ListState<T>, clearAtNext: bool, batch: seq<T>, maxCount: int): (r: ListState<T>)
    requires list.shown ==> list.data.Some?
    ensures r.shown ==> r.data.Some?
    ensures |batch| == 0 && clearAtNext ==> !r.shown && r.data == (if list.shown then None else Some([]))
    ensures |batch| == 0 && !clearAtNext && Populated(list) ==> r == list
    ensures |batch| > 0 ==>
      var base := if list.shown && !clearAtNext then list.data.value else [];
      var cap := if list.shown then list.maxCount else maxCount;
      var d := Appended(base, SliceTo(batch, maxCount), cap);
      && r.maxCount == cap
      && r.shown == (d != [])
      && r.data == (if d == [] then None else Some(d))
      && (r.shown ==> r.index == if list.shown && !clearAtNext then list.index else Some(0))
    ensures clearAtNext && r.data.Some? ==> forall y :: y in r.data.value ==> y in batch
  {
    AppendedKeepsDistinctPrefix([], SliceTo(batch, maxCount), if list.shown then list.maxCount else maxCount);
    var l := ShowAndRender(if clearAtNext then Cleared(list) else list, batch, maxCount);
    if l.shown && |l.data.value| == 0 then Deactivated(l) else l
  }

  /** A JavaScript call that returned, or that threw a TypeError, with the state at that point. */
  datatype Outcome<S> = Returned(state: S) | Threw(state: S)

  /**
   * `renderList(batch)` as written: line 178 reads `listView.data.length`
   * before it looks at `shown`, and throws when `data` is `undefined` or
   * `null`. That happens exactly in two cases. One is an empty answer, with
   * no clear pending, to a list that has no entries array yet or any more.
   * The other is a non-empty answer that `slice` cuts to nothing, arriving
   * when there are no entries to keep (a clear pending, the list hidden, or
   * shown empty), so that `render` deactivates the list.
   */
  function RenderedListAsWritten<T(==)>(list: ListState<T>, clearAtNext: bool, batch: seq<T>, maxCount: int): (r: Outcome<ListState<T>>)
    requires list.shown ==> list.data.Some?
    ensures r.Threw? <==>
      || (|batch| == 0 && !clearAtNext && list.data.None?)
      || (|batch| > 0 && SliceTo(batch, maxCount) == [] && (clearAtNext || !list.shown || list.data.value == []))
  {
    AppendedEmptyOnlyFromEmpty(
      if list.shown && !clearAtNext then list.data.value else [],
      SliceTo(batch, maxCount),
      if list.shown then list.maxCount else maxCount);
    var l := ShowAndRender(if clearAtNext then Cleared(list) else list, batch, maxCount);
    if l.data.None? then Threw(l)
    else if |l.data.value| == 0 && l.shown then Returned(Deactivated(l))
    else Returned(l)
  }

  /** The state one search callback touches: the list, the deferred-clear flag and the lock. */
  datatype Session<T> = Session(list: ListState<T>, clearAtNext: bool, locked: bool)

  /**
   * A list that is populated stays populated through `renderList`: a shown
   * list always has entries and an index designating one of them. Entries
   * without duplicates stay without duplicates.
   */
  lemma RenderedListKeepsPopulated<T>(list: ListState<T>, clearAtNext: bool, batch: seq<T>, maxCount: int)
    requires list.shown ==> list.data.Some?
    ensures Populated(list) ==> Populated(RenderedList(list, clearAtNext, batch, maxCount))
    ensures DistinctEntries(list) ==> DistinctEntries(RenderedList(list, clearAtNext, batch, maxCount))
  {
    if |batch| > 0 {
      var base := if list.shown && !clearAtNext then list.data.value else [];
      var cap := if list.shown then list.maxCount else maxCount;
      AppendedKeepsDistinctPrefix(base, SliceTo(batch, maxCount), cap);
    }
  }

  /**
   * The callback of `searchCallbackFactory`: render the batch; a batch with
   * `keep` holds the lock and leaves the deferred clear unset, the final
   * batch frees the lock and defers a clear to the next render.
   */
  function AfterCallback<T(==)>(s: Session<T>, batch: seq<T>, keep: bool, maxCount: int): (r: Session<T>)
    requires s.list.shown ==> s.list.data.Some?
    ensures keep ==> r.locked == s.locked && !r.clearAtNext
    ensures !keep ==> !r.locked && r.clearAtNext
    ensures r.list == RenderedList(s.list, s.clearAtNext, batch, maxCount)
    ensures Populated(s.list) ==> Populated(r.list)
    ensures DistinctEntries(s.list) ==> DistinctEntries(r.list)
  {
    RenderedListKeepsPopulated(s.list, s.clearAtNext, batch, maxCount);
    var list := RenderedList(s.list, s.clearAtNext, batch, maxCount);
    if keep then Session(list, false, s.locked) else Session(list, true, false)
  }

  /** The callback as written: when `renderList` throws, `free()` never runs, so
      the lock stays as it was whatever `keep` says; when it returns, the callback
      does what the corrected one does. */
  function AfterCallbackAsWritten<T(==)>(s: Session<T>, batch: seq<T>, keep: bool, maxCount: int): (r: Session<T>)
    requires s.list.shown ==> s.list.data.Some?
    ensures RenderedListAsWritten(s.list, s.clearAtNext, batch, maxCount).Threw? ==> r.locked == s.locked && !r.clearAtNext
    ensures RenderedListAsWritten(s.list, s.clearAtNext, batch, maxCount).Returned? ==> r == AfterCallback(s, batch, keep, maxCount)
  {
    AsWrittenAgreesUnlessThrown(s.list, s.clearAtNext, batch, maxCount);
    match RenderedListAsWritten(s.list, s.clearAtNext, batch, maxCount)
    case Threw(list) => Session(list, false, s.locked)
    case Returned(list) => if keep then Session(list, false, s.locked) else Session(list, true, false)
  }

  /** Where `renderList` as written returns, it agrees with the corrected one;
      it throws exactly when the list has no `data` after rendering. */
  lemma AsWrittenAgreesUnlessThrown<T>(list: ListState<T>, clearAtNext: bool, batch: seq<T>, maxCount: int)
    requires list.shown ==> list.data.Some?
    ensures RenderedListAsWritten(list, clearAtNext, batch, maxCount).Returned? ==>
      RenderedListAsWritten(list, clearAtNext, batch, maxCount).state == RenderedList(list, clearAtNext, batch, maxCount)
    ensures RenderedListAsWritten(list, clearAtNext, batch, maxCount).Threw? <==>
      ShowAndRender(if clearAtNext then Cleared(list) else list, batch, maxCount).data.None?
  {
  }

  /**
   * The lock wedges as written: the very first search of a completer (the
   * list's `data` still undefined, no deferred clear) whose only callback
   * delivers an empty batch throws at line 178 before `free()`, so the lock
   * stays held; the corrected callback frees it.
   */
  lemma EmptyFirstResultWedgesLock<T>(maxCount: int)
    ensures AfterCallbackAsWritten(Session(Initial<T>(), false, true), [], false, maxCount)
      == Session(Initial<T>(), false, true)
    ensures AfterCallback(Session(Initial<T>(), false, true), [], false, maxCount)
      == Session(Initial<T>(), true, false)
  {
  }

  /** The other path to the same TypeError: a negative `maxCount` slices a
      non-empty batch to nothing, `render` deactivates, and line 178 reads
      `null.length`. */
  lemma NegativeCapThrows<T>(x: T)
    ensures RenderedListAsWritten(Initial<T>(), true, [x], -1).Threw?
    ensures !AfterCallback(Session(Initial<T>(), true, true), [x], false, -1).locked
  {
    assert SliceTo([x], -1) == [];
  }

  // ---------------------------------------------------------------------
  // The completer object

  /** The callback a search is holding: the memo key of its term, and whether it
      is the memoizing callback, which records each batch before forwarding it. */
  datatype Pending = Pending(key: (nat, string), recording: bool)

  class Completer<T(==)> {
    const strategies: seq<Strategy<T>>
    const listView: ListView<T>
    /** The lock that `utils.lock` wraps around `search`. */
    const lock: Utils.Lock
    /** The memo of every memoized strategy, keyed by strategy position and term. */
    const memo: Utils.Memo<(nat, string), T>
    var term: Term
    /** `this.strategy`, as a position in `strategies`; `None` while undefined. */
    var strategy: Option<nat>
    var clearAtNext: bool
    /** The callback of the search that holds the lock, if any. */
    var inFlight: Option<Pending>
    /** The textarea's value and its `selectionEnd`. */
    var value: string
    var caret: nat
    /** Every value `onSelect` has broadcast, in order. */
    var emitted: seq<string>

    ghost predicate Valid()
      reads this, listView, lock, memo
    {
      && (forall i :: 0 <= i < |strategies| ==> ValidMatcher(strategies[i].pattern))
      && (strategy.Some? ==> strategy.value < |strategies|)
      && (lock.locked <==> inFlight.Some?)
      && (inFlight.Some? ==> strategy.Some?)
      && (listView.shown ==> strategy.Some?)
      && Populated(listView.State())
      && DistinctEntries(listView.State())
      && memo.Valid()
    }

    function Scheduling(): Session<T>
      reads this, listView, lock
    {
      Session(listView.State(), clearAtNext, lock.locked)
    }

    /**
     * What a search that took the lock leaves behind: the strategy is the
     * query's. A memoized strategy that already holds batches for the term
     * has answered with all of them, concatenated, as one final batch (so the
     * lock is free again and the wrapped search was not called); otherwise
     * the search's callback is outstanding and holds the lock.
     */
    twostate predicate Launched(q: Query)
      reads this, listView, lock, memo
    {
      && q.position < |strategies|
      && (old(listView.shown) ==> old(listView.data).Some?)
      && strategy == Some(q.position)
      && memo.log == old(memo.log)
      && var key := (q.position, PropertyKey(q.term));
         var st := strategies[q.position];
         if st.memoized && Utils.Recorded(old(memo.log), key) then
           && inFlight.None?
           && Scheduling() == AfterCallback(old(Scheduling()).(locked := true), Utils.Collected(old(memo.log), key), false, st.maxCount)
         else
           && inFlight == Some(Pending(key, st.memoized))
           && lock.locked
           && listView.State() == old(listView.State())
           && clearAtNext == old(clearAtNext)
    }

    /** `new Completer($el, strategies)`: nothing searched, the list hidden. */
    constructor (value: string, caret: nat, strategies: seq<Strategy<T>>)
      requires forall i :: 0 <= i < |strategies| ==> ValidMatcher(strategies[i].pattern)
      ensures Valid() && fresh(listView) && fresh(lock) && fresh(memo)
      ensures this.strategies == strategies && this.value == value && this.caret == caret
      ensures term == Undefined && strategy.None? && !clearAtNext && inFlight.None? && emitted == []
      ensures listView.State() == Initial() && !lock.locked && memo.log == []
    {
      this.strategies := strategies;
      listView := new ListView();
      lock := new Utils.Lock();
      memo := new Utils.Memo();
      term, strategy, clearAtNext, inFlight := Undefined, None, false, None;
      this.value, this.caret, emitted := value, caret, [];
    }

    /** `renderList(batch)`, with line 178 testing `shown` first. */
    method RenderList(batch: seq<T>)
      requires Valid() && strategy.Some?
      modifies this, listView
      ensures term == old(term) && strategy == old(strategy) && inFlight == old(inFlight)
      ensures listView.State() == RenderedList(old(listView.State()), old(clearAtNext), batch, strategies[strategy.value].maxCount)
      ensures !clearAtNext
      ensures value == old(value) && caret == old(caret) && emitted == old(emitted)
    {
      var maxCount := strategies[strategy.value].maxCount;
      if clearAtNext {
        listView.Clear();
        clearAtNext := false;
      }
      if |batch| > 0 {
        if !listView.shown {
          listView.Clear();
          listView.Activate();
          listView.maxCount := maxCount;
        }
        listView.Render(SliceTo(batch, maxCount));
      }
      if listView.shown && |listView.data.value| == 0 {
        listView.Deactivate();
      }
    }

    /**
     * The outstanding search's callback, invoked with `batch` and `keep`.
     * A memoizing callback first records the batch under its term. Only a
     * batch without `keep` frees the lock.
     */
    method Deliver(batch: seq<T>, keep: bool)
      requires Valid() && inFlight.Some?
      modifies this, listView, lock, memo
      ensures Valid()
      ensures term == old(term) && strategy == old(strategy)
      ensures Scheduling() == AfterCallback(old(Scheduling()), batch, keep, strategies[strategy.value].maxCount)
      ensures memo.log == old(memo.log) + if old(inFlight.value.recording) then [(old(inFlight.value.key), batch)] else []
      ensures inFlight == if keep then old(inFlight) else None
      ensures value == old(value) && caret == old(caret) && emitted == old(emitted)
    {
      ghost var before := Scheduling();
      ghost var maxCount := strategies[strategy.value].maxCount;
      var pending := inFlight.value;
      if pending.recording {
        memo.Record(pending.key, batch);
      }
      RenderList(batch);
      RenderedListKeepsPopulated(before.list, before.clearAtNext, batch, maxCount);
      if !keep {
        lock.Free();
        clearAtNext := true;
        inFlight := None;
      }
    }

    /**
     * The locked `search(query)`. A call made while an earlier search holds
     * the lock is dropped. Otherwise the lock is taken and the strategy is
     * called: a memoized strategy that already holds batches for the term
     * answers at once with all of them, as one final batch, and releases the
     * lock; any other call leaves its callback outstanding.
     */
    method Search(q: Query)
      requires Valid() && q.position < |strategies|
      modifies this, listView, lock, memo
      ensures Valid()
      ensures term == old(term) && value == old(value) && caret == old(caret) && emitted == old(emitted)
      ensures old(lock.locked) ==> unchanged(this, listView, lock, memo)
      ensures !old(lock.locked) ==> Launched(q)
    {
      var acquired := lock.Acquire();
      if !acquired {
        return;
      }
      strategy := Some(q.position);
      var st := strategies[q.position];
      var key := (q.position, PropertyKey(q.term));
      if st.memoized {
        var hit := memo.Lookup(key);
        if hit.Some? {
          inFlight := Some(Pending(key, false));
          Deliver(hit.value, false);
          return;
        }
      }
      inFlight := Some(Pending(key, st.memoized));
    }

    /**
     * `onKeyup`: extract the query before the caret. No match: the term
     * becomes `null` and the list is deactivated. The same term as before:
     * nothing happens. A new term is recorded, and searched unless a search
     * still holds the lock, in which case the new term is not searched.
     */
    method OnKeyup()
      requires Valid()
      modifies this, listView, lock, memo
      ensures Valid()
      ensures value == old(value) && caret == old(caret) && emitted == old(emitted)
      ensures
        var q := ExtractSearchQuery(strategies, Head(value, caret));
        if q.None? then
          && term == Null
          && listView.State() == Deactivated(old(listView.State()))
          && strategy == old(strategy) && clearAtNext == old(clearAtNext) && inFlight == old(inFlight)
          && unchanged(lock, memo)
        else if q.value.term == old(term) then
          unchanged(this, listView, lock, memo)
        else
          && term == q.value.term
          && (old(lock.locked) ==>
                (&& unchanged(listView, lock, memo)
                 && strategy == old(strategy) && clearAtNext == old(clearAtNext) && inFlight == old(inFlight)))
          && (!old(lock.locked) ==> Launched(q.value))
    {
      var q := ExtractSearchQuery(strategies, Head(value, caret));
      if q.Some? {
        if term == q.value.term {
          return;
        }
        term := q.value.term;
        Search(q.value);
      } else {
        term := Null;
        listView.Deactivate();
      }
    }

    /** `onSelect(item)`: rewrite the field around the caret, broadcast the new value, move the caret. */
    method OnSelect(item: T)
      requires Valid() && strategy.Some?
      modifies this
      ensures Valid()
      ensures term == old(term) && strategy == old(strategy) && clearAtNext == old(clearAtNext) && inFlight == old(inFlight)
      ensures (value, caret) == Rewrite(old(value), old(caret), strategies[strategy.value], item)
      ensures emitted == old(emitted) + [value]
    {
      var rewritten := Rewrite(value, caret, strategies[strategy.value], item);
      value := rewritten.0;
      emitted := emitted + [value];
      caret := rewritten.1;
    }

    /** The list's `onKeydown`, with ENTER or TAB committing the active entry through `onSelect`. */
    method OnKeydown(keyCode: int)
      requires Valid()
      modifies this, listView
      ensures Valid()
      ensures listView.State() == AfterKeydown(old(listView.State()), keyCode).0
      ensures
        var commit := AfterKeydown(old(listView.State()), keyCode).1;
        if commit.Some? then
          && strategy.Some?
          && (value, caret) == Rewrite(old(value), old(caret), strategies[strategy.value], commit.value)
          && emitted == old(emitted) + [value]
        else
          value == old(value) && caret == old(caret) && emitted == old(emitted)
      ensures term == old(term) && strategy == old(strategy) && clearAtNext == old(clearAtNext) && inFlight == old(inFlight)
    {
      KeydownKeepsPopulated(listView.State(), keyCode);
      var commit := listView.OnKeydown(keyCode);
      if commit.Some? {
        OnSelect(commit.value);
      }
    }

    /** The document-wide click handler: a click that did not come through the list hides it. */
    method OnOutsideClick()
      requires Valid()
      modifies listView
      ensures Valid()
      ensures listView.State() == Deactivated(old(listView.State()))
    {
      listView.Deactivate();
    }

    /** The list's `onClick` on entry `i`: commit that entry, whichever is active, and deactivate. */
    method OnClick(i: int)
      requires Valid() && listView.shown && 0 <= i < |listView.data.value|
      modifies this, listView
      ensures Valid()
      ensures term == old(term) && strategy == old(strategy) && clearAtNext == old(clearAtNext) && inFlight == old(inFlight)
      ensures listView.State() == Deactivated(old(listView.State()))
      ensures !listView.shown && listView.data.None?
      ensures (value, caret) == Rewrite(old(value), old(caret), strategies[strategy.value], old(listView.data.value[i]))
      ensures emitted == old(emitted) + [value]
    {
      var item := listView.Select(i);
      OnSelect(item);
    }
  }
}

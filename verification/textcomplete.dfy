/**
 * The `Textcomplete` factory: fills in the defaults of every strategy, in
 * iteration order, and builds the completer for one textarea.
 */
module TextcompleteFactory {
  import opened Wrappers
  import opened Strategies
  import Completers
  import ListViews
  import Js

  /** The default `maxCount`. */
  const DefaultMaxCount := 10
  /** The default `index`: element 2 of the match array (0 is the whole match, 1 a lead-in). */
  const DefaultIndex := 2

  /**
   * The defaults of one strategy: `template` becomes the identity when
   * absent, `index` becomes 2 when absent (`== null`), `maxCount` becomes 10
   * when absent or 0 (`maxCount || 10`), and a strategy with `cache` has its
   * search memoized. The pattern and the replacement are kept.
   */
  function Normalize<T>(options: StrategyOptions<T>): (s: Strategy<T>)
    ensures s.pattern == options.pattern && s.replace == options.replace
    ensures s.template.Identity? <==> options.template.None?
    ensures options.template.Some? ==> s.template.render == options.template.value
    ensures options.index.Some? ==> s.index == options.index.value
    ensures options.index.None? ==> s.index == DefaultIndex
    ensures s.maxCount != 0
    ensures options.maxCount.Some? && options.maxCount.value != 0 ==> s.maxCount == options.maxCount.value
    ensures options.maxCount.None? || options.maxCount.value == 0 ==> s.maxCount == DefaultMaxCount
    ensures s.memoized == options.cache
  {
    Strategy(
      options.pattern,
      if options.template.None? then Identity else Custom(options.template.value),
      options.replace,
      if options.index.None? then DefaultIndex else options.index.value,
      if options.maxCount.None? || options.maxCount.value == 0 then DefaultMaxCount else options.maxCount.value,
      options.cache)
  }

  /** The loop of `Textcomplete` over the strategies: each is normalized, order kept. The source
      rewrites the caller's strategy objects in place; the model builds new values. */
  method NormalizeStrategies<T>(options: seq<StrategyOptions<T>>) returns (strategies: seq<Strategy<T>>)
    ensures |strategies| == |options|
    ensures forall i :: 0 <= i < |options| ==> strategies[i] == Normalize(options[i])
  {
    strategies := [];
    var i := 0;
    while i < |options|
      invariant 0 <= i <= |options|
      invariant |strategies| == i
      invariant forall j :: 0 <= j < i ==> strategies[j] == Normalize(options[j])
    {
      strategies := strategies + [Normalize(options[i])];
      i := i + 1;
    }
  }

  /** `new Textcomplete(ta, strategies)`: the completer for a textarea with the
      given value and caret, over the normalized strategies. */
  method Textcomplete<T(==)>(value: string, caret: nat, options: seq<StrategyOptions<T>>) returns (c: Completers.Completer<T>)
    requires forall i :: 0 <= i < |options| ==> ValidMatcher(options[i].pattern)
    ensures c.Valid() && fresh(c) && fresh(c.listView) && fresh(c.lock) && fresh(c.memo)
    ensures |c.strategies| == |options|
    ensures forall i :: 0 <= i < |options| ==> c.strategies[i] == Normalize(options[i])
    ensures c.value == value && c.caret == caret && c.emitted == []
    ensures c.term == Js.Undefined && c.strategy.None? && !c.clearAtNext && c.inFlight.None?
    ensures c.listView.State() == ListViews.Initial() && !c.lock.locked && c.memo.log == []
  {
    var strategies := NormalizeStrategies(options);
    c := new Completers.Completer(value, caret, strategies);
  }
}

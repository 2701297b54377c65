/**
 * The data model of a completion strategy: the pattern that finds a trigger
 * before the caret, the capture group that holds the term, the replacement
 * to splice in on selection, the cap on listed results and the cache flag.
 * The regular expression engine is not modelled: a pattern is any function
 * from text to its first match.
 */
module Strategies {
  import opened Wrappers
  import Js

  /** The first match of a pattern in a text: the matched span and the match
      array, whose element 0 is the whole match and whose other elements are the
      capture groups (`None` for a group that did not take part). */
  datatype RegexMatch = RegexMatch(start: nat, end: nat, groups: seq<Option<string>>)

  /** A pattern, seen as `text.match(pattern)` for a pattern without the global flag. */
  type Matcher = string -> Option<RegexMatch>

  /** What a real regular expression guarantees about a match it reports in `text`. */
  ghost predicate MatchesIn(m: RegexMatch, text: string)
  {
    && m.start <= m.end <= |text|
    && |m.groups| > 0
    && m.groups[0] == Some(text[m.start..m.end])
  }

  ghost predicate ValidMatcher(pattern: Matcher)
  {
    forall text :: pattern(text).Some? ==> MatchesIn(pattern(text).value, text)
  }

  /** The value of `replace(item)`: a replacement for the matched text, or a pair
      whose second element is inserted right after the caret. */
  datatype Replacement = Text(text: string) | Pair(pre: string, post: string)

  /** The `template` of a strategy: the default identity, or one supplied by the caller. */
  datatype Template<!T> = Identity | Custom(render: T -> string)

  /** A strategy as the caller hands it over; absent options are `None`. */
  datatype StrategyOptions<!T> = StrategyOptions(
    pattern: Matcher,
    template: Option<T -> string>,
    replace: T -> Replacement,
    index: Option<int>,
    maxCount: Option<int>,
    cache: bool)

  /** A strategy once its defaults are filled in. `memoized` says that its
      search function has been wrapped by the memoizer. */
  datatype Strategy<!T> = Strategy(
    pattern: Matcher,
    template: Template<T>,
    replace: T -> Replacement,
    index: int,
    maxCount: int,
    memoized: bool)

  /** The outcome of `extractSearchQuery` when a strategy matched: its position
      among the strategies and the term its capture group yields. */
  datatype Query = Query(position: nat, term: Js.Term)
}

/**
 * The few JavaScript built-ins the completion engine leans on, with the
 * semantics the engine observes: the values a search term can take, the
 * conversion of a term to an object key, `String.prototype.substring` with
 * one non-negative bound, and `Array.prototype.slice(0, end)`.
 */
module Js {

  /** A search term as JavaScript holds it: a capture group can be `undefined`,
      the completer resets its term to `null`, otherwise it is a string.
      Datatype equality coincides with `===` on these three kinds of value. */
  datatype Term = Undefined | Null | Str(text: string)

  /** The property name a term becomes when it indexes a plain object (`memo[term]`):
      a string is its own name, and `undefined` and `null` become the names
      "undefined" and "null". */
  function PropertyKey(t: Term): (k: string)
    ensures t.Str? ==> k == t.text
    ensures t.Undefined? ==> k == "undefined"
    ensures t.Null? ==> k == "null"
  {
    match t
    case Undefined => "undefined"
    case Null => "null"
    case Str(s) => s
  }

  /** Distinct string terms index distinct entries, but `undefined` and `null`
      share their entries with the strings "undefined" and "null". */
  lemma PropertyKeyCollisions(a: Term, b: Term)
    ensures a.Str? && b.Str? ==> (PropertyKey(a) == PropertyKey(b) <==> a == b)
    ensures PropertyKey(a) == PropertyKey(b) <==>
      a == b || {a, b} == {Undefined, Str("undefined")} || {a, b} == {Null, Str("null")}
  {
  }

  /** `s.substring(0, end)`: the text before position `end`, clamped to the string. */
  function Head(s: string, end: nat): (h: string)
    ensures |h| == if end <= |s| then end else |s|
    ensures h <= s
  {
    if end <= |s| then s[..end] else s
  }

  /** `s.substring(start)`: the text from position `start` on, clamped to the string. */
  function Tail(s: string, start: nat): (t: string)
    ensures Head(s, start) + t == s
  {
    if start <= |s| then s[start..] else []
  }

  /** `a.slice(0, end)`: a negative `end` counts from the back, and both ends are clamped. */
  function SliceTo<T>(a: seq<T>, end: int): (r: seq<T>)
    ensures r <= a
    ensures 0 <= end ==> |r| == if end <= |a| then end else |a|
    ensures end < 0 ==> |r| == if -end <= |a| then |a| + end else 0
  {
    if 0 <= end then (if end <= |a| then a[..end] else a)
    else if -end <= |a| then a[..|a| + end]
    else []
  }
}

/**
 * The `utils` factory: the exclusive-execution lock, the search memoizer and
 * the strict-equality membership test.
 */
module Utils {
  import opened Wrappers

  /** `include(array, value)`: whether some element of the array is `===` to `value`. */
  function Include<T(==)>(items: seq<T>, value: T): (found: bool)
    ensures found <==> value in items
  {
    if |items| == 0 then false
    else if items[0] == value then true
    else Include(items[1..], value)
  }

  /**
   * The state captured by `lock(func)`: the wrapper runs `func` only when no
   * earlier call is still holding the lock, and `free` is the only way back.
   */
  class Lock {
    var locked: bool

    /** `locked` starts out `undefined`, which the guard reads as false. */
    constructor ()
      ensures !locked
    {
      locked := false;
    }

    /** The guard at the head of the wrapper: a call made while locked is
        dropped; otherwise the lock is taken and the wrapped body may run. */
    method Acquire() returns (acquired: bool)
      modifies this
      ensures acquired == !old(locked)
      ensures locked
      ensures !acquired ==> unchanged(this)
    {
      acquired := !locked;
      locked := true;
    }

    /** `free`, handed to the wrapped body as its first argument. */
    method Free()
      modifies this
      ensures !locked
    {
      locked := false;
    }
  }

  /** The concatenation, in delivery order, of every batch recorded under `key`. */
  function Collected<K(==), T>(log: seq<(K, seq<T>)>, key: K): seq<T>
  {
    if log == [] then []
    else (if log[0].0 == key then log[0].1 else []) + Collected(log[1..], key)
  }

  /** Whether some batch has been recorded under `key`. */
  predicate Recorded<K(==), T>(log: seq<(K, seq<T>)>, key: K)
  {
    exists i :: 0 <= i < |log| && log[i].0 == key
  }

  /** Recording one more batch extends exactly the entry of its own key. */
  lemma {:induction false} CollectedSnoc<K, T>(log: seq<(K, seq<T>)>, k: K, batch: seq<T>, key: K)
    ensures Collected(log + [(k, batch)], key) == Collected(log, key) + (if k == key then batch else [])
  {
    if log == [] {
      assert [(k, batch)][1..] == [];
    } else {
      assert (log + [(k, batch)])[1..] == log[1..] + [(k, batch)];
      CollectedSnoc(log[1..], k, batch, key);
    }
  }

  /** A key under which nothing was recorded collects nothing. */
  lemma {:induction false} CollectedUnrecorded<K, T>(log: seq<(K, seq<T>)>, key: K)
    requires forall i :: 0 <= i < |log| ==> log[i].0 != key
    ensures Collected(log, key) == []
  {
    if log != [] {
      CollectedUnrecorded(log[1..], key);
    }
  }

  /**
   * The cache built by `memoize(func)`, keyed by search term. `log` is the
   * history of every batch the memoizing callback has seen, so that the
   * invariant can say what each entry holds.
   */
  class Memo<K(==), T> {
    var memo: map<K, seq<T>>
    ghost var log: seq<(K, seq<T>)>

    ghost predicate Valid()
      reads this
    {
      && (forall i :: 0 <= i < |log| ==> log[i].0 in memo)
      && (forall key :: key in memo ==> Recorded(log, key) && memo[key] == Collected(log, key))
    }

    constructor ()
      ensures Valid() && memo == map[] && log == []
    {
      memo := map[];
      log := [];
    }

    /** The test `if (memo[term])`: any stored entry, even an empty array, is a hit,
        and a hit yields every batch delivered so far for the term, concatenated. */
    method Lookup(key: K) returns (hit: Option<seq<T>>)
      requires Valid()
      ensures hit.Some? <==> Recorded(log, key)
      ensures hit.Some? ==> hit.value == Collected(log, key)
    {
      if key in memo {
        hit := Some(memo[key]);
      } else {
        hit := None;
      }
    }

    /** `memo[term] = (memo[term] || []).concat(data)`, run on each batch before it is forwarded. */
    method Record(key: K, batch: seq<T>)
      requires Valid()
      modifies this
      ensures Valid()
      ensures log == old(log) + [(key, batch)]
      ensures memo == old(memo)[key := (if key in old(memo) then old(memo)[key] else []) + batch]
    {
      var prior := if key in memo then memo[key] else [];
      if key !in memo {
        CollectedUnrecorded(log, key);
      }
      ghost var before := memo;
      memo := memo[key := prior + batch];
      ghost var was := log;
      log := log + [(key, batch)];
      forall k | k in memo
        ensures Recorded(log, k) && memo[k] == Collected(log, k)
      {
        CollectedSnoc(was, key, batch, k);
        if k != key {
          assert k in before && before[k] == Collected(was, k);
        }
        if k == key {
          assert log[|was|].0 == k;
        } else {
          var i :| 0 <= i < |was| && was[i].0 == k;
          assert log[i].0 == k;
        }
      }
    }
  }
}

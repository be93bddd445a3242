/**
 * Small facts about sequences used by the loops that edit a list while
 * walking a copy of it: one element is either kept (the walked prefix grows)
 * or removed (it is cut out of the live list).
 */
module Sequences {

  /** Cutting out the element that follows the kept prefix of the live list. */
  lemma DropNext<T>(live: seq<T>, kept: seq<T>, all: seq<T>, k: int)
    requires 0 <= k < |all| && live == kept + all[k..]
    ensures live[..|kept|] + live[|kept| + 1..] == kept + all[k + 1..]
  {
    assert live[..|kept|] == kept;
    assert live[|kept| + 1..] == all[k + 1..];
  }

  /** Keeping the element that follows the kept prefix of the live list. */
  lemma KeepNext<T>(kept: seq<T>, all: seq<T>, k: int)
    requires 0 <= k < |all|
    ensures kept + all[k..] == (kept + [all[k]]) + all[k + 1..]
  {
  }

  /** The whole sequence is its own longest prefix. */
  lemma PrefixAll<T>(all: seq<T>)
    ensures all[..|all|] == all
  {
  }
}

/** The nodes of a singly linked list, in order, whatever field links them. */
module Chains {

  ghost predicate Distinct<T>(s: seq<T>) {
    forall i, j :: 0 <= i < j < |s| ==> s[i] != s[j]
  }

  /** Where the list `s` starts; `end` is what the last node's link holds. */
  ghost function First<T>(s: seq<T>, end: T): T {
    if |s| > 0 then s[0] else end
  }

  /** What the link of node `i` holds. */
  ghost function After<T>(s: seq<T>, i: nat, end: T): T
    requires i < |s|
  {
    if i + 1 < |s| then s[i + 1] else end
  }
}

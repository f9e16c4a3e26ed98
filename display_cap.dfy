/**
 * The "first three, then +N" display the month cells use for events and the table and day
 * views use for attendee avatars: `list.slice(0, 3)` is shown and, when the list is longer,
 * a counter `+{list.length - 3}`.
 */
module DisplayCap {
  import opened Wrappers

  /** The number of entries shown before the counter takes over. */
  const Cap: nat := 3

  /** `list.slice(0, cap)`: the first `cap` entries, or all of them when there are fewer. */
  function Shown<T>(s: seq<T>, cap: nat): (r: seq<T>)
    ensures |r| == if |s| < cap then |s| else cap
    ensures r == s[..|r|]
  {
    if |s| < cap then s else s[..cap]
  }

  /** The `+N` counter: present exactly when entries are hidden, with `N` the number hidden. */
  function Overflow<T>(s: seq<T>, cap: nat): (n: Option<nat>)
    ensures n.Some? <==> |s| > cap
    ensures n.Some? ==> |Shown(s, cap)| + n.value == |s| && n.value >= 1
  {
    if |s| > cap then Some(|s| - cap) else None
  }

  /** What is shown and what the counter counts together account for every entry once. */
  lemma ShownAndHidden<T>(s: seq<T>, cap: nat)
    ensures Shown(s, cap) + s[|Shown(s, cap)|..] == s
    ensures |Shown(s, cap)| + Overflow(s, cap).GetOr(0) == |s|
  {
  }
}

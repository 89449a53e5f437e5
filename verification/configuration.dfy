/**
 * App-wide configuration: the pruning flag, the lifetime activity counter (a
 * 32-bit integer that wraps around) and the flag that makes its
 * initialisation happen once.
 */
module Configuration {
  import opened Wrappers
  import opened Decimal

  /** The stored preferences; a missing key reads as its default. */
  datatype ConfigPrefs = ConfigPrefs(allowPruning: Option<bool>, lifetimeActivities: Option<int>, counterInitialized: Option<bool>)

  const EMPTY: ConfigPrefs := ConfigPrefs(None, None, None)

  function IsPruningEnabled(p: ConfigPrefs): bool
  {
    p.allowPruning.GetOr(false)
  }

  function SetPruningEnabled(p: ConfigPrefs, enabled: bool): (q: ConfigPrefs)
    ensures IsPruningEnabled(q) == enabled
    ensures q.lifetimeActivities == p.lifetimeActivities && q.counterInitialized == p.counterInitialized
  {
    p.(allowPruning := Some(enabled))
  }

  function LifetimeActivityCount(p: ConfigPrefs): int
  {
    p.lifetimeActivities.GetOr(0)
  }

  function SetLifetimeActivityCount(p: ConfigPrefs, count: int): (q: ConfigPrefs)
    ensures LifetimeActivityCount(q) == count
    ensures q.allowPruning == p.allowPruning && q.counterInitialized == p.counterInitialized
  {
    p.(lifetimeActivities := Some(count))
  }

  /** incrementLifetimeActivityCount: adds with 32-bit wrap-around; nothing else changes. */
  function IncrementLifetimeActivityCount(p: ConfigPrefs, increment: int): (q: ConfigPrefs)
    requires INT_MIN <= increment <= INT_MAX
    ensures q.allowPruning == p.allowPruning && q.counterInitialized == p.counterInitialized
    ensures INT_MIN <= LifetimeActivityCount(p) + increment <= INT_MAX ==>
              LifetimeActivityCount(q) == LifetimeActivityCount(p) + increment
  {
    SetLifetimeActivityCount(p, Wrap32(LifetimeActivityCount(p) + increment))
  }

  /** Two increments add up to one increment by the wrapped sum. */
  lemma IncrementTwice(p: ConfigPrefs, a: int, b: int)
    requires INT_MIN <= LifetimeActivityCount(p) <= INT_MAX
    requires INT_MIN <= a <= INT_MAX && INT_MIN <= b <= INT_MAX
    ensures LifetimeActivityCount(IncrementLifetimeActivityCount(IncrementLifetimeActivityCount(p, a), b))
         == Wrap32(LifetimeActivityCount(p) + a + b)
  {
    Wrap32Add(LifetimeActivityCount(p) + a, b);
  }

  /** initializeLifetimeCounter: the first call stores the current count and sets the flag; later calls do nothing. */
  function InitializeLifetimeCounter(p: ConfigPrefs, currentActivityCount: int): (q: ConfigPrefs)
    ensures q.counterInitialized == Some(true)
    ensures q.allowPruning == p.allowPruning
  {
    if !p.counterInitialized.GetOr(false) then
      SetLifetimeActivityCount(p, currentActivityCount).(counterInitialized := Some(true))
    else p
  }

  /**
   * The counter is set exactly once: on fresh preferences initialisation
   * stores the count, and any later initialisation leaves everything as it is.
   */
  lemma InitializeOnce(p: ConfigPrefs, a: int, b: int)
    ensures var q := InitializeLifetimeCounter(p, a);
            InitializeLifetimeCounter(q, b) == q
            && (!p.counterInitialized.GetOr(false) ==> LifetimeActivityCount(q) == a)
            && (p.counterInitialized.GetOr(false) ==> q == p)
  {
  }
}

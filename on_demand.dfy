/** The on-demand redraw counter of the event traversal. In the on-demand
    frame scheme a frame is drawn only when something asks for it, so the
    terrain keeps asking while task services have work outstanding, and for a
    short decay after the work runs out. */
module OnDemand {

  /** The value the counter starts with and is reset to. */
  const OnDemandReset := 2

  /** The counter after the reset test, before the decrement. */
  function Refreshed(delay: int, numTasks: int): int
  {
    if numTasks > 0 then OnDemandReset else delay
  }

  /** Whether an event traversal with `numTasks` outstanding tasks asks for a
      redraw. */
  predicate RedrawDue(delay: int, numTasks: int)
  {
    Refreshed(delay, numTasks) > 0
  }

  /** The counter after an event traversal. */
  function DelayAfter(delay: int, numTasks: int): int
  {
    var d := Refreshed(delay, numTasks);
    if d > 0 then d - 1 else d
  }

  /** The counter stays within 0..2; with tasks outstanding a redraw is always
      asked for and the counter is left at one; with none a redraw is asked for
      exactly when the counter is positive. */
  lemma StepBounds(delay: int, numTasks: int)
    requires 0 <= delay <= OnDemandReset
    ensures 0 <= DelayAfter(delay, numTasks) <= OnDemandReset
    ensures numTasks > 0 ==> RedrawDue(delay, numTasks) && DelayAfter(delay, numTasks) == 1
    ensures numTasks <= 0 ==> (RedrawDue(delay, numTasks) <==> delay > 0)
    ensures numTasks <= 0 ==> DelayAfter(delay, numTasks) == Max0(delay - 1)
  {
  }

  function Max0(x: int): nat
  {
    if x > 0 then x else 0
  }

  function Min(a: int, b: int): int
  {
    if a <= b then a else b
  }

  /** The number of redraws asked for over n event traversals with no task
      outstanding, starting from counter value `delay`. */
  function IdleRedraws(delay: int, n: nat): nat
  {
    if n == 0 then 0
    else (if RedrawDue(delay, 0) then 1 else 0) + IdleRedraws(DelayAfter(delay, 0), n - 1)
  }

  /** The counter after n idle event traversals. */
  function IdleDelay(delay: int, n: nat): int
  {
    if n == 0 then delay else IdleDelay(DelayAfter(delay, 0), n - 1)
  }

  /** From counter value d, n idle traversals ask for min(d, n) redraws and
      leave the counter at max(d - n, 0). */
  lemma {:induction false} IdleDecay(delay: nat, n: nat)
    ensures IdleRedraws(delay, n) == Min(delay, n)
    ensures IdleDelay(delay, n) == Max0(delay - n)
  {
    if n > 0 {
      IdleDecay(Max0(delay - 1), n - 1);
    }
  }

  /** Once the tasks run out, counting from the counter's initial or reset
      value: exactly two more redraws, then none however long it stays idle. */
  lemma TwoMoreRedraws(n: nat, m: nat)
    requires n >= 2
    ensures IdleRedraws(OnDemandReset, n) == 2
    ensures IdleRedraws(IdleDelay(OnDemandReset, n), m) == 0
  {
    IdleDecay(OnDemandReset, n);
    IdleDecay(0, m);
  }
}

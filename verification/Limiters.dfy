/** The limiter of src/leveldb/__detail/posix_env.cc: any number of threads, one atomic operation a step. */
module Limiters {

  /** `failing` is a thread whose fetch_sub came too late and whose fetch_add is still to come. */
  datatype Thread = Thread(held: nat, failing: bool)

  datatype Limiter = Limiter(maxAcquires: nat, acquiresAllowed: int, threads: seq<Thread>)

  datatype Event =
    | FetchSub(t: nat)
    | UndoFetchSub(t: nat)
    | Release(t: nat)

  predicate Init(s: Limiter) {
    s.acquiresAllowed == s.maxAcquires && forall t :: t in s.threads ==> t == Thread(0, false)
  }

  /** Threads release what they hold. */
  predicate Enabled(s: Limiter, e: Event) {
    && e.t < |s.threads|
    && match e
       case FetchSub(t) => !s.threads[t].failing
       case UndoFetchSub(t) => s.threads[t].failing
       case Release(t) => !s.threads[t].failing && s.threads[t].held > 0
  }

  function Apply(s: Limiter, e: Event): Limiter
    requires Enabled(s, e)
  {
    var thread := s.threads[e.t];
    match e
    case FetchSub(t) =>
      s.(acquiresAllowed := s.acquiresAllowed - 1,
         threads := s.threads[t := if s.acquiresAllowed > 0 then thread.(held := thread.held + 1) else thread.(failing := true)])
    case UndoFetchSub(t) =>
      s.(acquiresAllowed := s.acquiresAllowed + 1, threads := s.threads[t := thread.(failing := false)])
    case Release(t) =>
      s.(acquiresAllowed := s.acquiresAllowed + 1, threads := s.threads[t := thread.(held := thread.held - 1)])
  }

  /** The assertion beside the fetch_add of the step; `old` is what the fetch_add returns. */
  predicate Asserted(s: Limiter, e: Event) {
    e.UndoFetchSub? || e.Release? ==> s.acquiresAllowed < s.maxAcquires
  }

  function Holders(threads: seq<Thread>): nat {
    if threads == [] then 0 else threads[0].held + Holders(threads[1..])
  }

  function Failing(threads: seq<Thread>): (n: nat)
    ensures n <= |threads|
  {
    if threads == [] then 0 else (if threads[0].failing then 1 else 0) + Failing(threads[1..])
  }

  lemma {:induction false} CountsAfter(threads: seq<Thread>, t: nat, thread: Thread)
    requires t < |threads|
    ensures Holders(threads[t := thread]) == Holders(threads) - threads[t].held + thread.held
    ensures Failing(threads[t := thread]) ==
            Failing(threads) - (if threads[t].failing then 1 else 0) + (if thread.failing then 1 else 0)
  {
    var threads' := threads[t := thread];
    if t == 0 {
      assert threads'[1..] == threads[1..];
    } else {
      assert threads'[1..] == threads[1..][t - 1 := thread];
      CountsAfter(threads[1..], t - 1, thread);
    }
  }

  /** Every permit is still allowed, held by a thread, or about to be given back. */
  ghost predicate Inv(s: Limiter) {
    && s.acquiresAllowed + Holders(s.threads) + Failing(s.threads) == s.maxAcquires
    && Holders(s.threads) <= s.maxAcquires
  }

  lemma {:induction false} NoneAtStart(threads: seq<Thread>)
    requires forall t :: t in threads ==> t == Thread(0, false)
    ensures Holders(threads) == 0 && Failing(threads) == 0
  {
    if threads != [] {
      assert threads[0] in threads;
      assert forall t :: t in threads[1..] ==> t in threads;
      NoneAtStart(threads[1..]);
    }
  }

  lemma StepKeepsInv(s: Limiter, e: Event)
    requires Inv(s) && Enabled(s, e)
    ensures Inv(Apply(s, e)) && Asserted(s, e)
  {
    CountsAfter(s.threads, e.t, Apply(s, e).threads[e.t]);
  }

  ghost predicate Run(states: seq<Limiter>, events: seq<Event>) {
    && |states| == |events| + 1
    && Init(states[0])
    && forall n :: 0 <= n < |events| ==> StepAt(states, events, n)
  }

  ghost predicate StepAt(states: seq<Limiter>, events: seq<Event>, n: nat)
    requires n < |events| < |states|
  {
    Enabled(states[n], events[n]) && states[n + 1] == Apply(states[n], events[n])
  }

  lemma {:induction false} RunKeepsInv(states: seq<Limiter>, events: seq<Event>, n: nat)
    requires Run(states, events) && n < |states|
    ensures Inv(states[n]) && states[n].maxAcquires == states[0].maxAcquires && |states[n].threads| == |states[0].threads|
  {
    if n == 0 {
      NoneAtStart(states[0].threads);
    } else {
      RunKeepsInv(states, events, n - 1);
      assert StepAt(states, events, n - 1);
      StepKeepsInv(states[n - 1], events[n - 1]);
    }
  }

  /**
   In every reachable state no more permits are held than there are, and the
   counter is off by one for each thread that is about to fail, so that it fits
   its 32 bits with fewer than 2^31 threads.
   */
  lemma NeverTooMany(states: seq<Limiter>, events: seq<Event>, n: nat)
    requires Run(states, events) && n < |states|
    ensures var s := states[n];
      && s.acquiresAllowed + Holders(s.threads) + Failing(s.threads) == states[0].maxAcquires
      && Holders(s.threads) <= states[0].maxAcquires
      && -(|states[0].threads| as int) <= s.acquiresAllowed <= states[0].maxAcquires
  {
    RunKeepsInv(states, events, n);
  }

  /** Both assertions hold at every step of every run. */
  lemma AssertionsHold(states: seq<Limiter>, events: seq<Event>, n: nat)
    requires Run(states, events) && n < |events|
    ensures Asserted(states[n], events[n])
  {
    RunKeepsInv(states, events, n);
    assert StepAt(states, events, n);
    StepKeepsInv(states[n], events[n]);
  }

  /** A thread that fails to acquire does so only when every permit is held or about to be given back. */
  lemma FailureIsJustified(states: seq<Limiter>, events: seq<Event>, n: nat)
    requires Run(states, events) && n < |events| && events[n].FetchSub?
    ensures events[n].t < |states[n + 1].threads|
    ensures states[n + 1].threads[events[n].t].failing <==>
            Holders(states[n].threads) + Failing(states[n].threads) >= states[0].maxAcquires
  {
    RunKeepsInv(states, events, n);
    assert StepAt(states, events, n);
  }
}

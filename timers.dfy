/** The `setTimeout` callbacks of both pages, modelled as a queue of pending
    timers against a logical clock. A timer is never cancelled: the pages keep
    no handle to a timer they schedule. The earliest due timer fires first, and
    timers due at the same time fire in the order they were scheduled. */
module Timers {

  datatype Timer<E> = Timer(due: nat, event: E)

  datatype TimerQueue<E> = TimerQueue(now: nat, pending: seq<Timer<E>>)

  /** No pending timer is overdue. */
  predicate Wellformed<E>(q: TimerQueue<E>) {
    forall k :: 0 <= k < |q.pending| ==> q.pending[k].due >= q.now
  }

  function Empty<E>(): (q: TimerQueue<E>)
    ensures Wellformed(q) && q.pending == []
  {
    TimerQueue(0, [])
  }

  /** `setTimeout(callback, delay)` at the current time. */
  function Schedule<E>(q: TimerQueue<E>, delay: nat, e: E): TimerQueue<E> {
    q.(pending := q.pending + [Timer(q.now + delay, e)])
  }

  /** Scheduling keeps every timer already pending, and keeps the queue well
      formed. */
  lemma ScheduleCancelsNothing<E>(q: TimerQueue<E>, delay: nat, e: E)
    requires Wellformed(q)
    ensures Wellformed(Schedule(q, delay, e))
    ensures Schedule(q, delay, e).now == q.now
    ensures forall t :: t in q.pending ==> t in Schedule(q, delay, e).pending
    ensures Timer(q.now + delay, e) in Schedule(q, delay, e).pending
    ensures |Schedule(q, delay, e).pending| == |q.pending| + 1
  {
  }

  /** The position of the timer that fires next: the smallest due time, and the
      first scheduled among timers due at that time. */
  function Earliest<E>(pending: seq<Timer<E>>): (k: nat)
    requires pending != []
    ensures k < |pending|
    ensures forall j :: 0 <= j < |pending| ==> pending[k].due <= pending[j].due
    ensures forall j :: 0 <= j < k ==> pending[j].due > pending[k].due
  {
    if |pending| == 1 then 0
    else
      var k := Earliest(pending[1..]) + 1;
      if pending[0].due <= pending[k].due then 0 else k
  }

  /** Fires the next timer: the clock moves to its due time and it leaves the
      queue; the others keep their order. */
  function Pop<E>(q: TimerQueue<E>): (r: (Timer<E>, TimerQueue<E>))
    requires q.pending != []
  {
    var k := Earliest(q.pending);
    var t := q.pending[k];
    (t, TimerQueue(if t.due < q.now then q.now else t.due, q.pending[..k] + q.pending[k + 1..]))
  }

  /** Firing removes exactly the fired timer, never moves the clock back, and
      leaves no overdue timer behind. */
  lemma PopFacts<E>(q: TimerQueue<E>)
    requires q.pending != [] && Wellformed(q)
    ensures Pop(q).0 in q.pending
    ensures Pop(q).1.now == Pop(q).0.due >= q.now
    ensures multiset(Pop(q).1.pending) + multiset{Pop(q).0} == multiset(q.pending)
    ensures Wellformed(Pop(q).1)
  {
    var k := Earliest(q.pending);
    assert q.pending == q.pending[..k] + [q.pending[k]] + q.pending[k + 1..];
    var rest := Pop(q).1.pending;
    forall j | 0 <= j < |rest| ensures rest[j].due >= q.pending[k].due {
      if j < k {
        assert rest[j] == q.pending[j];
      } else {
        assert rest[j] == q.pending[j + 1];
      }
    }
  }

  /** Time passes while no timer falls due. */
  function Advance<E>(q: TimerQueue<E>, dt: nat): (r: TimerQueue<E>)
    requires forall k :: 0 <= k < |q.pending| ==> q.pending[k].due >= q.now + dt
    ensures Wellformed(r) && r.pending == q.pending && r.now == q.now + dt
  {
    q.(now := q.now + dt)
  }
}

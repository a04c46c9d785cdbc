/**
 * The SDK's one-shot application timers (`app_timer_register`,
 * `app_timer_cancel`), reduced to what the watchface can observe: which
 * timers are still pending, and with which delay each was armed.
 */
module Timers {

  /** `uint32_t` milliseconds, the delay type of `app_timer_register`. */
  type Millis = x: int | 0 <= x < 0x1_0000_0000

  /** The handle `app_timer_register` returns; every registration gets a new one. */
  type TimerId = nat

  /** The event loop's timer table: pending timers and the next handle to hand out. */
  datatype Loop = Loop(pending: map<TimerId, Millis>, nextTimer: TimerId)

  /** No timer pending, as when the app starts. */
  const Quiet: Loop := Loop(map[], 0)

  /** `app_timer_register(delay, …)`: arms timer `t` with `delay`. */
  function Register(l: Loop, t: TimerId, delay: Millis): (r: Loop)
    ensures r.pending.Keys == l.pending.Keys + {t}
    ensures r.pending[t] == delay
    ensures forall u :: u in l.pending && u != t ==> u in r.pending && r.pending[u] == l.pending[u]
    ensures r.nextTimer > t && r.nextTimer >= l.nextTimer
    ensures |r.pending| <= |l.pending| + 1
  {
    assert l.pending[t := delay].Keys == l.pending.Keys + {t};
    Loop(l.pending[t := delay], if t < l.nextTimer then l.nextTimer else t + 1)
  }

  /** `app_timer_cancel(t)`: a pending timer no longer fires; a spent handle is ignored. */
  function Cancel(l: Loop, t: TimerId): (r: Loop)
    ensures r.pending.Keys == l.pending.Keys - {t}
    ensures forall u :: u in r.pending ==> r.pending[u] == l.pending[u]
    ensures r.nextTimer == l.nextTimer
    ensures |r.pending| <= |l.pending|
  {
    assert (l.pending - {t}).Keys == l.pending.Keys - {t};
    assert l.pending.Keys == (l.pending.Keys - {t}) + (l.pending.Keys * {t});
    Loop(l.pending - {t}, l.nextTimer)
  }

  /** A pending set that lies inside the one handle the app holds has at most one element. */
  lemma AtMostOneWithin(l: Loop, handle: TimerId)
    requires forall u :: u in l.pending ==> u == handle
    ensures |l.pending| <= 1
    ensures |l.pending| == 1 <==> handle in l.pending
  {
    if handle in l.pending {
      assert l.pending.Keys == {handle};
    } else {
      assert l.pending.Keys == {};
    }
  }
}

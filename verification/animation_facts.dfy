/**
 * Properties of the kitten animation scheduler that relate several calls:
 * the invariant every transition keeps, at most one pending timer at every
 * point of every call, cancel-before-destroy on shutdown, endless looping,
 * and the day/night choice.
 */
module AnimationFacts {
  import opened Wrappers
  import opened Timers
  import opened Animation

  /** At every point of a run of calls, at most one timer is pending. */
  ghost predicate NeverTwoPending(l: Loop, es: seq<Effect>) {
    forall k :: 0 <= k <= |es| ==> |Perform(l, es[..k]).pending| <= 1
  }

  /** `Perform` runs a concatenation one part after the other. */
  lemma {:induction false} PerformAppend(l: Loop, a: seq<Effect>, b: seq<Effect>)
    ensures Perform(l, a + b) == Perform(Perform(l, a), b)
    decreases |b|
  {
    if b == [] {
      assert a + b == a;
    } else {
      var b' := b[..|b| - 1];
      assert (a + b)[..|a + b| - 1] == a + b';
      PerformAppend(l, a, b');
    }
  }

  /** Calls that touch no timer leave the table as it was. */
  lemma {:induction false} PerformTimerFree(l: Loop, es: seq<Effect>)
    requires TimerFree(es)
    ensures Perform(l, es) == l
    decreases |es|
  {
    if es != [] {
      var es' := es[..|es| - 1];
      assert forall e :: e in es' ==> e in es;
      PerformTimerFree(l, es');
    }
  }

  /** Each call arms at most one timer, so the table grows by at most the registrations. */
  lemma {:induction false} PendingBound(l: Loop, es: seq<Effect>)
    ensures |Perform(l, es).pending| <= |l.pending| + Registrations(es)
    ensures Registrations(es) == 0 ==> Perform(l, es).nextTimer == l.nextTimer
    decreases |es|
  {
    if es != [] {
      var es', last := es[..|es| - 1], es[|es| - 1];
      PendingBound(l, es');
      var m := Perform(l, es');
      assert Perform(l, es) == Apply(m, last);
      assert Registrations(es) == Registrations(es') + (if last.RegisterTimer? then 1 else 0);
      if !last.RegisterTimer? && !last.CancelTimer? {
        assert Apply(m, last) == m;
      }
    }
  }

  lemma {:induction false} RegistrationsOfPrefix(es: seq<Effect>, k: nat)
    requires k <= |es|
    ensures Registrations(es[..k]) <= Registrations(es)
  {
    assert es == es[..k] + es[k..];
    RegistrationsAppend(es[..k], es[k..]);
  }

  /** Tearing down releases the one timer that can be pending, and leaves the table quiet. */
  lemma TeardownQuiets(l: Loop, s: State)
    requires forall t :: t in l.pending ==> s.timer == Some(t)
    ensures Perform(l, Teardown(s)).pending == map[]
    ensures Perform(l, Teardown(s)).nextTimer == l.nextTimer
  {
    var release := (if s.sequence.Some? then [DestroySequence] else [])
      + (if s.bitmap.Some? then [DestroyBitmap] else []);
    assert TimerFree(release);
    PerformTimerFree(l, release);
    if s.timer.None? {
      assert Teardown(s) == release;
      assert l.pending == map[];
    } else {
      var t := s.timer.value;
      assert Teardown(s) == release + [CancelTimer(t)];
      PerformSnoc(l, release, CancelTimer(t));
      CancelOnlyTimer(l, t);
    }
  }

  lemma PerformSnoc(l: Loop, es: seq<Effect>, e: Effect)
    ensures Perform(l, es + [e]) == Apply(Perform(l, es), e)
  {
    assert (es + [e])[..|es|] == es;
  }

  /** Cancelling the only timer that can be pending leaves none. */
  lemma CancelOnlyTimer(l: Loop, t: TimerId)
    requires forall u :: u in l.pending ==> u == t
    ensures Cancel(l, t).pending == map[]
    ensures Cancel(l, t).nextTimer == l.nextTimer
  {
    assert Cancel(l, t).pending.Keys == {};
  }

  /** A prefix reaching past `head` into calls that touch no timer ends where `head` did. */
  lemma PrefixPastHead(l: Loop, head: seq<Effect>, tail: seq<Effect>, k: nat)
    requires TimerFree(tail) && |head| <= k <= |head| + |tail|
    ensures Perform(l, (head + tail)[..k]) == Perform(l, head)
  {
    var part := tail[..k - |head|];
    assert (head + tail)[..k] == head + part;
    PerformAppend(l, head, part);
    assert forall e :: e in part ==> e in tail;
    PerformTimerFree(Perform(l, head), part);
  }

  /**
   * `load_sequence` for a new id keeps the invariant, and once it returns the
   * only pending timer is the one it armed at 0 ms (none if the create failed).
   */
  lemma LoadKeepsInv(sys: System, id: ResourceId, store: Store, blankOk: bool)
    requires Inv(sys)
    requires sys.app.currentId != id
    ensures Inv(Load(sys, id, store, blankOk).sys)
    ensures Load(sys, id, store, blankOk).sys.loop.pending
      == if store(id).Some? then map[sys.loop.nextTimer := 0] else map[]
  {
    var t := sys.loop.nextTimer;
    CallsTimerTable(sys.loop, sys.app, id, store(id), blankOk);
    assert Load(sys, id, store, blankOk).effects == LoadCalls(sys.app, id, store(id), blankOk, t);
  }

  /** The timer table after `load_sequence`'s calls for a new id. */
  lemma CallsTimerTable(l: Loop, s: State, id: ResourceId, asset: Option<Asset>, blankOk: bool)
    requires forall u :: u in l.pending ==> s.timer == Some(u)
    ensures var r := Perform(l, LoadCalls(s, id, asset, blankOk, l.nextTimer));
      && r.pending == (if asset.Some? then map[l.nextTimer := 0] else map[])
      && r.nextTimer > l.nextTimer - (if asset.Some? then 0 else 1)
  {
    var t := l.nextTimer;
    var tear, rest := Teardown(s), LoadRest(id, asset, blankOk, t);
    assert LoadCalls(s, id, asset, blankOk, t) == tear + rest;
    TeardownQuiets(l, s);
    PerformAppend(l, tear, rest);
    RestArmsOnce(Perform(l, tear), id, asset, blankOk, t);
  }

  /**
   * `load_sequence` cancels the old timer before it arms the new one: at no
   * point during the call are two timers pending.
   */
  lemma LoadNeverTwoPending(sys: System, id: ResourceId, store: Store, blankOk: bool)
    requires Inv(sys)
    ensures NeverTwoPending(sys.loop, Load(sys, id, store, blankOk).effects)
  {
    var es := Load(sys, id, store, blankOk).effects;
    forall k | 0 <= k <= |es|
      ensures |Perform(sys.loop, es[..k]).pending| <= 1
    {
      LoadPrefixBound(sys, id, store, blankOk, k);
    }
  }

  lemma LoadPrefixBound(sys: System, id: ResourceId, store: Store, blankOk: bool, k: nat)
    requires Inv(sys)
    requires k <= |Load(sys, id, store, blankOk).effects|
    ensures |Perform(sys.loop, Load(sys, id, store, blankOk).effects[..k]).pending| <= 1
  {
    var l, s := sys.loop, sys.app;
    if s.currentId == id {
      AtMostOneWithin(l, s.timer.GetOr(0));
      assert Load(sys, id, store, blankOk).effects[..k] == [];
    } else {
      var es := LoadCalls(s, id, store(id), blankOk, l.nextTimer);
      assert Load(sys, id, store, blankOk).effects == es;
      CallsPrefixBound(l, s, id, store(id), blankOk, k);
    }
  }

  lemma CallsPrefixBound(l: Loop, s: State, id: ResourceId, asset: Option<Asset>, blankOk: bool, k: nat)
    requires forall u :: u in l.pending ==> s.timer == Some(u)
    requires k <= |LoadCalls(s, id, asset, blankOk, l.nextTimer)|
    ensures |Perform(l, LoadCalls(s, id, asset, blankOk, l.nextTimer)[..k]).pending| <= 1
  {
    var tear, rest := Teardown(s), LoadRest(id, asset, blankOk, l.nextTimer);
    var es := tear + rest;
    if k <= |tear| {
      TeardownPrefix(l, s, k);
      assert es[..k] == tear[..k];
    } else {
      RestPrefix(l, s, id, asset, blankOk, k - |tear|);
      assert es[..k] == tear + rest[..k - |tear|];
    }
  }

  lemma TeardownPrefix(l: Loop, s: State, k: nat)
    requires forall u :: u in l.pending ==> s.timer == Some(u)
    requires k <= |Teardown(s)|
    ensures |Perform(l, Teardown(s)[..k]).pending| <= 1
  {
    var tear := Teardown(s);
    TeardownShape(s);
    AtMostOneWithin(l, s.timer.GetOr(0));
    NoRegistrations(tear);
    RegistrationsOfPrefix(tear, k);
    PendingBound(l, tear[..k]);
  }

  lemma RestPrefix(l: Loop, s: State, id: ResourceId, asset: Option<Asset>, blankOk: bool, j: nat)
    requires forall u :: u in l.pending ==> s.timer == Some(u)
    requires j <= |LoadRest(id, asset, blankOk, l.nextTimer)|
    ensures var rest := LoadRest(id, asset, blankOk, l.nextTimer);
      |Perform(l, Teardown(s) + rest[..j]).pending| <= 1
  {
    var tear, rest := Teardown(s), LoadRest(id, asset, blankOk, l.nextTimer);
    TeardownQuiets(l, s);
    PerformAppend(l, tear, rest[..j]);
    LoadRestRegistrations(id, asset, blankOk, l.nextTimer);
    RegistrationsOfPrefix(rest, j);
    PendingBound(Perform(l, tear), rest[..j]);
  }

  /** After a quiet teardown, the rest of `load_sequence` arms exactly the timer it names. */
  lemma RestArmsOnce(l: Loop, id: ResourceId, asset: Option<Asset>, blankOk: bool, t: TimerId)
    requires l.pending == map[] && l.nextTimer == t
    ensures var r := Perform(l, LoadRest(id, asset, blankOk, t));
      && r.pending == (if asset.Some? then map[t := 0] else map[])
      && r.nextTimer >= t
      && (asset.Some? ==> r.nextTimer > t)
  {
    var rest := LoadRest(id, asset, blankOk, t);
    if asset.Some? {
      var front := [CreateSequence(id), CreateBitmap(asset.value.size), AttachBitmap(blankOk)];
      assert rest == front + [RegisterTimer(t, 0)];
      PerformAppend(l, front, [RegisterTimer(t, 0)]);
      PerformTimerFree(l, front);
      assert [RegisterTimer(t, 0)][..0] == [];
    } else {
      PerformTimerFree(l, rest);
    }
  }

  /** `update_time` keeps the invariant. */
  lemma TickKeepsInv(sys: System, hour: int, store: Store, blankOk: bool)
    requires Inv(sys)
    ensures Inv(Tick(sys, hour, store, blankOk).sys)
  {
    if sys.app.currentId != ResourceFor(hour) {
      LoadKeepsInv(sys, ResourceFor(hour), store, blankOk);
    }
  }

  /**
   * `timer_handler` keeps the invariant. With a sequence and bitmap loaded
   * the chain continues (exactly one timer, the new one, is pending); without
   * them the chain stops (no timer is pending).
   */
  lemma FireKeepsInv(sys: System, t: TimerId)
    requires Inv(sys) && t in sys.loop.pending
    ensures Inv(Fire(sys, t).sys)
    ensures sys.app.sequence.Some? && sys.app.bitmap.Some? ==>
      Playing(Fire(sys, t).sys) && |Fire(sys, t).sys.loop.pending| == 1
    ensures sys.app.sequence.None? || sys.app.bitmap.None? ==> Fire(sys, t).sys.loop.pending == map[]
  {
    assert Cancel(sys.loop, t).pending == map[];
    var r := Fire(sys, t).sys;
    if sys.app.sequence.Some? && sys.app.bitmap.Some? {
      assert r.loop.pending.Keys == {sys.loop.nextTimer};
    }
  }

  /**
   * `deinit`, from any state the scheduler can be in: once it returns no
   * timer is pending, and none is pending when the sequence or the bitmap
   * is destroyed.
   */
  lemma DeinitQuietsBeforeRelease(sys: System)
    requires Inv(sys)
    ensures var r := Deinit(sys);
      && r.loop.pending == map[]
      && forall k :: 0 <= k < |r.effects| && (r.effects[k] == DestroySequence || r.effects[k] == DestroyBitmap) ==>
           Perform(sys.loop, r.effects[..k]).pending == map[]
  {
    CallsQuietBeforeRelease(sys.loop, sys.app);
  }

  lemma CallsQuietBeforeRelease(l: Loop, s: State)
    requires forall u :: u in l.pending ==> s.timer == Some(u)
    ensures var es := DeinitCalls(s);
      && Perform(l, es).pending == map[]
      && forall k :: 0 <= k < |es| && (es[k] == DestroySequence || es[k] == DestroyBitmap) ==>
           Perform(l, es[..k]).pending == map[]
  {
    var head, tail := DeinitHead(s), DeinitTail(s);
    var es := head + tail;
    assert TimerFree(tail);
    HeadQuiets(l, s);
    OrderedSplit(head, tail);
    PrefixPastHead(l, head, tail, |es|);
    assert es[..|es|] == es;
    forall k | 0 <= k < |es| && (es[k] == DestroySequence || es[k] == DestroyBitmap)
      ensures Perform(l, es[..k]).pending == map[]
    {
      PrefixPastHead(l, head, tail, k);
    }
  }

  /** `deinit`'s calls up to and including the cancel leave no timer pending. */
  lemma HeadQuiets(l: Loop, s: State)
    requires forall u :: u in l.pending ==> s.timer == Some(u)
    ensures Perform(l, DeinitHead(s)).pending == map[]
  {
    var cancel := if s.timer.Some? then [CancelTimer(s.timer.value)] else [];
    var bare := State(s.currentId, None, None, s.timer);
    assert Teardown(bare) == cancel;
    PerformAppend(l, [UnsubscribeTicks], cancel);
    PerformTimerFree(l, [UnsubscribeTicks]);
    TeardownQuiets(l, bare);
  }

  /** `x` reduced modulo `m`, by repeated subtraction. */
  function Mod(x: nat, m: nat): (r: nat)
    requires m > 0
    ensures r < m
    decreases x
  {
    if x < m then x else Mod(x - m, m)
  }

  /** Where the decoder's cursor goes on one firing: next frame, or back to 0 past the last. */
  function NextCursor(c: nat, len: nat): (next: nat) {
    if c < len then c + 1 else 0
  }

  /** The cursor after `n` firings. */
  function CursorAfter(c: nat, len: nat, n: nat): (cursor: nat)
    decreases n
  {
    if n == 0 then c else CursorAfter(NextCursor(c, len), len, n - 1)
  }

  /**
   * Looping never stops on its own: `n` firings walk the cursor `n` steps
   * round a cycle of `len + 1` positions, the frames and then the rewind.
   */
  lemma {:induction false} CursorCycles(c: nat, len: nat, n: nat)
    requires c <= len
    ensures CursorAfter(c, len, n) == Mod(c + n, len + 1)
    decreases n
  {
    if n > 0 {
      var c1 := NextCursor(c, len);
      CursorCycles(c1, len, n - 1);
      if c == len {
        assert c + n == (n - 1) + (len + 1);
      } else {
        assert c1 + (n - 1) == c + n;
      }
    }
  }

  /** One firing of the armed frame timer moves the cursor one step round the cycle. */
  lemma FireStep(sys: System)
    requires Inv(sys) && Playing(sys)
    ensures var r := Fire(sys, sys.app.timer.value).sys;
      var q := sys.app.sequence.value;
      && Inv(r) && Playing(r)
      && r.app.currentId == sys.app.currentId && r.app.bitmap == sys.app.bitmap
      && r.app.sequence.value.frames == q.frames
      && r.app.sequence.value.size == q.size
      && r.app.sequence.value.cursor == NextCursor(q.cursor, |q.frames|)
  {
    FireKeepsInv(sys, sys.app.timer.value);
  }

  /**
   * The frame timer firing `n` times in a row: the animation keeps running
   * with its timer armed, nothing but the decoder's cursor changes, and the
   * cursor takes `n` steps of `NextCursor`.
   */
  function Animate(sys: System, n: nat): (r: System)
    requires Inv(sys) && Playing(sys)
    ensures Inv(r) && Playing(r)
    ensures r.app.currentId == sys.app.currentId && r.app.bitmap == sys.app.bitmap
    ensures r.app.sequence.value.frames == sys.app.sequence.value.frames
    ensures r.app.sequence.value.size == sys.app.sequence.value.size
    ensures r.app.sequence.value.cursor
      == CursorAfter(sys.app.sequence.value.cursor, |sys.app.sequence.value.frames|, n)
    decreases n
  {
    if n == 0 then sys
    else
      FireStep(sys);
      Animate(Fire(sys, sys.app.timer.value).sys, n - 1)
  }

  /** Every delivered event keeps the invariant. */
  lemma DispatchKeepsInv(sys: System, e: Event)
    requires Inv(sys)
    ensures Inv(Dispatch(sys, e))
  {
    match e
    case MinuteTick(hour, created, blankOk) => TickKeepsInv(sys, hour, _ => created, blankOk);
    case TimerExpired(t) =>
      if t in sys.loop.pending {
        FireKeepsInv(sys, t);
      }
  }

  lemma {:induction false} ReplayKeepsInv(sys: System, events: seq<Event>)
    requires Inv(sys)
    ensures Inv(Replay(sys, events))
    decreases |events|
  {
    if events != [] {
      DispatchKeepsInv(sys, events[0]);
      ReplayKeepsInv(Dispatch(sys, events[0]), events[1..]);
    }
  }

  /**
   * Whatever the start hour, the outcome of every create on every tick
   * (failures, then successes on a later retry), and the order in which
   * ticks and timer expiries arrive, the watchface never has more than one
   * timer pending.
   */
  lemma AtMostOnePendingTimer(hour: int, store: Store, blankOk: bool, events: seq<Event>)
    ensures Inv(Boot(hour, store, blankOk))
    ensures |Replay(Boot(hour, store, blankOk), events).loop.pending| <= 1
  {
    TickKeepsInv(Initial, hour, store, blankOk);
    var sys := Replay(Boot(hour, store, blankOk), events);
    ReplayKeepsInv(Boot(hour, store, blankOk), events);
    AtMostOneWithin(sys.loop, sys.app.timer.GetOr(0));
  }

  /** `is_daytime` changes value only at 08:00 and at 18:00, and midnight is night. */
  lemma DaytimeChangesOnlyAtBoundaries(hour: int)
    requires 1 <= hour < 24
    ensures !IsDaytime(0)
    ensures IsDaytime(hour) != IsDaytime(hour - 1) <==> hour == 8 || hour == 18
  {
  }

  /**
   * Ticks within the same period request the same animation, so once it is
   * loaded every further tick of that period does nothing.
   */
  lemma SamePeriodTicksAreIdle(sys: System, h1: int, h2: int, store: Store, b1: bool, b2: bool)
    requires IsDaytime(h1) == IsDaytime(h2)
    requires store(ResourceFor(h1)).Some?
    ensures var s1 := Tick(sys, h1, store, b1).sys;
      Tick(s1, h2, store, b2) == Step(s1, [])
  {
  }

  /** Loading over the pristine state never treats id 0 as a new request. */
  lemma InitialIdIsLoaded(store: Store, blankOk: bool)
    ensures Load(Initial, NoResource, store, blankOk) == Step(Initial, [])
  {
  }

  /**
   * A failed create leaves nothing loaded and no timer, yet the old id stays
   * recorded: asking for it again is then a no-op. The animation layer still
   * refers to the bitmap the teardown destroyed, since it is re-pointed only
   * after a successful create.
   */
  lemma FailedLoadPinsOldId(sys: System, id: ResourceId, store: Store, b1: bool, b2: bool)
    requires sys.app.currentId != id && store(id).None?
    requires Inv(sys)
    ensures var s1 := Load(sys, id, store, b1).sys;
      && s1.app.sequence.None? && s1.app.bitmap.None? && s1.app.timer.None?
      && s1.loop.pending == map[]
      && Load(s1, sys.app.currentId, store, b2) == Step(s1, [])
  {
    LoadKeepsInv(sys, id, store, b1);
  }

  /**
   * A failed create is retried: the failed image's id differs from the one
   * recorded, so the next request for it runs the create again, and records
   * the image when that create succeeds.
   */
  lemma FailedLoadIsRetried(sys: System, id: ResourceId, store: Store, retry: Store, b1: bool, b2: bool)
    requires sys.app.currentId != id && store(id).None? && retry(id).Some?
    requires Inv(sys)
    ensures var s2 := Load(Load(sys, id, store, b1).sys, id, retry, b2);
      && CreateSequence(id) in s2.effects
      && s2.sys.app.currentId == id
  {
  }

  /** At 07:59 the night animation plays; the 08:00 tick switches to the day one unprompted. */
  lemma MorningTickSwitchesToDay(store: Store, b1: bool, b2: bool)
    requires store(KittenSleeping).Some? && store(KittenPlayTime).Some?
    ensures Boot(7, store, b1).app.currentId == KittenSleeping
    ensures var s := Tick(Boot(7, store, b1), 8, store, b2).sys;
      && s.app.currentId == KittenPlayTime
      && s.app.sequence == Some(Sequence(store(KittenPlayTime).value.frames, store(KittenPlayTime).value.size, 0))
  {
  }
}

/**
 * Ownership of the battery icon bitmap across calls: the callback keeps the
 * held icon and the live bitmaps in step, never lets two icon bitmaps be
 * alive at once, and `deinit` leaves none alive.
 */
module BatteryFacts {
  import opened Wrappers
  import opened Battery

  /** How many icon bitmaps a run of calls creates. */
  function Creations(cs: seq<Call>): (n: nat)
    decreases |cs|
  {
    if cs == [] then 0
    else Creations(cs[..|cs| - 1]) + (if cs[|cs| - 1].CreateIcon? && cs[|cs| - 1].ok then 1 else 0)
  }

  /** Calls that neither create nor destroy an icon bitmap. */
  predicate IconFree(cs: seq<Call>) {
    forall c :: c in cs ==> !c.CreateIcon? && !c.DestroyIcon?
  }

  lemma {:induction false} HeapAfterAppend(live: multiset<Icon>, a: seq<Call>, b: seq<Call>)
    ensures HeapAfter(live, a + b) == HeapAfter(HeapAfter(live, a), b)
    decreases |b|
  {
    if b == [] {
      assert a + b == a;
    } else {
      var b' := b[..|b| - 1];
      assert (a + b)[..|a + b| - 1] == a + b';
      HeapAfterAppend(live, a, b');
    }
  }

  lemma {:induction false} HeapAfterIconFree(live: multiset<Icon>, cs: seq<Call>)
    requires IconFree(cs)
    ensures HeapAfter(live, cs) == live
    decreases |cs|
  {
    if cs != [] {
      var cs' := cs[..|cs| - 1];
      assert forall c :: c in cs' ==> c in cs;
      HeapAfterIconFree(live, cs');
    }
  }

  /** Each call creates at most one bitmap, so the heap grows by at most the creations. */
  lemma {:induction false} HeapBound(live: multiset<Icon>, cs: seq<Call>)
    ensures |HeapAfter(live, cs)| <= |live| + Creations(cs)
    decreases |cs|
  {
    if cs != [] {
      var cs', last := cs[..|cs| - 1], cs[|cs| - 1];
      HeapBound(live, cs');
      assert HeapAfter(live, cs) == Heap(HeapAfter(live, cs'), last);
    }
  }

  lemma {:induction false} CreationsAppend(a: seq<Call>, b: seq<Call>)
    ensures Creations(a + b) == Creations(a) + Creations(b)
    decreases |b|
  {
    if b == [] {
      assert a + b == a;
    } else {
      var b' := b[..|b| - 1];
      assert (a + b)[..|a + b| - 1] == a + b';
      CreationsAppend(a, b');
    }
  }

  lemma CreationsOfPrefix(cs: seq<Call>, k: nat)
    requires k <= |cs|
    ensures Creations(cs[..k]) <= Creations(cs)
  {
    assert cs == cs[..k] + cs[k..];
    CreationsAppend(cs[..k], cs[k..]);
  }

  /** The label and the destroy of the held icon leave no icon bitmap alive. */
  lemma ReleaseEmpties(f: Face, state: ChargeState)
    requires Owns(f)
    ensures HeapAfter(f.live, CallbackRelease(f.icon, state.percent)) == multiset{}
    ensures Creations(CallbackRelease(f.icon, state.percent)) == 0
  {
    var head := [SetLabel(Label(state.percent))];
    HeapAfterIconFree(f.live, head);
    assert head[..0] == [];
    match f.icon
    case None =>
      assert CallbackRelease(f.icon, state.percent) == head;
    case Some(i) =>
      assert CallbackRelease(f.icon, state.percent) == head + [DestroyIcon(i)];
      HeapAfterAppend(f.live, head, [DestroyIcon(i)]);
      assert [DestroyIcon(i)][..0] == [];
      assert Creations(head + [DestroyIcon(i)]) == 0;
  }

  /** The create and the show: exactly the new icon is alive afterwards, if creation succeeded. */
  lemma InstallOne(icon: Icon, created: bool, shown: Option<Icon>)
    ensures var install := [CreateIcon(icon, created), ShowIcon(shown)];
      && HeapAfter(multiset{}, install) == (if created then multiset{icon} else multiset{})
      && Creations(install) <= 1
  {
    var install := [CreateIcon(icon, created), ShowIcon(shown)];
    var first := [CreateIcon(icon, created)];
    assert install[..1] == first;
    assert first[..0] == [];
    assert HeapAfter(multiset{}, first) == Heap(multiset{}, CreateIcon(icon, created));
    assert Creations(first) == (if created then 1 else 0);
    assert HeapAfter(multiset{}, install) == HeapAfter(multiset{}, first);
  }

  /**
   * `battery_callback` keeps the app's icon and the live bitmaps in step,
   * and at no point during the call are two icon bitmaps alive: the old one
   * is gone before the new one exists.
   */
  lemma OnBatteryKeepsOneIcon(f: Face, state: ChargeState, created: bool)
    requires Owns(f)
    ensures Owns(OnBattery(f, state, created).face)
    ensures AtMostOneLive(f.live, OnBattery(f, state, created).calls)
  {
    var r := OnBattery(f, state, created);
    var release := CallbackRelease(f.icon, state.percent);
    var icon := if created then Some(IconFor(state)) else None;
    var install := CallbackInstall(state, created);
    assert r.calls == release + install;
    ReleaseEmpties(f, state);
    InstallOne(IconFor(state), created, icon);
    HeapAfterAppend(f.live, release, install);
    forall k | 0 <= k <= |r.calls|
      ensures |HeapAfter(f.live, r.calls[..k])| <= 1
    {
      CallbackPrefixBound(f, state, created, k);
    }
  }

  lemma CallbackPrefixBound(f: Face, state: ChargeState, created: bool, k: nat)
    requires Owns(f)
    requires k <= |CallbackCalls(f.icon, state, created)|
    ensures |HeapAfter(f.live, CallbackCalls(f.icon, state, created)[..k])| <= 1
  {
    var release := CallbackRelease(f.icon, state.percent);
    var install := CallbackInstall(state, created);
    ReleaseEmpties(f, state);
    InstallOne(IconFor(state), created, if created then Some(IconFor(state)) else None);
    assert |f.live| <= 1;
    EmptyThenOne(f.live, release, install, k);
  }

  /**
   * A run that creates nothing and ends with nothing alive, followed by a
   * run that creates at most one bitmap, never has two alive, starting from
   * at most one.
   */
  lemma EmptyThenOne(live: multiset<Icon>, a: seq<Call>, b: seq<Call>, k: nat)
    requires |live| <= 1 && Creations(a) == 0 && HeapAfter(live, a) == multiset{}
    requires Creations(b) <= 1
    requires k <= |a + b|
    ensures |HeapAfter(live, (a + b)[..k])| <= 1
  {
    if k <= |a| {
      assert (a + b)[..k] == a[..k];
      CreationsOfPrefix(a, k);
      HeapBound(live, a[..k]);
    } else {
      var part := b[..k - |a|];
      assert (a + b)[..k] == a + part;
      HeapAfterAppend(live, a, part);
      CreationsOfPrefix(b, k - |a|);
      HeapBound(multiset{}, part);
    }
  }

  /** `deinit` destroys the held icon, and only it: no icon bitmap outlives the watchface. */
  lemma DeinitFreesIcon(f: Face)
    requires Owns(f)
    ensures HeapAfter(f.live, Deinit(f).calls) == multiset{}
  {
    var cs := Deinit(f).calls;
    var front := [UnsubscribeServices, DestroyLayers];
    var back := [DestroyBackground, DestroyWindow];
    var mid := if f.icon.Some? then [DestroyIcon(f.icon.value)] else [];
    assert cs == (front + mid) + back;
    assert IconFree(front) && IconFree(back);
    HeapAfterAppend(f.live, front + mid, back);
    HeapAfterAppend(f.live, front, mid);
    HeapAfterIconFree(f.live, front);
    DestroyHeld(f);
    HeapAfterIconFree(HeapAfter(f.live, front + mid), back);
  }

  lemma DestroyHeld(f: Face)
    requires Owns(f)
    ensures HeapAfter(f.live, if f.icon.Some? then [DestroyIcon(f.icon.value)] else []) == multiset{}
  {
    if f.icon.Some? {
      var one := [DestroyIcon(f.icon.value)];
      assert one[..0] == [];
      assert HeapAfter(f.live, one) == Heap(f.live, one[0]);
    }
  }

  lemma {:induction false} ReplayKeepsOwnership(f: Face, events: seq<(ChargeState, bool)>)
    requires Owns(f)
    ensures Owns(Replay(f, events))
    decreases |events|
  {
    if events != [] {
      OnBatteryKeepsOneIcon(f, events[0].0, events[0].1);
      ReplayKeepsOwnership(OnBattery(f, events[0].0, events[0].1).face, events[1..]);
    }
  }

  /**
   * From `init` on, whatever charge states arrive and whichever icon
   * creations fail, at most one battery icon bitmap is alive, and it is the
   * one the app holds.
   */
  lemma AtMostOneIconAlive(first: ChargeState, created: bool, events: seq<(ChargeState, bool)>)
    ensures Owns(Replay(Boot(first, created), events))
    ensures |Replay(Boot(first, created), events).live| <= 1
  {
    OnBatteryKeepsOneIcon(Blank, first, created);
    ReplayKeepsOwnership(Boot(first, created), events);
  }
}

/**
 * The kitten watchface's animation loader and frame scheduler: which image
 * sequence is loaded, which frame the decoder will draw next, and the single
 * self-rearming timer that drives it.
 *
 * Every transition is a pure function from the app's state and the event
 * loop's timer table to their successors, together with the log of SDK calls
 * the C code makes, in order.
 */
module Animation {
  import opened Wrappers
  import opened Timers

  /** `uint32_t` resource ids, as generated by the resource compiler. */
  type ResourceId = x: int | 0 <= x < 0x1_0000_0000

  /** The value `s_current_resource_id` starts with: no animation requested yet. */
  const NoResource: ResourceId := 0
  /** The daytime animation; its real value is build-generated, only "non-zero and distinct" matters. */
  const KittenPlayTime: ResourceId := 1
  /** The night-time animation. */
  const KittenSleeping: ResourceId := 2

  datatype Size = Size(width: nat, height: nat)

  /** One frame of an animated image, with the time it stays on screen. */
  datatype Frame = Frame(delay: Millis)

  /** What the resource pack holds for an id: the frames and the canvas size. */
  datatype Asset = Asset(frames: seq<Frame>, size: Size)

  /** `gbitmap_sequence_create_with_resource`: decodes an id, or fails (`NULL`). */
  type Store = ResourceId -> Option<Asset>

  /** A live `GBitmapSequence`: its frames and the index of the frame it draws next. */
  datatype Sequence = Sequence(frames: seq<Frame>, size: Size, cursor: nat)

  /** The blank 8-bit bitmap the sequence draws into. */
  datatype Bitmap = Bitmap(size: Size)

  /** The file-scope statics `s_current_resource_id`, `s_sequence`, `s_bitmap`, `s_timer`. */
  datatype State = State(
    currentId: ResourceId,
    sequence: Option<Sequence>,
    bitmap: Option<Bitmap>,
    timer: Option<TimerId>)

  /** The app together with the event loop whose timers it arms. */
  datatype System = System(app: State, loop: Loop)

  /** The SDK calls a transition makes, in the order it makes them. */
  datatype Effect =
    | DestroySequence
    | DestroyBitmap
    | CancelTimer(timer: TimerId)
    | CreateSequence(resource: ResourceId)
    | CreateBitmap(size: Size)
    | AttachBitmap(present: bool)
    | RegisterTimer(timer: TimerId, delay: Millis)
    | RenderFrame(index: nat)
    | RestartSequence
    | MarkDirty
    | UnsubscribeTicks
    | DestroyLayers
    | DestroyWindow

  datatype Step = Step(sys: System, effects: seq<Effect>)

  /** What is left once `deinit` has run: the timer table and the calls made. */
  datatype Shutdown = Shutdown(loop: Loop, effects: seq<Effect>)

  /** Before `init`: nothing requested, nothing loaded, no timer. */
  const Initial: System := System(State(NoResource, None, None, None), Quiet)

  /** How one SDK call changes the timer table. */
  function Apply(l: Loop, e: Effect): (r: Loop) {
    match e
    case CancelTimer(t) => Cancel(l, t)
    case RegisterTimer(t, d) => Register(l, t, d)
    case _ => l
  }

  /** The timer table after a run of SDK calls. */
  function Perform(l: Loop, es: seq<Effect>): (r: Loop)
    decreases |es|
  {
    if es == [] then l else Apply(Perform(l, es[..|es| - 1]), es[|es| - 1])
  }

  /** How many timers a run of calls arms. */
  function Registrations(es: seq<Effect>): (n: nat)
    decreases |es|
  {
    if es == [] then 0
    else Registrations(es[..|es| - 1]) + (if es[|es| - 1].RegisterTimer? then 1 else 0)
  }

  /**
   * The scheduler's invariant: the only timer that can be pending is the one
   * `s_timer` names, and every pending handle predates the next one to be
   * issued; a bitmap exists only beside a sequence of its size; the decoder's
   * cursor never runs past one-after-the-last frame.
   */
  ghost predicate Inv(sys: System) {
    && (forall t :: t in sys.loop.pending ==> sys.app.timer == Some(t) && t < sys.loop.nextTimer)
    && (sys.app.bitmap.Some? ==>
          sys.app.sequence.Some? && sys.app.bitmap.value.size == sys.app.sequence.value.size)
    && (sys.app.sequence.Some? ==> sys.app.sequence.value.cursor <= |sys.app.sequence.value.frames|)
  }

  /** A sequence and its bitmap are loaded and the frame timer is armed. */
  predicate Playing(sys: System) {
    && sys.app.sequence.Some?
    && sys.app.bitmap.Some?
    && sys.app.timer.Some?
    && sys.app.timer.value in sys.loop.pending
  }

  /** `is_daytime`: the hour of day falls in the play period, 08:00 up to 18:00. */
  function IsDaytime(hour: int): (day: bool)
    ensures day <==> hour in {8, 9, 10, 11, 12, 13, 14, 15, 16, 17}
  {
    hour >= 8 && hour < 18
  }

  /** The choice `update_time` makes between the two animations. */
  function ResourceFor(hour: int): (id: ResourceId)
    ensures id == KittenPlayTime <==> IsDaytime(hour)
    ensures id == KittenSleeping <==> !IsDaytime(hour)
    ensures id != NoResource
  {
    if IsDaytime(hour) then KittenPlayTime else KittenSleeping
  }

  /** The first half of `load_sequence`: release what is held, then cancel the timer. */
  function Teardown(s: State): (es: seq<Effect>) {
    (if s.sequence.Some? then [DestroySequence] else [])
    + (if s.bitmap.Some? then [DestroyBitmap] else [])
    + (if s.timer.Some? then [CancelTimer(s.timer.value)] else [])
  }

  /** The teardown releases exactly what is held and arms nothing. */
  lemma TeardownShape(s: State)
    ensures forall e :: e in Teardown(s) ==> e.DestroySequence? || e.DestroyBitmap? || e.CancelTimer?
    ensures DestroySequence in Teardown(s) <==> s.sequence.Some?
    ensures DestroyBitmap in Teardown(s) <==> s.bitmap.Some?
    ensures forall t: TimerId :: CancelTimer(t) in Teardown(s) <==> s.timer == Some(t)
  {
  }

  /** What `load_sequence` calls for a new id: teardown, the create, and on success the rest. */
  function LoadCalls(s: State, id: ResourceId, asset: Option<Asset>, blankOk: bool, t: TimerId): (es: seq<Effect>)
  {
    Teardown(s) + LoadRest(id, asset, blankOk, t)
  }

  /**
   * `load_sequence(id)`. A request for the id already recorded does nothing
   * at all. Otherwise the old sequence, bitmap and timer go, and then either
   * the new sequence starts at frame 0 with one timer armed at 0 ms, or the
   * create fails and nothing is loaded while the recorded id stays as it was.
   */
  function Load(sys: System, id: ResourceId, store: Store, blankOk: bool): (step: Step)
    ensures step.sys.loop == Perform(sys.loop, step.effects)
    ensures sys.app.currentId == id ==> step == Step(sys, [])
    ensures forall e :: e in step.effects && e.CreateSequence? ==> e.resource == id
    ensures sys.app.currentId != id ==>
      && CreateSequence(id) in step.effects
      && (DestroySequence in step.effects <==> sys.app.sequence.Some?)
      && (DestroyBitmap in step.effects <==> sys.app.bitmap.Some?)
      && (forall t: TimerId :: CancelTimer(t) in step.effects <==> sys.app.timer == Some(t))
      && Registrations(step.effects) == (if store(id).Some? then 1 else 0)
    ensures sys.app.currentId != id && store(id).None? ==>
      step.sys.app == State(sys.app.currentId, None, None, None)
    ensures sys.app.currentId != id && store(id).Some? ==>
      && step.sys.app.currentId == id
      && step.sys.app.sequence == Some(Sequence(store(id).value.frames, store(id).value.size, 0))
      && step.sys.app.bitmap == (if blankOk then Some(Bitmap(store(id).value.size)) else None)
      && step.sys.app.timer == Some(sys.loop.nextTimer)
  {
    var s := sys.app;
    if s.currentId == id then Step(sys, [])
    else
      var t := sys.loop.nextTimer;
      var es := LoadCalls(s, id, store(id), blankOk, t);
      LoadCallsShape(s, id, store(id), blankOk, t);
      var app :=
        match store(id)
        case None => State(s.currentId, None, None, None)
        case Some(asset) =>
          State(id, Some(Sequence(asset.frames, asset.size, 0)),
                if blankOk then Some(Bitmap(asset.size)) else None, Some(t));
      Step(System(app, Perform(sys.loop, es)), es)
  }

  /** What the calls of `load_sequence` contain. */
  lemma LoadCallsShape(s: State, id: ResourceId, asset: Option<Asset>, blankOk: bool, t: TimerId)
    ensures var es := LoadCalls(s, id, asset, blankOk, t);
      && CreateSequence(id) in es
      && (forall e :: e in es && e.CreateSequence? ==> e.resource == id)
      && (DestroySequence in es <==> s.sequence.Some?)
      && (DestroyBitmap in es <==> s.bitmap.Some?)
      && (forall u: TimerId :: CancelTimer(u) in es <==> s.timer == Some(u))
      && Registrations(es) == (if asset.Some? then 1 else 0)
  {
    LoadCallsReleases(s, id, asset, blankOk, t);
    LoadCallsRegistrations(s, id, asset, blankOk, t);
  }

  /** The calls for a new id create only that id and release exactly what is held. */
  lemma LoadCallsReleases(s: State, id: ResourceId, asset: Option<Asset>, blankOk: bool, t: TimerId)
    ensures var es := LoadCalls(s, id, asset, blankOk, t);
      && CreateSequence(id) in es
      && (forall e :: e in es && e.CreateSequence? ==> e.resource == id)
      && (DestroySequence in es <==> s.sequence.Some?)
      && (DestroyBitmap in es <==> s.bitmap.Some?)
      && (forall u: TimerId :: CancelTimer(u) in es <==> s.timer == Some(u))
  {
    TeardownShape(s);
    LoadCallsMembers(Teardown(s), LoadRest(id, asset, blankOk, t), id);
  }

  /** The calls for a new id register one timer exactly when the create succeeds. */
  lemma LoadCallsRegistrations(s: State, id: ResourceId, asset: Option<Asset>, blankOk: bool, t: TimerId)
    ensures Registrations(LoadCalls(s, id, asset, blankOk, t)) == if asset.Some? then 1 else 0
  {
    var tear, rest := Teardown(s), LoadRest(id, asset, blankOk, t);
    RegistrationsAppend(tear, rest);
    NoRegistrations(tear);
    LoadRestRegistrations(id, asset, blankOk, t);
  }

  /** Membership in a teardown followed by a create step, split by part. */
  lemma LoadCallsMembers(tear: seq<Effect>, rest: seq<Effect>, id: ResourceId)
    requires forall e :: e in tear ==> e.DestroySequence? || e.DestroyBitmap? || e.CancelTimer?
    requires forall e :: e in rest ==> e.CreateSequence? ==> e.resource == id
    requires forall e :: e in rest ==> !e.CancelTimer? && e != DestroySequence && e != DestroyBitmap
    ensures forall e :: e in tear + rest && e.CreateSequence? ==> e.resource == id
    ensures CreateSequence(id) in rest ==> CreateSequence(id) in tear + rest
    ensures DestroySequence in tear + rest <==> DestroySequence in tear
    ensures DestroyBitmap in tear + rest <==> DestroyBitmap in tear
    ensures forall u: TimerId :: CancelTimer(u) in tear + rest <==> CancelTimer(u) in tear
  {
    forall e | e in tear + rest
      ensures e in tear || e in rest
    {
    }
  }

  /** The part of `load_sequence` after the teardown. */
  function LoadRest(id: ResourceId, asset: Option<Asset>, blankOk: bool, t: TimerId): (es: seq<Effect>)
    ensures forall e :: e in es ==> e.CreateSequence? ==> e.resource == id
    ensures CreateSequence(id) in es
    ensures forall e :: e in es ==> !e.CancelTimer? && e != DestroySequence && e != DestroyBitmap
  {
    [CreateSequence(id)]
    + (if asset.Some? then [CreateBitmap(asset.value.size), AttachBitmap(blankOk), RegisterTimer(t, 0)] else [])
  }

  lemma LoadRestRegistrations(id: ResourceId, asset: Option<Asset>, blankOk: bool, t: TimerId)
    ensures Registrations(LoadRest(id, asset, blankOk, t)) == if asset.Some? then 1 else 0
  {
    var rest := LoadRest(id, asset, blankOk, t);
    if asset.Some? {
      var a := asset.value;
      var front := [CreateSequence(id), CreateBitmap(a.size), AttachBitmap(blankOk)];
      assert rest == front + [RegisterTimer(t, 0)];
      RegistrationsAppend(front, [RegisterTimer(t, 0)]);
      NoRegistrations(front);
      assert [RegisterTimer(t, 0)][..0] == [];
    } else {
      NoRegistrations(rest);
    }
  }

  /** `update_time`'s animation choice: request the day or the night sequence. */
  function Tick(sys: System, hour: int, store: Store, blankOk: bool): (step: Step)
    ensures forall e :: e in step.effects && e.CreateSequence? ==> e.resource == ResourceFor(hour)
    ensures sys.app.currentId != ResourceFor(hour) ==> CreateSequence(ResourceFor(hour)) in step.effects
    ensures sys.app.currentId == ResourceFor(hour) ==> step == Step(sys, [])
    ensures step.sys.app.currentId == sys.app.currentId || step.sys.app.currentId == ResourceFor(hour)
    ensures store(ResourceFor(hour)).Some? ==> step.sys.app.currentId == ResourceFor(hour)
  {
    Load(sys, ResourceFor(hour), store, blankOk)
  }

  /**
   * The event loop fires pending timer `t` and calls `timer_handler`. With
   * no sequence or no bitmap it returns and arms nothing; otherwise it draws
   * the next frame and re-arms with that frame's delay, or, past the last
   * frame, rewinds to frame 0 and re-arms at 0 ms.
   */
  function Fire(sys: System, t: TimerId): (step: Step)
    requires t in sys.loop.pending
    ensures step.sys.loop == Perform(Cancel(sys.loop, t), step.effects)
    ensures step.sys.app.currentId == sys.app.currentId
    ensures step.sys.app.bitmap == sys.app.bitmap
    ensures sys.app.sequence.None? || sys.app.bitmap.None? ==>
      step.sys.app == sys.app && step.effects == [] && step.sys.loop == Cancel(sys.loop, t)
    ensures sys.app.sequence.Some? && sys.app.bitmap.Some? ==>
      var q := sys.app.sequence.value;
      var n := sys.loop.nextTimer;
      && step.sys.app.sequence.Some?
      && step.sys.app.sequence.value.frames == q.frames
      && step.sys.app.sequence.value.size == q.size
      && step.sys.app.timer == Some(n)
      && step.sys.loop == Register(Cancel(sys.loop, t), n, if q.cursor < |q.frames| then q.frames[q.cursor].delay else 0)
      && (q.cursor < |q.frames| ==>
            step.sys.app.sequence.value.cursor == q.cursor + 1 && RenderFrame(q.cursor) in step.effects)
      && (q.cursor >= |q.frames| ==>
            step.sys.app.sequence.value.cursor == 0 && RestartSequence in step.effects)
  {
    var l := Cancel(sys.loop, t);
    var s := sys.app;
    if s.sequence.None? || s.bitmap.None? then Step(System(s, l), [])
    else
      var q := s.sequence.value;
      var n := l.nextTimer;
      if q.cursor < |q.frames| then
        var delay := q.frames[q.cursor].delay;
        var es := [RenderFrame(q.cursor), RegisterTimer(n, delay), MarkDirty];
        PerformRearm(l, RenderFrame(q.cursor), n, delay);
        Step(System(s.(sequence := Some(q.(cursor := q.cursor + 1)), timer := Some(n)), Register(l, n, delay)), es)
      else
        var es := [RestartSequence, RegisterTimer(n, 0), MarkDirty];
        PerformRearm(l, RestartSequence, n, 0);
        Step(System(s.(sequence := Some(q.(cursor := 0)), timer := Some(n)), Register(l, n, 0)), es)
  }

  /** What `deinit` calls: stop ticks, cancel, destroy layers, sequence, bitmap, window. */
  function DeinitCalls(s: State): (es: seq<Effect>) {
    DeinitHead(s) + DeinitTail(s)
  }

  /**
   * `deinit`: each held resource is released exactly when it is held, and
   * the timer is cancelled before any of them is destroyed.
   */
  function Deinit(sys: System): (r: Shutdown)
    ensures r.loop == Perform(sys.loop, r.effects)
    ensures forall t: TimerId :: CancelTimer(t) in r.effects <==> sys.app.timer == Some(t)
    ensures DestroySequence in r.effects <==> sys.app.sequence.Some?
    ensures DestroyBitmap in r.effects <==> sys.app.bitmap.Some?
    ensures forall i, j ::
      (0 <= i < |r.effects| && 0 <= j < |r.effects| && r.effects[i].CancelTimer?
       && (r.effects[j] == DestroySequence || r.effects[j] == DestroyBitmap)) ==> i < j
  {
    var es := DeinitCalls(sys.app);
    DeinitCallsShape(sys.app);
    Shutdown(Perform(sys.loop, es), es)
  }

  lemma DeinitCallsShape(s: State)
    ensures var es := DeinitCalls(s);
      && (forall t: TimerId :: CancelTimer(t) in es <==> s.timer == Some(t))
      && (DestroySequence in es <==> s.sequence.Some?)
      && (DestroyBitmap in es <==> s.bitmap.Some?)
      && forall i, j ::
           (0 <= i < |es| && 0 <= j < |es| && es[i].CancelTimer?
            && (es[j] == DestroySequence || es[j] == DestroyBitmap)) ==> i < j
  {
    var head, tail := DeinitHead(s), DeinitTail(s);
    assert DeinitCalls(s) == head + tail;
    assert forall e :: e in head + tail <==> e in head || e in tail;
    OrderedSplit(head, tail);
  }

  /** `deinit`'s calls up to and including the cancel. */
  function DeinitHead(s: State): (es: seq<Effect>)
    ensures forall e :: e in es ==> e != DestroySequence && e != DestroyBitmap
  {
    [UnsubscribeTicks] + (if s.timer.Some? then [CancelTimer(s.timer.value)] else [])
  }

  /** `deinit`'s calls after the cancel. */
  function DeinitTail(s: State): (es: seq<Effect>)
    ensures forall e :: e in es ==> !e.CancelTimer? && !e.RegisterTimer?
  {
    [DestroyLayers]
      + (if s.sequence.Some? then [DestroySequence] else [])
      + (if s.bitmap.Some? then [DestroyBitmap] else [])
      + [DestroyWindow]
  }

  /** In `a + b`, with no destroy in `a` and no cancel in `b`, cancels sit before destroys. */
  lemma OrderedSplit(a: seq<Effect>, b: seq<Effect>)
    requires forall e :: e in a ==> e != DestroySequence && e != DestroyBitmap
    requires forall e :: e in b ==> !e.CancelTimer?
    ensures forall k :: 0 <= k < |a + b| && (a + b)[k].CancelTimer? ==> k < |a|
    ensures forall k :: 0 <= k < |a + b| && ((a + b)[k] == DestroySequence || (a + b)[k] == DestroyBitmap) ==> |a| <= k
  {
    forall k | 0 <= k < |a + b|
      ensures (a + b)[k].CancelTimer? ==> k < |a|
      ensures (a + b)[k] == DestroySequence || (a + b)[k] == DestroyBitmap ==> |a| <= k
    {
      if k < |a| {
        assert (a + b)[k] == a[k] && a[k] in a;
      } else {
        assert (a + b)[k] == b[k - |a|] && b[k - |a|] in b;
      }
    }
  }

  /**
   * What the event loop delivers: a minute tick, or the expiry of a timer.
   * A tick carries the outcomes of the creates `update_time` may make: what
   * `gbitmap_sequence_create_with_resource` returns for the requested image
   * this time, and whether `gbitmap_create_blank` succeeds.
   */
  datatype Event =
    | MinuteTick(hour: int, created: Option<Asset>, blankOk: bool)
    | TimerExpired(timer: TimerId)

  /**
   * `tick_handler` on a tick; `timer_handler` when a pending timer expires.
   * The expiry of a handle that is no longer pending delivers nothing.
   */
  function Dispatch(sys: System, e: Event): (r: System)
    ensures e.TimerExpired? && e.timer !in sys.loop.pending ==> r == sys
    ensures e.TimerExpired? ==> r.app.currentId == sys.app.currentId
    ensures e.MinuteTick? ==>
      r.app.currentId == sys.app.currentId || r.app.currentId == ResourceFor(e.hour)
    ensures e.MinuteTick? && e.created.Some? ==> r.app.currentId == ResourceFor(e.hour)
  {
    match e
    case MinuteTick(hour, created, blankOk) => Tick(sys, hour, _ => created, blankOk).sys
    case TimerExpired(t) => if t in sys.loop.pending then Fire(sys, t).sys else sys
  }

  /** Every event is a timer expiry: no tick arrives. */
  predicate OnlyExpiries(events: seq<Event>) {
    forall i :: 0 <= i < |events| ==> events[i].TimerExpired?
  }

  /**
   * The state after the event loop has delivered `events` in order. Only
   * ticks change the recorded id, and only ever to one of the two kitten
   * images; a last tick whose create succeeds leaves its image recorded.
   */
  function Replay(sys: System, events: seq<Event>): (r: System)
    ensures OnlyExpiries(events) ==> r.app.currentId == sys.app.currentId
    ensures r.app.currentId == sys.app.currentId
      || r.app.currentId == KittenPlayTime || r.app.currentId == KittenSleeping
    ensures |events| > 0 && events[|events| - 1].MinuteTick? && events[|events| - 1].created.Some? ==>
      r.app.currentId == ResourceFor(events[|events| - 1].hour)
    decreases |events|
  {
    if events == [] then sys
    else
      assert OnlyExpiries(events) ==> OnlyExpiries(events[1..]);
      Replay(Dispatch(sys, events[0]), events[1..])
  }

  /**
   * `init`: the first `update_time` runs on the pristine state. The image
   * for the hour is recorded, at frame 0 and with its timer, exactly when
   * its create succeeds; otherwise the app is still pristine.
   */
  function Boot(hour: int, store: Store, blankOk: bool): (r: System)
    ensures store(ResourceFor(hour)).Some? ==>
      && r.app.currentId == ResourceFor(hour)
      && r.app.sequence.Some? && r.app.sequence.value.cursor == 0
      && r.app.timer.Some?
    ensures store(ResourceFor(hour)).None? ==> r.app == Initial.app
  {
    Tick(Initial, hour, store, blankOk).sys
  }

  /** Calls that neither register nor cancel a timer. */
  predicate TimerFree(es: seq<Effect>) {
    forall e :: e in es ==> !e.RegisterTimer? && !e.CancelTimer?
  }

  /** A frame step's calls touch the timer table only through the one registration. */
  lemma PerformRearm(l: Loop, first: Effect, n: TimerId, delay: Millis)
    requires first == RestartSequence || first.RenderFrame?
    ensures Perform(l, [first, RegisterTimer(n, delay), MarkDirty]) == Register(l, n, delay)
  {
    var es := [first, RegisterTimer(n, delay), MarkDirty];
    assert es[..2] == [first, RegisterTimer(n, delay)];
    assert es[..2][..1] == [first];
    assert [first][..0] == [];
    assert Perform(l, [first]) == l;
    assert Perform(l, es[..2]) == Register(l, n, delay);
  }

  lemma {:induction false} RegistrationsAppend(a: seq<Effect>, b: seq<Effect>)
    ensures Registrations(a + b) == Registrations(a) + Registrations(b)
    decreases |b|
  {
    if b == [] {
      assert a + b == a;
    } else {
      var b' := b[..|b| - 1];
      assert (a + b)[..|a + b| - 1] == a + b';
      RegistrationsAppend(a, b');
    }
  }

  lemma {:induction false} NoRegistrations(es: seq<Effect>)
    requires forall e :: e in es ==> !e.RegisterTimer?
    ensures Registrations(es) == 0
    decreases |es|
  {
    if es != [] {
      var es' := es[..|es| - 1];
      assert forall e :: e in es' ==> e in es;
      NoRegistrations(es');
    }
  }
}

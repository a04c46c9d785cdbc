/**
 * The battery corner of the watchface: which of five icons `battery_callback`
 * shows for a charge state, the "<n>%" label beside it, and the rule that the
 * previous icon bitmap is destroyed before the next one is created, so that at
 * most one icon bitmap is ever alive.
 */
module Battery {
  import opened Wrappers
  import Decimal

  /** `uint8_t charge_percent` of `BatteryChargeState`. */
  type Percent = x: int | 0 <= x < 256

  /** The fields of `BatteryChargeState` the callback reads. */
  datatype ChargeState = ChargeState(percent: Percent, charging: bool)

  /** The five battery icon resources. */
  datatype Icon = BatteryCharging | BatteryFull | BatteryHealthy | BatteryHalf | BatteryLow

  /** Size of the callback's static text buffer, terminator included. */
  const LabelBufferSize: nat := 16

  /**
   * The icon cascade: charging wins over any percentage; otherwise exactly
   * 100 is full, from 60 up healthy, from 40 up half, and below that low.
   * A percentage above 100, which the `uint8_t` admits, reads as healthy.
   */
  function IconFor(state: ChargeState): (icon: Icon)
    ensures icon == BatteryCharging <==> state.charging
    ensures icon == BatteryFull <==> !state.charging && state.percent == 100
    ensures icon == BatteryHealthy <==> !state.charging && state.percent >= 60 && state.percent != 100
    ensures icon == BatteryHalf <==> !state.charging && 40 <= state.percent < 60
    ensures icon == BatteryLow <==> !state.charging && state.percent < 40
  {
    if state.charging then BatteryCharging
    else if state.percent == 100 then BatteryFull
    else if state.percent >= 60 then BatteryHealthy
    else if state.percent >= 40 then BatteryHalf
    else BatteryLow
  }

  /** How full an icon draws the battery; charging is drawn apart from the scale. */
  function Fullness(icon: Icon): (level: nat) {
    match icon
    case BatteryLow => 0
    case BatteryHalf => 1
    case BatteryHealthy => 2
    case BatteryFull => 3
    case BatteryCharging => 4
  }

  /** Over the real range 0..100, more charge never shows an emptier icon. */
  lemma DischargingIconIsMonotone(p: Percent, q: Percent)
    requires p <= q <= 100
    ensures Fullness(IconFor(ChargeState(p, false))) <= Fullness(IconFor(ChargeState(q, false)))
  {
  }

  /** `"%d%%"` of the percentage: its decimal digits and one `%`. */
  function Label(percent: Percent): (s: string)
    ensures 2 <= |s| && |s| + 1 <= LabelBufferSize
    ensures s[|s| - 1] == '%'
    ensures Decimal.Parse(s[..|s| - 1]) == Some(percent as nat)
  {
    var digits := Decimal.Show(percent);
    Decimal.ParseShow(percent);
    var s := digits + "%";
    assert s[..|s| - 1] == digits;
    s
  }

  /** Reads a label back; anything not of the form "<digits>%" within range is rejected. */
  function ParseLabel(s: string): (r: Option<Percent>)
    ensures r.Some? ==> |s| >= 2 && s[|s| - 1] == '%'
  {
    if |s| >= 2 && s[|s| - 1] == '%' then
      match Decimal.Parse(s[..|s| - 1])
      case Some(n) => if n < 256 then Some(n) else None
      case None => None
    else None
  }

  /** Reading a label gives back the percentage it was written from. */
  lemma LabelRoundTrip(p: Percent)
    ensures ParseLabel(Label(p)) == Some(p)
  {
  }

  /** Every label that reads back is the label of what it reads as. */
  lemma ParseLabelRoundTrip(s: string)
    ensures ParseLabel(s).Some? ==> Label(ParseLabel(s).value) == s
  {
    if ParseLabel(s).Some? {
      var digits := s[..|s| - 1];
      Decimal.ShowParse(digits);
      assert s == digits + "%";
    }
  }

  /** The SDK calls the battery code makes, in order. */
  datatype Call =
    | SetLabel(text: string)
    | DestroyIcon(icon: Icon)
    | CreateIcon(icon: Icon, ok: bool)
    | ShowIcon(shown: Option<Icon>)
    | UnsubscribeServices
    | DestroyLayers
    | DestroyBackground
    | DestroyWindow

  /**
   * The statics `s_battery_icon` (the icon the app holds), the icon bitmaps
   * alive in the heap, and what the two battery layers display.
   */
  datatype Face = Face(icon: Option<Icon>, live: multiset<Icon>, text: string, shown: Option<Icon>)

  datatype FaceStep = FaceStep(face: Face, calls: seq<Call>)

  /** Before `init`: no icon held, none alive, nothing displayed. */
  const Blank: Face := Face(None, multiset{}, "", None)

  /** How one call changes the live icon bitmaps. */
  function Heap(live: multiset<Icon>, c: Call): (r: multiset<Icon>)
    ensures |r| <= |live| + (if c.CreateIcon? && c.ok then 1 else 0)
  {
    match c
    case DestroyIcon(i) =>
      assert live == (live - multiset{i}) + (live * multiset{i});
      live - multiset{i}
    case CreateIcon(i, ok) => if ok then live + multiset{i} else live
    case _ => live
  }

  /** The live icon bitmaps after a run of calls. */
  function HeapAfter(live: multiset<Icon>, cs: seq<Call>): (r: multiset<Icon>)
    decreases |cs|
  {
    if cs == [] then live else Heap(HeapAfter(live, cs[..|cs| - 1]), cs[|cs| - 1])
  }

  /** The app holds exactly the icon bitmaps that are alive: nothing leaked, nothing dangling. */
  ghost predicate Owns(f: Face) {
    f.live == if f.icon.Some? then multiset{f.icon.value} else multiset{}
  }

  /** At every point of a run of calls, at most one icon bitmap is alive. */
  ghost predicate AtMostOneLive(live: multiset<Icon>, cs: seq<Call>) {
    forall k :: 0 <= k <= |cs| ==> |HeapAfter(live, cs[..k])| <= 1
  }

  /** What `battery_callback` calls: label, destroy the old icon, create and show the new. */
  function CallbackCalls(held: Option<Icon>, state: ChargeState, created: bool): (cs: seq<Call>) {
    CallbackRelease(held, state.percent) + CallbackInstall(state, created)
  }

  /** The label and the destroy of the held icon. */
  function CallbackRelease(held: Option<Icon>, percent: Percent): (cs: seq<Call>)
    ensures forall c :: c in cs ==> !c.CreateIcon?
  {
    [SetLabel(Label(percent))] + (if held.Some? then [DestroyIcon(held.value)] else [])
  }

  /** The create of the new icon and its hand-over to the layer. */
  function CallbackInstall(state: ChargeState, created: bool): (cs: seq<Call>)
    ensures forall c :: c in cs ==> !c.DestroyIcon?
  {
    [CreateIcon(IconFor(state), created), ShowIcon(if created then Some(IconFor(state)) else None)]
  }

  lemma CallbackCallsShape(held: Option<Icon>, state: ChargeState, created: bool)
    ensures var cs := CallbackCalls(held, state, created);
      && (forall i :: DestroyIcon(i) in cs <==> held == Some(i))
      && forall i, j ::
           (0 <= i < |cs| && 0 <= j < |cs| && cs[i].DestroyIcon? && cs[j].CreateIcon?) ==> i < j
  {
    var a, b := CallbackRelease(held, state.percent), CallbackInstall(state, created);
    assert forall c :: c in a + b <==> c in a || c in b;
    DestroyBeforeCreate(a, b);
  }

  /** In `a + b`, with no create in `a` and no destroy in `b`, destroys sit before creates. */
  lemma DestroyBeforeCreate(a: seq<Call>, b: seq<Call>)
    requires forall c :: c in a ==> !c.CreateIcon?
    requires forall c :: c in b ==> !c.DestroyIcon?
    ensures forall k :: 0 <= k < |a + b| && (a + b)[k].DestroyIcon? ==> k < |a|
    ensures forall k :: 0 <= k < |a + b| && (a + b)[k].CreateIcon? ==> |a| <= k
  {
    forall k | 0 <= k < |a + b|
      ensures (a + b)[k].DestroyIcon? ==> k < |a|
      ensures (a + b)[k].CreateIcon? ==> |a| <= k
    {
      if k < |a| {
        assert (a + b)[k] == a[k] && a[k] in a;
      } else {
        assert (a + b)[k] == b[k - |a|] && b[k - |a|] in b;
      }
    }
  }

  /**
   * `battery_callback(state)`; `created` says whether
   * `gbitmap_create_with_resource` succeeded. The label shows the
   * percentage, the layer shows the new icon, and an old icon is destroyed
   * before the new one is created.
   */
  function OnBattery(f: Face, state: ChargeState, created: bool): (r: FaceStep)
    ensures r.face.text == Label(state.percent)
    ensures r.face.icon == (if created then Some(IconFor(state)) else None)
    ensures r.face.shown == r.face.icon
    ensures r.face.live == HeapAfter(f.live, r.calls)
    ensures forall i :: DestroyIcon(i) in r.calls <==> f.icon == Some(i)
    ensures forall i, j ::
      (0 <= i < |r.calls| && 0 <= j < |r.calls| && r.calls[i].DestroyIcon? && r.calls[j].CreateIcon?) ==> i < j
  {
    var cs := CallbackCalls(f.icon, state, created);
    CallbackCallsShape(f.icon, state, created);
    var icon := if created then Some(IconFor(state)) else None;
    FaceStep(Face(icon, HeapAfter(f.live, cs), Label(state.percent), icon), cs)
  }

  /**
   * `init` ends by calling the callback with the state
   * `battery_state_service_peek` reports: the label and the icon for that
   * state are up, and the icon's bitmap is the only one alive.
   */
  function Boot(state: ChargeState, created: bool): (r: Face)
    ensures r.text == Label(state.percent)
    ensures r.icon == (if created then Some(IconFor(state)) else None)
    ensures r.shown == r.icon
    ensures r.live == if created then multiset{IconFor(state)} else multiset{}
  {
    FirstCallbackHeap(state, created);
    OnBattery(Blank, state, created).face
  }

  /** On an empty heap, the first callback leaves alive just the icon it created. */
  lemma FirstCallbackHeap(state: ChargeState, created: bool)
    ensures HeapAfter(multiset{}, CallbackCalls(None, state, created))
      == if created then multiset{IconFor(state)} else multiset{}
  {
    var shown := if created then Some(IconFor(state)) else None;
    assert CallbackCalls(None, state, created)
      == [SetLabel(Label(state.percent)), CreateIcon(IconFor(state), created), ShowIcon(shown)];
    LabelCreateShow(Label(state.percent), IconFor(state), created, shown);
  }

  lemma LabelCreateShow(text: string, icon: Icon, ok: bool, shown: Option<Icon>)
    ensures HeapAfter(multiset{}, [SetLabel(text), CreateIcon(icon, ok), ShowIcon(shown)])
      == if ok then multiset{icon} else multiset{}
  {
    var a, b, c := SetLabel(text), CreateIcon(icon, ok), ShowIcon(shown);
    assert [a, b, c][..2] == [a, b];
    assert [a, b][..1] == [a];
    assert [a][..0] == [];
    assert HeapAfter(multiset{}, [a]) == multiset{};
    assert HeapAfter(multiset{}, [a, b]) == Heap(multiset{}, b);
  }

  /**
   * The state after the battery service has delivered `events` in order:
   * the show and the icon are those of the last state delivered.
   */
  function Replay(f: Face, events: seq<(ChargeState, bool)>): (r: Face)
    ensures events == [] ==> r == f
    ensures events != [] ==>
      var last := events[|events| - 1];
      && r.text == Label(last.0.percent)
      && r.icon == (if last.1 then Some(IconFor(last.0)) else None)
      && r.shown == r.icon
    decreases |events|
  {
    if events == [] then f
    else
      var rest := events[1..];
      assert rest != [] ==> rest[|rest| - 1] == events[|events| - 1];
      Replay(OnBattery(f, events[0].0, events[0].1).face, rest)
  }

  /**
   * `deinit`: unsubscribe, destroy the layers, the icon if one is held, the
   * background, the window. The resulting `icon` of `None` means the face owns
   * no icon any more; the C code leaves `s_battery_icon` pointing at the
   * destroyed bitmap, which nothing reads before `main` returns.
   */
  function Deinit(f: Face): (r: FaceStep)
    ensures forall i :: DestroyIcon(i) in r.calls <==> f.icon == Some(i)
    ensures r.face.live == HeapAfter(f.live, r.calls)
    ensures r.face.icon.None?
  {
    var cs := [UnsubscribeServices, DestroyLayers]
      + (if f.icon.Some? then [DestroyIcon(f.icon.value)] else [])
      + [DestroyBackground, DestroyWindow];
    FaceStep(Face(None, HeapAfter(f.live, cs), f.text, f.shown), cs)
  }
}

# Pebble watchfaces: kitten animation scheduler and battery corner

This project models the decision logic of two Pebble watchfaces in Dafny.
Each part is modelled as pure functions over immutable state.

**Kitten clock** (`meow-o-clock`):
- which of two animated images is requested for the hour of day;
- `load_sequence`, which tears down the old animation and loads the new one;
- `timer_handler`, which draws one frame and re-arms a one-shot timer;
- `deinit`.

The app's statics (`s_current_resource_id`, `s_sequence`, `s_bitmap`, `s_timer`) form a `State`. The event loop's table of pending one-shot timers forms a `Loop`. Every transition returns the next state together with the ordered list of SDK calls it made. A timer table after any prefix of those calls can therefore be computed (`Perform`), and "at no point" properties can be stated.

**Battery corner** (`watchface`):
- the charging/percentage cascade that picks one of five icons;
- the `"<n>%"` label;
- the ownership rule that the old icon bitmap is destroyed before the new one is created.

The live icon bitmaps are a multiset. Each call log is replayed over it.

Files:
- `wrappers.dfy`: `Option`.
- `decimal.dfy`: `%d` printing of non-negative numbers, its parser, and both round trips.
- `timers.dfy`: `app_timer_register` and `app_timer_cancel` over a timer table.
- `animation.dfy`: the kitten clock's state, its transitions and their call logs.
- `animation_facts.dfy`: the invariant the transitions keep, and the properties that need it. These are at most one pending timer, cancel before destroy, endless looping, and the day/night choice.
- `battery.dfy`: the icon cascade, the label and the callback.
- `battery_facts.dfy`: single-live-icon ownership across callbacks and `deinit`.

The SDK's resource decoding and bitmap allocation are oracles passed in as parameters:
- `Store` maps a resource id to an optional frame list. It models `gbitmap_sequence_create_with_resource` for the first `update_time` in `init`.
- Each later minute tick carries its own outcome of that create (`created`), so a create that fails on one tick and succeeds on a later retry is covered.
- `blankOk` says whether `gbitmap_create_blank` succeeded. It too is given per tick.
- In the battery watchface, `created` says whether `gbitmap_create_with_resource` succeeded for the icon.

In the model each timer registration receives a fresh handle. A timer that fires leaves the table before its handler runs.

A failed `load_sequence` follows the C code. The code destroys the old sequence and bitmap and cancels the timer before it tries the create. So a failed create leaves nothing loaded, instead of keeping the previous animation. The recorded id is updated only on success. A later request for the old id is therefore a no-op (`AnimationFacts.FailedLoadPinsOldId`). The image whose create failed is a different id from the recorded one. So every later minute tick in its own period tries the create again, and the first that succeeds loads it (`AnimationFacts.FailedLoadIsRetried`). Only a tick in the recorded id's period does nothing. Meanwhile the animation layer still refers to the bitmap the teardown destroyed, because `bitmap_layer_set_bitmap` (line 50) runs only after a successful create.

## Model

| member | source | states |
|---|---|---|
| Animation.ResourceFor | meow-o-clock/src/c/meow-o-clock.c:12-16 | the day image is requested exactly when 8 <= hour < 18, the night image exactly otherwise; neither is the "nothing yet" id 0 |
| Animation.IsDaytime | meow-o-clock/src/c/meow-o-clock.c:12-16 | the hour is daytime exactly when it is one of the ten hours 08 to 17 |
| Animation.Dispatch | meow-o-clock/src/c/meow-o-clock.c:58-101 | an expiry of a handle no longer pending changes nothing; an expiry never changes the recorded id; a tick records either the old id or the image for its hour, and the latter whenever its create succeeds |
| Animation.Replay | meow-o-clock/src/c/meow-o-clock.c:58-101 | a run of expiries alone keeps the recorded id; any run leaves recorded the starting id or one of the two kitten images; a run ending in a tick whose create succeeds leaves that tick's image recorded |
| Animation.Boot | meow-o-clock/src/c/meow-o-clock.c:133 | after `init` the image for the hour is recorded, at frame 0 with a timer, exactly when its create succeeds; otherwise the app is still in its initial state |
| Animation.Load | meow-o-clock/src/c/meow-o-clock.c:20-56 | same id: no call at all and nothing changes; new id: the create is for that id, the sequence/bitmap are destroyed and the timer cancelled exactly when held, one timer is armed exactly when the create succeeds; failure: nothing loaded, no timer, old id kept; success: id recorded, sequence at frame 0, bitmap iff the blank allocation succeeded, the fresh timer recorded |
| Animation.Tick | meow-o-clock/src/c/meow-o-clock.c:90-96 | `update_time` only ever creates the image chosen for the hour; it is a no-op when that image is already recorded, and records it whenever its create succeeds |
| Animation.Fire | meow-o-clock/src/c/meow-o-clock.c:58-76 | without a sequence or bitmap nothing is drawn or armed; otherwise frames and size are kept, the next frame is drawn and the timer re-armed with its delay, or past the last frame the sequence restarts and the timer is re-armed at 0 ms |
| Animation.Deinit | meow-o-clock/src/c/meow-o-clock.c:136-159 | the timer is cancelled, and the sequence and bitmap destroyed, exactly when held; every cancel comes before every destroy |
| Animation.LoadCallsShape | meow-o-clock/src/c/meow-o-clock.c:26-55 | the calls for a new id destroy/cancel exactly what is held, create only the requested id, and register one timer iff the create succeeds |
| Animation.DeinitCallsShape | meow-o-clock/src/c/meow-o-clock.c:140-155 | `deinit`'s calls cancel before they destroy, and release exactly what is held |
| Timers.AtMostOneWithin | meow-o-clock/src/c/meow-o-clock.c:8 | when every pending timer is the one handle the app holds, at most one is pending, and one is pending iff that handle is |
| AnimationFacts.LoadKeepsInv | meow-o-clock/src/c/meow-o-clock.c:20-56 | a load of a new id keeps the scheduler invariant and leaves pending exactly the fresh 0 ms timer, or nothing when the create failed |
| AnimationFacts.CallsTimerTable | meow-o-clock/src/c/meow-o-clock.c:36-54 | after the calls of a load, the timer table holds only the new 0 ms timer (none on failure) |
| AnimationFacts.TeardownQuiets | meow-o-clock/src/c/meow-o-clock.c:26-40 | the teardown leaves no timer pending and issues no new handle |
| AnimationFacts.LoadNeverTwoPending | meow-o-clock/src/c/meow-o-clock.c:36-54 | at every point of `load_sequence` at most one timer is pending: the old one is cancelled before the new one is armed |
| AnimationFacts.TickKeepsInv | meow-o-clock/src/c/meow-o-clock.c:78-97 | `update_time` keeps the scheduler invariant |
| AnimationFacts.FireKeepsInv | meow-o-clock/src/c/meow-o-clock.c:58-76 | `timer_handler` keeps the invariant; with a sequence and bitmap the animation keeps playing with exactly one timer pending, without them no timer is left |
| AnimationFacts.DeinitQuietsBeforeRelease | meow-o-clock/src/c/meow-o-clock.c:140-155 | from any reachable state no timer is pending when the sequence or bitmap is destroyed, nor after `deinit` |
| AnimationFacts.CursorCycles | meow-o-clock/src/c/meow-o-clock.c:65-72 | n firings move the frame cursor n steps round a cycle of (frames + 1) positions, so the animation loops forever |
| AnimationFacts.FireStep | meow-o-clock/src/c/meow-o-clock.c:63-75 | one firing of the armed frame timer keeps the animation playing and moves only the cursor, by one step of the cycle |
| AnimationFacts.Animate | meow-o-clock/src/c/meow-o-clock.c:58-76 | any number of consecutive firings keep the invariant and the timer armed, change nothing but the cursor, and leave it where the cycle says |
| AnimationFacts.DispatchKeepsInv | meow-o-clock/src/c/meow-o-clock.c:58-101 | every minute tick and every timer expiry keeps the invariant |
| AnimationFacts.ReplayKeepsInv | meow-o-clock/src/c/meow-o-clock.c:58-101 | any sequence of ticks and expiries keeps the invariant |
| AnimationFacts.AtMostOnePendingTimer | meow-o-clock/src/c/meow-o-clock.c:130-133 | from `init` on, whatever the hour, the outcome of every create on every tick (including a failure followed by a successful retry) and the order of events, at most one timer is ever pending |
| AnimationFacts.DaytimeChangesOnlyAtBoundaries | meow-o-clock/src/c/meow-o-clock.c:12-16 | the day/night classification flips exactly at 08:00 and at 18:00, and midnight is night |
| AnimationFacts.SamePeriodTicksAreIdle | meow-o-clock/src/c/meow-o-clock.c:91-96 | once a period's image has loaded, every later tick in that period does nothing |
| AnimationFacts.InitialIdIsLoaded | meow-o-clock/src/c/meow-o-clock.c:10 | a request for id 0 in the initial state is a no-op |
| AnimationFacts.FailedLoadPinsOldId | meow-o-clock/src/c/meow-o-clock.c:26-55 | a failed create leaves no sequence, bitmap or pending timer, yet the old id stays recorded, so requesting it again does nothing |
| AnimationFacts.FailedLoadIsRetried | meow-o-clock/src/c/meow-o-clock.c:20-56 | after a failed create the next request for the same image runs the create again, and records the image when that create succeeds |
| AnimationFacts.MorningTickSwitchesToDay | meow-o-clock/src/c/meow-o-clock.c:91-96 | booted at 07:00 the night image is recorded; the 08:00 tick loads the day image at frame 0 |
| Battery.IconFor | watchface/src/c/watchface.c:42-52 | charging gives the charging icon whatever the percentage; otherwise exactly 100 is full, 60 and up (other than 100) healthy, 40-59 half, below 40 low; exactly one icon per state |
| Battery.DischargingIconIsMonotone | watchface/src/c/watchface.c:44-52 | on 0..100 while discharging, more charge never selects an emptier icon |
| Battery.Label | watchface/src/c/watchface.c:30-31 | the label is the percentage's decimal digits followed by one `%`, and fits the 16-byte buffer with its terminator |
| Battery.LabelRoundTrip | watchface/src/c/watchface.c:31 | reading a label back gives the percentage it was printed from |
| Battery.ParseLabelRoundTrip | watchface/src/c/watchface.c:31 | every string that reads as a label is exactly the label of its value |
| Battery.CallbackCallsShape | watchface/src/c/watchface.c:36-52 | the callback destroys exactly the held icon, and every destroy precedes every create |
| Battery.OnBattery | watchface/src/c/watchface.c:28-56 | the label shows the percentage, the layer shows the newly selected icon (nothing if its creation failed), the held icon is destroyed iff held and before the create |
| Battery.Boot | watchface/src/c/watchface.c:122-123 | after `init` the label and icon of the peeked state are up, and the icon bitmap (if its create succeeded) is the only one alive |
| Battery.Replay | watchface/src/c/watchface.c:28-56 | after a run of callbacks the label, the held icon and the shown icon are those of the last state delivered; an empty run changes nothing |
| Battery.Deinit | watchface/src/c/watchface.c:126-145 | `deinit` destroys the icon bitmap exactly when one is held, and afterwards the face owns no icon |
| BatteryFacts.OnBatteryKeepsOneIcon | watchface/src/c/watchface.c:36-55 | the callback keeps the held icon equal to the live icon bitmaps, and at no point during it are two icon bitmaps alive |
| BatteryFacts.DeinitFreesIcon | watchface/src/c/watchface.c:137-140 | `deinit` leaves no icon bitmap alive |
| BatteryFacts.ReplayKeepsOwnership | watchface/src/c/watchface.c:28-56 | any sequence of callbacks keeps the held icon equal to the live icon bitmaps |
| BatteryFacts.AtMostOneIconAlive | watchface/src/c/watchface.c:120-123 | from `init` on, whatever charge states arrive and whichever creates fail, at most one icon bitmap is alive and it is the held one |
| Decimal.Show | watchface/src/c/watchface.c:31 | `%d` prints a canonical digit string (no leading zero) denoting the number, of 1, 2 or 3 characters below 10, 100, 1000 |
| Decimal.ParseShow | watchface/src/c/watchface.c:31 | reading printed digits gives the number back |
| Decimal.ShowParse | watchface/src/c/watchface.c:31 | every string that reads as a number is exactly how that number prints |
| Decimal.CanonicalValueInjective | watchface/src/c/watchface.c:31 | two canonical digit strings with the same value are equal |

## Left out

- Window, layer, font, colour and layout code, and the `strftime` time text, in both watchfaces. These are user-interface plumbing with no decisions. They appear only as opaque calls such as `DestroyLayers`.
- The third watchface file, `src/c/watchface.c`. It holds only window and time-display code.
- APNG decoding and the internals of the bitmap calls. A sequence is a list of frames with delays. "Is there a next frame" is the cursor being before the end. A loop count stored in the image is not modelled.
- The values of the generated resource ids. `KittenPlayTime` and `KittenSleeping` are 1 and 2. Only "non-zero and distinct" matters.
- Real time. Timers have identities and delays, but expiry order is up to the caller. The hour comes in with each tick instead of from `localtime`.
- `app_event_loop`, `tick_timer_service_*` and `battery_state_service_*`. They are represented by the event sequences passed to `Replay`.
- The background bitmap of the battery watchface. It is created once in `init` and destroyed in `deinit`, and appears only as a call.
- The animation layer's bitmap reference (`bitmap_layer_set_bitmap`, lines 47-50) is not modelled. After a failed create it still names the bitmap the teardown destroyed, so the model does not say what the next redraw shows.
- Battery.Deinit: the face it returns holds no icon, which means it owns none. The C code leaves `s_battery_icon` pointing at the destroyed bitmap (lines 138-140), but nothing reads it before `main` returns.
- `is_plugged` in `BatteryChargeState`, which the callback does not read.
- Battery.IconFor: a percentage above 100, which `uint8_t` admits, selects the healthy icon, as the C cascade does. No separate out-of-range case exists.
- Animation.Fire: the handler's `layer_mark_dirty` and frame drawing are recorded only as calls. Pixel contents are not modelled.

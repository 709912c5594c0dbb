# OpenCombat combat behaviours and actor modes in Dafny

This project models two parts of OpenCombat, a tile-based tactical combat game.

- **Per-cycle combat behaviours** (`behaviour.dfy`, module `Behaviour`).
  - `LookAroundBehaviour` compares a subject's stored `visible_opponent_ids` with the subjects the visibility mechanism reports this cycle. `run` computes the diff. `action` emits the events and updates the stored list in place.
  - `EngageOpponent` picks a visible target and decides whether the shot kills (`run`). Its `action` always emits a `FireEvent`. It applies death and emits a `DieEvent` only when the target is still in the alive collection.
  - The visibility mechanism's output is a sequence of `(id, position)` records that the caller supplies.
  - The random draws are parameters: `randint(1, 3)`, the index chosen among the visible subjects, and `randint(0, 100)`.
  - The placement-mode flag is a parameter that disables `run`.
  - The frequency read from the configuration is stored in the behaviour's constructor.
- **Actor modes and the firing animation** (`actor.dfy`, module `GameActor`).
  - `BaseActor`, `Man` and `HeavyVehicle` differ only in their class tables. They are modelled as one `Actor` class with an `ActorKind` tag. Each table is a function of the tag.
  - The model covers the validated `mode` setter, `get_modes`, `get_default_mode` and `move_for_gui_actions`, and the GUI-action lookup with its fallback to the default mode.
  - It also covers the weapon guards on the appliable images and the time-throttled stepping of firing frames.
  - The current time is a parameter `now`. The firing texture cache is a frame count per `(mode, weapon)`.
- `wrappers.dfy` holds the `Option`, `Outcome` and `Result` types. The model uses them where the source returns `None` or raises.

## Model

| member | source | states |
|---|---|---|
| `Behaviour.LookAroundBehaviour.constructor` | opencombat/simulation/behaviour.py:26-32 | the behaviour is bound to its subject and stores the configured `look_around` frequency |
| `Behaviour.LookAroundBehaviour.Run` | opencombat/simulation/behaviour.py:54-72 | placement mode yields no result; otherwise the two loops compute exactly `LookAroundDiff` of the stored ids and the visible subjects; it has no `modifies`, so the stored ids are left unchanged |
| `Behaviour.WithoutCounts` | opencombat/simulation/behaviour.py:61-67 | the filter used by `run` keeps every occurrence of an id outside the excluded list and no occurrence of an id inside it |
| `Behaviour.KeepCounts` | opencombat/simulation/behaviour.py:61-63 | the still-visible stored ids are every occurrence of a stored id that is visible, and nothing else |
| `Behaviour.FiltersAreSubsequences` | opencombat/simulation/behaviour.py:61-67 | both filters only delete elements, so they keep the order of the list they filter |
| `Behaviour.LookAroundDiffExact` | opencombat/simulation/behaviour.py:61-67 | no-longer-visible ids are exactly the stored ids absent from the visible ids, as a subsequence of the stored list; new ids are exactly the visible ids not stored (so disjoint from the stored list), as a subsequence in mechanism order |
| `Behaviour.Ids` | opencombat/simulation/behaviour.py:57 | the visible ids are the ids of the visible subjects, one per subject, in mechanism order |
| `Behaviour.RemoveFirst` | opencombat/simulation/behaviour.py:43 | for an id that is present, `list.remove` takes exactly one occurrence of it out of the list's multiset (an absent id raises in Python; see Left out) |
| `Behaviour.BeforeFirstIndexOf` | opencombat/simulation/behaviour.py:43 | no occurrence of the id comes before the position `list.remove` targets, so that position is the first occurrence |
| `Behaviour.RemoveFirstDropsFirstOccurrence` | opencombat/simulation/behaviour.py:43 | `list.remove` takes out the first occurrence and keeps the rest in order: the result is the list before that occurrence followed by the list after it |
| `Behaviour.RemoveEachCounts` | opencombat/simulation/behaviour.py:38-43 | when the ids to remove are a sub-multiset of the stored list, removing them one after another takes out exactly those occurrences and no others |
| `Behaviour.RemoveEachWithout` | opencombat/simulation/behaviour.py:38-63 | removing, in order, the stored ids that are no longer visible leaves exactly the still-visible stored ids in their original order |
| `Behaviour.LookAroundEvents` | opencombat/simulation/behaviour.py:34-52 | `action`'s event list has one event per id: all `NewVisibleOpponent` events first, in id order, then all `NoLongerVisibleOpponent` events, each with the subject as observer |
| `Behaviour.LookAroundBehaviour.Action` | opencombat/simulation/behaviour.py:34-52 | returns `LookAroundEvents` for the subject; the stored ids become the old list with each no-longer-visible id removed in turn, followed by the new ids; every remove finds its id when the ids to remove are a sub-multiset of the stored list |
| `Behaviour.LookAroundBehaviour.RemoveNoLongerVisible` | opencombat/simulation/behaviour.py:38-43 | `action`'s first loop emits one `NoLongerVisibleOpponent` per id, in order, and leaves the stored ids with each of those ids removed in turn |
| `Behaviour.LookAroundBehaviour.AppendNewVisible` | opencombat/simulation/behaviour.py:45-50 | `action`'s second loop emits one `NewVisibleOpponent` per id, in order, and appends the ids to the stored ids |
| `Behaviour.LookAroundReconciles` | opencombat/simulation/behaviour.py:38-67 | for `run`'s diff, every `remove` succeeds; the list after `action` is the still-visible ids in stored order followed by the new ids; it holds exactly the visible ids; it has no duplicates when neither the stored nor the visible ids had any |
| `Behaviour.LookAroundExample` | opencombat/simulation/behaviour.py:34-72 | stored [1, 2] with subjects 2 and 3 visible gives [NewVisibleOpponent(3), NoLongerVisibleOpponent(1)], and the stored ids become [2, 3] |
| `Behaviour.EngageOpponent.constructor` | opencombat/simulation/behaviour.py:79-85 | the behaviour is bound to its subject and stores the configured `engage` frequency |
| `Behaviour.EngageRun` | opencombat/simulation/behaviour.py:109-133 | disabled exactly in placement mode; no decision exactly when nothing is visible; with a draw in 1..3 the abstain branch is unreachable, so a non-empty visible list always yields a decision; the target id and position are those of one visible subject; `kill` holds exactly when the draw in 0..100 is at least 75 |
| `Behaviour.EngageEvents` | opencombat/simulation/behaviour.py:93-107 | the first event is always `FireEvent(shooter, target position)`; a second event, `DieEvent(shooter, target)`, is present exactly when the shot kills and the target is alive |
| `Behaviour.ApplyShots` | opencombat/simulation/behaviour.py:87-107 | applying shots one after another only removes ids from the alive set, and returns between one and two events per shot |
| `Behaviour.OnlyKillingShotsRemove` | opencombat/simulation/behaviour.py:99-105 | a subject that was alive and is no longer alive after a series of shots was the target of a killing shot in that series |
| `Behaviour.EngageOpponent.Action` | opencombat/simulation/behaviour.py:87-107 | returns `EngageEvents` for the target's liveness before the call; the target leaves the alive collection exactly when the shot kills and it was alive; its other fields are unchanged, so a repeat kill only fires and changes nothing |
| `Behaviour.ApplySubjectDeath` | opencombat/simulation/behaviour.py:101 | applying death removes the alive collection from the target's collections |
| `Behaviour.EngageAlive` | opencombat/simulation/behaviour.py:87-107 | one `action` call, seen through the alive ids of an index that maps distinct ids to distinct subjects: its events are `EngageEvents` for the target's liveness before the call, and the target leaves the alive ids exactly when the shot kills it while alive |
| `Behaviour.ApplyEngagements` | opencombat/simulation/behaviour.py:87-107 | running `action` once per decision, in order, on such an index returns the events of `ApplyShots` and leaves exactly its alive ids alive |
| `Behaviour.AtMostOneDeathPerVictim` | opencombat/simulation/behaviour.py:99-105 | across a series of shots applied in order by `ApplyShots` (and so across the `action` calls of `ApplyEngagements`), a subject gets at most one `DieEvent`, none when it was already dead, and it is still alive afterwards exactly when it got none |
| `GameActor.Modes` | opencombat/game/actor.py:215-218 | `get_modes` is never empty; it holds `MODE_MAN_STAND_UP` exactly for Man (lines 215-218) and `MODE_DEFAULT` exactly for BaseActor and HeavyVehicle (lines 41-43) |
| `GameActor.MoveForGuiActions` | opencombat/game/actor.py:255-259 | only Man's table has entries; for BaseActor and HeavyVehicle it is empty (line 46); every entry is one of the kind's modes, so a GUI action never selects a mode the kind refuses |
| `GameActor.Weapons` | opencombat/game/actor.py:268-271 | an actor has at most one weapon; the list is empty exactly for BaseActor (lines 96-98), and every weapon listed is `RIFFLE` |
| `GameActor.PositionMatching` | opencombat/game/actor.py:34-37 | exactly the walk and crawl animations have a stance, and each stance is one of Man's modes |
| `GameActor.DefaultMode` | opencombat/game/actor.py:66-67 | `get_default_mode` is `MODE_MAN_STAND_UP` for Man, `MODE_DEFAULT` otherwise, and always one of the kind's modes |
| `GameActor.ModeForGuiAction` | opencombat/game/actor.py:90-94 | returns the table entry for an action that is a key, else the default mode; the result is always one of the kind's modes |
| `GameActor.GuiActionTableWithinModes` | opencombat/game/actor.py:41-46 | every entry of `move_for_gui_actions` is one of the kind's modes; for BaseActor and HeavyVehicle the table is empty, so the lookup always gives `MODE_DEFAULT` |
| `GameActor.DefaultAppliableImages` | opencombat/game/actor.py:104-114 | with no weapons, the list is empty; otherwise it is the single image of the first weapon in the current mode |
| `GameActor.AnimationAppliableImages` | opencombat/game/actor.py:119-138 | with no weapons, the list is empty; with weapons, an animation name outside `position_matching` raises, and only then; the list is non-empty exactly when there are weapons, the animation has a stance and the applier knows the first weapon, and then it is the single image of that weapon in the stance |
| `GameActor.FiringFrameStep` | opencombat/game/actor.py:168-191 | without frames for the mode and weapon, nothing is shown and the index is incremented; with frames, an incremented index still inside the animation is shown and kept, and one past the end is reset to 0 and frame 0 is shown; a shown frame is always within the animation |
| `GameActor.FiringFramesCycle` | opencombat/game/actor.py:168-191 | from an index inside an animation of n frames, the next frame and index are (index + 1) mod n |
| `GameActor.GuiFiring.IncrementAnimationIndex` | opencombat/game/actor.py:168 | the animation index goes up by one |
| `GameActor.GuiFiring.ResetAnimationIndex` | opencombat/game/actor.py:191 | the animation index goes back to 0 |
| `GameActor.Actor.constructor` | opencombat/game/actor.py:48-61 | the initial mode is `MODE_MAN_STAND_UP`, which is one of the kind's modes only for Man; the last firing time is 0 and the frame gap is 0.05 s |
| `GameActor.Actor.SetMode` | opencombat/game/actor.py:79-88 | a value outside the kind's modes fails with `WrongMode` and leaves the mode unchanged; a value inside is stored; nothing else changes; a valid mode stays valid |
| `GameActor.Actor.ApplyGuiAction` | opencombat/game/actor.py:79-94 | assigning the mode looked up for any GUI action never fails |
| `GameActor.Actor.Firing` | opencombat/game/actor.py:163-193 | before the gap has elapsed, nothing changes and no frame is shown; after it, the last firing time becomes `now` and the index and the shown frame follow `FiringFrameStep` |

## Notes on the source

- The source keeps `visible_opponent_ids` as a Python list. It is not a set. `LookAroundReconciles` proves that the list stays free of duplicates only when it had none before and the visible ids were distinct.
- The abstain branch of `EngageOpponent.run` compares `randint(1, 3)` with -1, so it never runs. `EngageRun` keeps the branch, and its contract shows that it cannot be reached.
- `kill` is `randint(0, 100) >= 75`. That is 26 of 101 equally likely draws, not exactly a quarter. The model states the threshold, not a probability.
- `BaseActor.__init__` sets the mode to `MODE_MAN_STAND_UP` for every kind. BaseActor and HeavyVehicle only allow `MODE_DEFAULT`, so for them "mode is one of the kind's modes" does not hold at construction. The model does not assume it as a class invariant. `SetMode` only preserves it.

## Left out

- The visibility geometry (`OpponentVisibleMechanism`) is not modelled. Its result is a caller-supplied sequence of `VisibleSubject` records.
- The frequency-gating scheduler, `last_execution_time`, and the timestamp write in the unreachable abstain branch belong to the behaviour framework, which is not part of this model. `seconds_frequency` is only stored. The abstain branch is the `Abstain` result.
- The internals of `disable_when`/`config_value` are not modelled. Placement mode is a boolean parameter that makes `run` return a disabled result.
- `random` and `time.time()` are replaced by caller-supplied draws and a `now` parameter. No probabilities are modelled.
- Time is a Dafny `real`, not a floating-point number. Rounding in `now - last_firing_time` is not modelled.
- `DieEvent.apply_subject_death` is not part of this model. `ApplySubjectDeath` only removes the alive collection, which is the one effect `action` re-checks.
- The subject index lookup in `EngageOpponent.action` raises `KeyError` on a missing id, which is a programming fault. `Action` requires the target id to be in the index.
- Event classes are plain datatypes. Their dispatch and application by the simulation are not modelled.
- Texture and firing-cache construction are not modelled: `build_textures_cache`, `build_firing_texture_cache`, `get_image_cache_manager`, image saving and loading. The firing cache is given to the constructor as frame counts. Every count is positive, because the cache only ever gets an entry by appending a frame.
- `update_image` and the logger are not modelled. `Firing` returns the index of the frame it would show, or `None` when it shows nothing.
- The `WeaponImageApplier` is not part of this model. Its images are `AppliedImage` values. The set `applierWeapons` stands for the weapons for which it does not raise `UnknownWeapon`.
- The image-path tables are not modelled, because they are only asset data: `mode_image_paths`, `animation_image_paths`, `weapon_image_scheme`, `weapons_firing_image_scheme`, `get_mode_image_path`. `can_rotate_instant` is a constant with no behaviour and is also left out.
- The string values of `MODE_MAN_STAND_UP`, `MODE_MAN_CRAWLING`, `RIFFLE`, `ANIMATION_WALK`, `ANIMATION_CRAWL` and the `UserAction` orders are defined in modules that are not part of this model. The model uses distinct placeholder strings.
- `GameActor.GuiFiring`: `GuiFiringEvent` is not part of this model, so three of its behaviours are assumptions. The constructor starts the index at 0, `IncrementAnimationIndex` adds 1, and `ResetAnimationIndex` sets the index back to 0.
- `Behaviour.LookAroundBehaviour.Action`: Python's `list.remove` raises `ValueError` on an id that is not in the list, and this error is not modelled. `Action` instead requires that the ids to remove are a sub-multiset of the stored ids. `LookAroundReconciles` proves that the diff computed by `run` always meets this requirement.
- `GameActor.DefaultAppliableImages` assumes that `get_image_for_weapon` never raises. The source calls it without a `try` (opencombat/game/actor.py:108-114), and the applier is not part of this model.
- `GameActor.AnimationAppliableImages`: `applierWeapons` makes `UnknownWeapon` depend on the weapon only. In the source the applier could also reject a weapon for one stance and accept it for another; the model does not capture that.
- `Behaviour.ApplyEngagements` requires that the subject index maps distinct ids to distinct subjects. The simulation's index is built that way, but the index is not part of this model.
- `run.py` is not modelled: command-line parsing and wiring.
- `opencombat/strategy/manager.py` is not modelled: a constructor over builders that are not part of this model.
- `tests/test_state.py` is not modelled: it exercises the XML state loader and dumper, which are not part of this model.

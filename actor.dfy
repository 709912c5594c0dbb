/**
 * Actor modes and firing animation of the game's sprites. The three actor
 * classes (BaseActor, Man, HeavyVehicle) differ only in their tables, so
 * they are one `Actor` class selected by an `ActorKind` tag; the class
 * tables are functions of that tag. Time is a parameter (`now`), and the
 * firing texture cache is given as a frame count per (mode, weapon).
 */
module GameActor {
  import opened Wrappers

  type Mode = string
  type Weapon = string
  type GuiAction = string
  type AnimationName = string

  const ModeDefault: Mode := "MODE_DEFAULT"
  const ModeManStandUp: Mode := "MODE_MAN_STAND_UP"
  const ModeManCrawling: Mode := "MODE_MAN_CRAWLING"

  const Riffle: Weapon := "RIFFLE"

  const AnimationWalk: AnimationName := "WALK"
  const AnimationCrawl: AnimationName := "CRAWL"

  const OrderMove: GuiAction := "ORDER_MOVE"
  const OrderMoveFast: GuiAction := "ORDER_MOVE_FAST"
  const OrderMoveCrawl: GuiAction := "ORDER_MOVE_CRAWL"

  /** Seconds that must pass between two firing frames. */
  const FiringChangeImageGap: real := 0.05

  datatype ActorKind = BaseActor | Man | HeavyVehicle

  datatype ActorError =
    | WrongMode(kind: ActorKind, value: Mode, allowed: seq<Mode>)
    | UnknownAnimation(name: AnimationName)

  // ---------------------------------------------------------------------
  // Per-class tables

  /** The class attribute `modes`: Man overrides it, HeavyVehicle inherits BaseActor's. */
  function Modes(kind: ActorKind): (r: seq<Mode>)
    ensures r != []
    ensures ModeManStandUp in r <==> kind == Man
    ensures ModeDefault in r <==> kind != Man
  {
    match kind
    case Man => [ModeManStandUp, ModeManCrawling]
    case _ => [ModeDefault]
  }

  /** `get_default_mode`: always one of the kind's modes. */
  function DefaultMode(kind: ActorKind): (m: Mode)
    ensures m in Modes(kind)
    ensures kind == Man <==> m == ModeManStandUp
  {
    if kind == Man then ModeManStandUp else ModeDefault
  }

  /** The class attribute `move_for_gui_actions`: only Man has entries. */
  function MoveForGuiActions(kind: ActorKind): (r: map<GuiAction, Mode>)
    ensures kind != Man ==> r == map[]
    ensures forall a :: a in r ==> r[a] in Modes(kind)
  {
    match kind
    case Man => map[OrderMove := ModeManStandUp, OrderMoveFast := ModeManStandUp, OrderMoveCrawl := ModeManCrawling]
    case _ => map[]
  }

  /**
   * `get_mode_for_gui_action`: the table entry for a known action, the
   * kind's default mode otherwise. The result is always a mode of the kind,
   * so assigning it to `mode` never fails.
   */
  function ModeForGuiAction(kind: ActorKind, action: GuiAction): (m: Mode)
    ensures action in MoveForGuiActions(kind) ==> m == MoveForGuiActions(kind)[action]
    ensures action !in MoveForGuiActions(kind) ==> m == DefaultMode(kind)
    ensures m in Modes(kind)
  {
    var table := MoveForGuiActions(kind);
    if action in table then table[action] else DefaultMode(kind)
  }

  /** Every entry of a kind's GUI-action table is one of its modes. */
  lemma GuiActionTableWithinModes(kind: ActorKind)
    ensures forall a :: a in MoveForGuiActions(kind) ==> MoveForGuiActions(kind)[a] in Modes(kind)
    ensures kind != Man ==> forall a :: ModeForGuiAction(kind, a) == ModeDefault
  {
  }

  /** The `weapons` property: none for BaseActor, a rifle for Man and HeavyVehicle. */
  function Weapons(kind: ActorKind): (r: seq<Weapon>)
    ensures |r| <= 1
    ensures r == [] <==> kind == BaseActor
    ensures forall i :: 0 <= i < |r| ==> r[i] == Riffle
  {
    match kind
    case BaseActor => []
    case _ => [Riffle]
  }

  /** `position_matching`: the stance used for an animation's weapon images. */
  function PositionMatching(): (r: map<AnimationName, Mode>)
    ensures r.Keys == {AnimationWalk, AnimationCrawl}
    ensures forall a :: a in r ==> r[a] in Modes(Man)
  {
    map[AnimationWalk := ModeManStandUp, AnimationCrawl := ModeManCrawling]
  }

  /** An image the weapon image applier produces. */
  datatype AppliedImage =
    | WeaponImage(mode: Mode, weapon: Weapon)
    | WeaponAnimationImage(position: Mode, weapon: Weapon, animationPosition: int)

  /**
   * `get_default_appliable_images`: nothing when the actor has no weapon,
   * otherwise the image of its first weapon in its current mode.
   */
  function DefaultAppliableImages(kind: ActorKind, mode: Mode): (r: seq<AppliedImage>)
    ensures Weapons(kind) == [] <==> r == []
    ensures r != [] ==> r == [WeaponImage(mode, Weapons(kind)[0])]
  {
    var weapons := Weapons(kind);
    if weapons == [] then [] else [WeaponImage(mode, weapons[0])]
  }

  /**
   * `get_animation_appliable_images`: nothing when the actor has no weapon;
   * an unknown animation name raises; a weapon the applier does not know
   * (`applierWeapons`) gives nothing; otherwise the image of the first
   * weapon in the stance matching the animation.
   */
  function AnimationAppliableImages(kind: ActorKind, animationName: AnimationName, animationPosition: int,
                                    applierWeapons: set<Weapon>): (r: Result<seq<AppliedImage>, ActorError>)
    ensures Weapons(kind) == [] ==> r == Ok([])
    ensures r.Err? <==> Weapons(kind) != [] && animationName !in PositionMatching()
    ensures r.Ok? && r.value != [] <==>
      Weapons(kind) != [] && animationName in PositionMatching() && Weapons(kind)[0] in applierWeapons
    ensures r.Ok? && r.value != [] ==>
      r.value == [WeaponAnimationImage(PositionMatching()[animationName], Weapons(kind)[0], animationPosition)]
  {
    var weapons := Weapons(kind);
    if weapons == [] then Ok([])
    else if animationName !in PositionMatching() then Err(UnknownAnimation(animationName))
    else if weapons[0] !in applierWeapons then Ok([])
    else Ok([WeaponAnimationImage(PositionMatching()[animationName], weapons[0], animationPosition)])
  }

  // ---------------------------------------------------------------------
  // Firing animation

  /** One step of the firing animation: the frame shown (if any) and the next animation index. */
  datatype FrameStep = FrameStep(shown: Option<nat>, nextIndex: nat)

  /**
   * The frame shown after advancing `index` on an animation of `frameCount`
   * frames (None when no animation exists for the mode and weapon): the
   * index is incremented; past the end, frame 0 is shown and the index reset.
   */
  function FiringFrameStep(frameCount: Option<nat>, index: nat): (r: FrameStep)
    requires frameCount.Some? ==> frameCount.value > 0
    ensures frameCount.None? <==> r.shown.None?
    ensures frameCount.None? ==> r.nextIndex == index + 1
    ensures r.shown.Some? ==> r.shown.value == r.nextIndex < frameCount.value
    ensures frameCount.Some? && index + 1 < frameCount.value ==> r == FrameStep(Some(index + 1), index + 1)
    ensures frameCount.Some? && index + 1 >= frameCount.value ==> r == FrameStep(Some(0), 0)
  {
    var next := index + 1;
    match frameCount
    case None => FrameStep(None, next)
    case Some(n) => if next < n then FrameStep(Some(next), next) else FrameStep(Some(0), 0)
  }

  /** Starting inside the animation, successive steps cycle through the frames. */
  lemma FiringFramesCycle(frameCount: nat, index: nat)
    requires index < frameCount
    ensures FiringFrameStep(Some(frameCount), index) == FrameStep(Some((index + 1) % frameCount), (index + 1) % frameCount)
  {
  }

  /** The GUI's firing event: the weapon fired and the current animation frame index. */
  class GuiFiring {
    const weapon: Weapon
    var animationIndex: nat

    constructor (weapon: Weapon)
      ensures this.weapon == weapon && animationIndex == 0
    {
      this.weapon := weapon;
      this.animationIndex := 0;
    }

    method IncrementAnimationIndex()
      modifies this`animationIndex
      ensures animationIndex == old(animationIndex) + 1
    {
      animationIndex := animationIndex + 1;
    }

    method ResetAnimationIndex()
      modifies this`animationIndex
      ensures animationIndex == 0
    {
      animationIndex := 0;
    }
  }

  /** An actor sprite: its mode and its firing animation state. */
  class Actor {
    const kind: ActorKind
    var mode: Mode
    var lastFiringTime: real
    const firingChangeImageGap: real
    /** Number of cached firing frames per (mode, weapon); absent when none were built. */
    const firingFrameCounts: map<(Mode, Weapon), nat>

    /** The firing cache holds only non-empty animations (each entry is created by appending a frame). */
    ghost predicate Valid()
      reads this
    {
      forall key :: key in firingFrameCounts ==> firingFrameCounts[key] > 0
    }

    function FrameCount(weapon: Weapon): Option<nat>
      reads this
    {
      if (mode, weapon) in firingFrameCounts then Some(firingFrameCounts[(mode, weapon)]) else None
    }

    constructor (kind: ActorKind, firingFrameCounts: map<(Mode, Weapon), nat>)
      requires forall key :: key in firingFrameCounts ==> firingFrameCounts[key] > 0
      ensures Valid()
      ensures this.kind == kind && this.firingFrameCounts == firingFrameCounts
      ensures mode == ModeManStandUp
      ensures mode in Modes(kind) <==> kind == Man
      ensures lastFiringTime == 0.0 && firingChangeImageGap == FiringChangeImageGap
    {
      this.kind := kind;
      this.mode := ModeManStandUp;
      this.firingFrameCounts := firingFrameCounts;
      this.lastFiringTime := 0.0;
      this.firingChangeImageGap := FiringChangeImageGap;
    }

    /**
     * The `mode` setter: a value outside the kind's modes is rejected with
     * WrongMode and leaves the mode as it was; any other value is stored.
     */
    method SetMode(value: Mode) returns (result: Outcome<ActorError>)
      modifies this`mode
      ensures value in Modes(kind) ==> result == Pass && mode == value
      ensures value !in Modes(kind) ==> result == Fail(WrongMode(kind, value, Modes(kind))) && mode == old(mode)
      ensures old(mode) in Modes(kind) ==> mode in Modes(kind)
    {
      if value !in Modes(kind) {
        return Fail(WrongMode(kind, value, Modes(kind)));
      }
      mode := value;
      result := Pass;
    }

    /**
     * Applies the mode that a GUI order asks for; for every kind and every
     * action this succeeds.
     */
    method ApplyGuiAction(action: GuiAction) returns (result: Outcome<ActorError>)
      modifies this`mode
      ensures result == Pass && mode == ModeForGuiAction(kind, action)
    {
      result := SetMode(ModeForGuiAction(kind, action));
    }

    /**
     * `firing` at time `now`: before the gap has elapsed since the last frame
     * change nothing happens; afterwards the time is recorded, the animation
     * index advances, and the frame shown (if any) is returned.
     */
    method Firing(firing: GuiFiring, now: real) returns (shown: Option<nat>)
      requires Valid()
      modifies this`lastFiringTime, firing`animationIndex
      ensures now - old(lastFiringTime) < firingChangeImageGap ==>
        && shown == None
        && lastFiringTime == old(lastFiringTime)
        && firing.animationIndex == old(firing.animationIndex)
      ensures now - old(lastFiringTime) >= firingChangeImageGap ==>
        var step := FiringFrameStep(FrameCount(firing.weapon), old(firing.animationIndex));
        && lastFiringTime == now
        && shown == step.shown
        && firing.animationIndex == step.nextIndex
    {
      shown := None;
      if now - lastFiringTime >= firingChangeImageGap {
        lastFiringTime := now;
        firing.IncrementAnimationIndex();
        var key := (mode, firing.weapon);
        if key !in firingFrameCounts {
          // No firing animation for this mode and weapon.
          return;
        }
        if firing.animationIndex < firingFrameCounts[key] {
          shown := Some(firing.animationIndex);
        } else {
          shown := Some(0);
          firing.ResetAnimationIndex();
        }
      }
    }
  }
}

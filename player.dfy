// The player character (Player.py): heading, walk-cycle animation blend,
// movement with a collision hook, and the keyboard handling that turns held
// keys and key presses into rotations, strafes, steps and shots.
module Player {
  import opened World
  import opened Input
  import opened PyInt
  import Camera

  const ROT_SPEED_IN_DEGREES := 5
  const MOVE_SPEED := 4
  /** The walk-cycle blend is raised to this on any movement input. */
  const WALK_BLEND_MAX := 10

  /** One call the input handler makes on the player, in the order made. */
  datatype Action = Rotate(direction: int) | Strafe(direction: int) | Move(direction: int) | Fire

  /** The part of the player that actions change. */
  datatype Pose = Pose(pos: Point, rot: int, walkBlend: int)

  /** The heading after `rotate(direction)`: the turned angle brought into [0, 360). */
  function RotatedBy(rot: int, direction: int): (r: int)
    ensures 0 <= r < 360
    ensures (r - (rot + direction * ROT_SPEED_IN_DEGREES)) % 360 == 0
  {
    (rot + direction * ROT_SPEED_IN_DEGREES) % 360
  }

  /** `_enableWalkCycleAnimation`: raise the blend to the maximum, never lower it. */
  function Raised(blend: int): (b: int)
    ensures b >= WALK_BLEND_MAX && b >= blend
    ensures blend < WALK_BLEND_MAX ==> b == WALK_BLEND_MAX
    ensures blend >= WALK_BLEND_MAX ==> b == blend
  {
    if blend < WALK_BLEND_MAX then WALK_BLEND_MAX else blend
  }

  /** The per-draw decay: a positive blend drops by one, zero stays. */
  function Drained(blend: int): (b: int)
    ensures blend > 0 ==> b == blend - 1
    ensures blend <= 0 ==> b == blend
    ensures blend >= 0 ==> b >= 0
  {
    if blend > 0 then blend - 1 else blend
  }

  /** As shipped, collision resolution accepts the new position unchanged. */
  function CheckCollision(oldPos: Point, newPos: Point): (p: Point)
    ensures p == newPos
  {
    newPos
  }

  /** `move(direction, strafe)`: step along the heading (plus 90 degrees when strafing). */
  function Stepped(pose: Pose, direction: int, strafe: bool, polar: Polar): Pose {
    var heading := pose.rot + (if strafe then 90 else 0);
    var newPos := MoveByAngleAndMagnitude(pose.pos, heading as real, (direction * MOVE_SPEED) as real, polar);
    Pose(CheckCollision(pose.pos, newPos), pose.rot, Raised(pose.walkBlend))
  }

  /** The effect of one action on the pose. */
  function Perform(pose: Pose, a: Action, polar: Polar): Pose {
    match a
    case Rotate(d) => Pose(pose.pos, RotatedBy(pose.rot, d), Raised(pose.walkBlend))
    case Strafe(d) => Stepped(pose, d, true, polar)
    case Move(d) => Stepped(pose, d, false, polar)
    case Fire => pose
  }

  /** The effect of a sequence of actions, first to last. */
  function PerformAll(pose: Pose, actions: seq<Action>, polar: Polar): Pose
    decreases |actions|
  {
    if actions == [] then pose
    else Perform(PerformAll(pose, actions[..|actions| - 1], polar), actions[|actions| - 1], polar)
  }

  /** The pixel a debug mark at screen position sp is drawn on: both coordinates truncated toward zero. */
  function MarkPixel(sp: Point): (px: (int, int))
    ensures sp.x >= 0.0 ==> px.0 as real <= sp.x < px.0 as real + 1.0
    ensures sp.y >= 0.0 ==> px.1 as real <= sp.y < px.1 as real + 1.0
  {
    (Trunc(sp.x), Trunc(sp.y))
  }

  /** The blend stays in [0, WALK_BLEND_MAX]. */
  predicate BlendInRange(blend: int) {
    0 <= blend <= WALK_BLEND_MAX
  }

  /** Left/A held, right/D held. */
  predicate LeftHeld(keys: set<Key>) { KeyLeft in keys || KeyA in keys }
  predicate RightHeld(keys: set<Key>) { KeyRight in keys || KeyD in keys }
  predicate ShiftHeld(keys: set<Key>) { KeyLShift in keys || KeyRShift in keys }

  /** Without shift: turn left, then turn right. */
  function TurnActions(keys: set<Key>): seq<Action> {
    (if LeftHeld(keys) then [Rotate(1)] else []) + (if RightHeld(keys) then [Rotate(-1)] else [])
  }

  /** With a shift: strafe left, then strafe right. */
  function StrafeActions(keys: set<Key>): seq<Action> {
    (if LeftHeld(keys) then [Strafe(1)] else []) + (if RightHeld(keys) then [Strafe(-1)] else [])
  }

  /** Walk forward on up/W, then back on down/S. */
  function WalkActions(keys: set<Key>): seq<Action> {
    (if KeyUp in keys || KeyW in keys then [Move(1)] else [])
    + (if KeyDown in keys || KeyS in keys then [Move(-1)] else [])
  }

  /** The rotate/strafe/walk calls made for the keys held this frame. */
  function HeldKeyActions(keys: set<Key>): seq<Action> {
    (if ShiftHeld(keys) then StrafeActions(keys) else TurnActions(keys)) + WalkActions(keys)
  }

  /** One shot for every SPACE key press among the events, in event order. */
  function FireActions(events: seq<Event>): seq<Action>
    decreases |events|
  {
    if events == [] then []
    else
      FireActions(events[..|events| - 1])
      + (if events[|events| - 1] == KeyPress(KeySpace) then [Fire] else [])
  }

  /** What `checkPlayerInput` does for these held keys and polled events. */
  function InputActions(keys: set<Key>, events: seq<Event>): seq<Action> {
    HeldKeyActions(keys) + FireActions(events)
  }

  class Player {
    var pos: Point
    /** Heading in degrees; in [0, 360) once the player has rotated. */
    var rot: int
    /** Walk-cycle animation intensity, raised by movement input and drained per draw. */
    var walkBlend: int
    /** Debug: positions where a collision was detected, cleared every draw. */
    var colPoints: seq<Point>
    var health: int
    var ammo: int
    var infAmmo: bool

    ghost predicate Valid()
      reads this
    {
      BlendInRange(walkBlend)
    }

    function CurrentPose(): Pose
      reads this
    {
      Pose(pos, rot, walkBlend)
    }

    constructor (initialX: real, initialY: real, initialRot: int)
      ensures Valid()
      ensures pos == Point(initialX, initialY) && rot == initialRot
      ensures walkBlend == 0 && colPoints == []
      ensures health == 100 && ammo == 100 && infAmmo
    {
      pos := Point(initialX, initialY);
      rot := initialRot;
      walkBlend := 0;
      colPoints := [];
      health, ammo, infAmmo := 100, 100, true;
    }

    method EnableWalkCycleAnimation()
      modifies this`walkBlend
      ensures walkBlend == Raised(old(walkBlend))
    {
      if walkBlend < WALK_BLEND_MAX {
        walkBlend := WALK_BLEND_MAX;
      }
    }

    /** Turns left (1) or right (-1) by ROT_SPEED_IN_DEGREES. */
    method Rotate(direction: int)
      requires Valid()
      modifies this`rot, this`walkBlend
      ensures Valid()
      ensures rot == RotatedBy(old(rot), direction)
      ensures walkBlend == Raised(old(walkBlend))
    {
      EnableWalkCycleAnimation();
      rot := rot + direction * ROT_SPEED_IN_DEGREES;
      ghost var turned := rot;
      while rot < 0
        invariant rot % 360 == turned % 360
        modifies this`rot
        decreases -rot
      {
        rot := rot + 360;
      }
      rot := rot % 360;
    }

    /** Walks forward (1) or back (-1), or strafes when `strafe` holds. */
    method Move(direction: int, strafe: bool, polar: Polar)
      requires Valid()
      modifies this`pos, this`walkBlend
      ensures Valid()
      ensures CurrentPose() == Stepped(old(CurrentPose()), direction, strafe, polar)
    {
      EnableWalkCycleAnimation();
      var strafeModifierAngle := if strafe then 90 else 0;
      var newPos := Sub(pos, polar((rot + strafeModifierAngle) as real, (direction * MOVE_SPEED) as real));
      pos := CheckCollision(pos, newPos);
    }

    /** `strafe(direction)` is `move(direction, True)`. */
    method StrafeMove(direction: int, polar: Polar)
      requires Valid()
      modifies this`pos, this`walkBlend
      ensures Valid()
      ensures CurrentPose() == Perform(old(CurrentPose()), Action.Strafe(direction), polar)
    {
      Move(direction, true, polar);
    }

    /**
     * Handles this frame's input: the held keys choose rotations or strafes,
     * then steps; afterwards each SPACE press fires. Returns the calls made.
     */
    method CheckPlayerInput(keys: set<Key>, events: seq<Event>, polar: Polar) returns (actions: seq<Action>)
      requires Valid()
      modifies this`pos, this`rot, this`walkBlend
      ensures Valid()
      ensures actions == InputActions(keys, events)
      ensures CurrentPose() == PerformAll(old(CurrentPose()), actions, polar)
    {
      ghost var start := CurrentPose();
      var held := HandleHeldKeys(keys, polar);
      var shots := FireKeys(events);
      PerformAllAppend(start, held, shots, polar);
      FiringKeepsPose(CurrentPose(), events, polar);
      actions := held + shots;
    }

    /** The keydown half of `checkPlayerInput`: one `fire` per SPACE press, in event order. */
    method FireKeys(events: seq<Event>) returns (shots: seq<Action>)
      ensures shots == FireActions(events)
    {
      shots := [];
      for i := 0 to |events|
        invariant shots == FireActions(events[..i])
      {
        assert events[..i + 1][..i] == events[..i];
        if events[i] == KeyPress(KeySpace) {
          shots := shots + [Fire];
        }
      }
      assert events[..|events|] == events;
    }

    /** The held-key half of `checkPlayerInput`: turn or strafe, then walk. */
    method HandleHeldKeys(keys: set<Key>, polar: Polar) returns (actions: seq<Action>)
      requires Valid()
      modifies this`pos, this`rot, this`walkBlend
      ensures Valid()
      ensures actions == HeldKeyActions(keys)
      ensures CurrentPose() == PerformAll(old(CurrentPose()), actions, polar)
    {
      ghost var start := CurrentPose();
      var turn: seq<Action>;
      if !ShiftHeld(keys) {
        turn := TurnKeys(keys);
        assert CurrentPose() == PerformAll(start, turn, polar);
      } else {
        turn := StrafeKeys(keys, polar);
      }
      var walk := WalkKeys(keys, polar);
      PerformAllAppend(start, turn, walk, polar);
      actions := turn + walk;
    }

    /** Up/W walks forward, then down/S walks back. */
    method WalkKeys(keys: set<Key>, polar: Polar) returns (actions: seq<Action>)
      requires Valid()
      modifies this`pos, this`walkBlend
      ensures Valid()
      ensures actions == WalkActions(keys)
      ensures CurrentPose() == PerformAll(old(CurrentPose()), actions, polar)
    {
      ghost var start := CurrentPose();
      actions := [];
      if KeyUp in keys || KeyW in keys {
        Move(1, false, polar);
        PerformAllSnoc(start, actions, Action.Move(1), polar);
        actions := actions + [Action.Move(1)];
      }
      if KeyDown in keys || KeyS in keys {
        Move(-1, false, polar);
        PerformAllSnoc(start, actions, Action.Move(-1), polar);
        actions := actions + [Action.Move(-1)];
      }
    }

    /** Without shift: left/A turns left, then right/D turns right. */
    method TurnKeys(keys: set<Key>) returns (actions: seq<Action>)
      requires Valid()
      modifies this`rot, this`walkBlend
      ensures Valid()
      ensures actions == TurnActions(keys)
      ensures forall polar: Polar :: CurrentPose() == PerformAll(old(CurrentPose()), actions, polar)
    {
      actions := [];
      if KeyLeft in keys || KeyA in keys {
        Rotate(1);
        actions := [Action.Rotate(1)];
      }
      if KeyRight in keys || KeyD in keys {
        Rotate(-1);
        actions := actions + [Action.Rotate(-1)];
      }
    }

    /** With a shift held: left/A strafes left, then right/D strafes right. */
    method StrafeKeys(keys: set<Key>, polar: Polar) returns (actions: seq<Action>)
      requires Valid()
      modifies this`pos, this`walkBlend
      ensures Valid()
      ensures actions == StrafeActions(keys)
      ensures CurrentPose() == PerformAll(old(CurrentPose()), actions, polar)
    {
      ghost var start := CurrentPose();
      actions := [];
      if KeyLeft in keys || KeyA in keys {
        StrafeMove(1, polar);
        PerformAllSnoc(start, actions, Action.Strafe(1), polar);
        actions := actions + [Action.Strafe(1)];
      }
      if KeyRight in keys || KeyD in keys {
        StrafeMove(-1, polar);
        PerformAllSnoc(start, actions, Action.Strafe(-1), polar);
        actions := actions + [Action.Strafe(-1)];
      }
    }

    /**
     * Draws the debug collision marks and forgets them. Each mark goes to the
     * pixel at the `int()`-truncated screen position of its point.
     */
    method DrawCollisions(cam: Camera.Camera) returns (marks: seq<(int, int)>)
      modifies this`colPoints
      ensures |marks| == |old(colPoints)|
      ensures forall i | 0 <= i < |marks| :: marks[i] == MarkPixel(cam.GetScreenPos(old(colPoints)[i]))
      ensures colPoints == []
    {
      marks := [];
      for i := 0 to |colPoints|
        invariant |marks| == i
        invariant forall k | 0 <= k < i :: marks[k] == MarkPixel(cam.GetScreenPos(colPoints[k]))
      {
        var sp := cam.GetScreenPos(colPoints[i]);
        marks := marks + [(Trunc(sp.x), Trunc(sp.y))];
      }
      colPoints := [];
    }

    /** One frame's draw: the walk blend decays by one step and the collision marks are flushed. */
    method Draw(cam: Camera.Camera) returns (marks: seq<(int, int)>)
      requires Valid()
      modifies this`walkBlend, this`colPoints
      ensures Valid()
      ensures walkBlend == Drained(old(walkBlend))
      ensures |marks| == |old(colPoints)| && colPoints == []
      ensures forall i | 0 <= i < |marks| :: marks[i] == MarkPixel(cam.GetScreenPos(old(colPoints)[i]))
    {
      if walkBlend > 0 {
        walkBlend := walkBlend - 1;
      }
      marks := DrawCollisions(cam);
    }
  }

  /** Appending an action to the trace applies it after the others. */
  lemma PerformAllSnoc(pose: Pose, actions: seq<Action>, a: Action, polar: Polar)
    ensures PerformAll(pose, actions + [a], polar) == Perform(PerformAll(pose, actions, polar), a, polar)
  {
    assert (actions + [a])[..|actions|] == actions;
  }

  /** Performing a + b is performing a, then b from where a left off. */
  lemma {:induction false} PerformAllAppend(pose: Pose, a: seq<Action>, b: seq<Action>, polar: Polar)
    ensures PerformAll(pose, a + b, polar) == PerformAll(PerformAll(pose, a, polar), b, polar)
    decreases |b|
  {
    if b == [] {
      assert a + b == a;
    } else {
      var init := b[..|b| - 1];
      assert (a + b)[..|a + b| - 1] == a + init;
      PerformAllAppend(pose, a, init, polar);
    }
  }

  /** Firing leaves the pose alone: the shots of any event batch do not move or turn the player. */
  lemma {:induction false} FiringKeepsPose(pose: Pose, events: seq<Event>, polar: Polar)
    ensures PerformAll(pose, FireActions(events), polar) == pose
    decreases |events|
  {
    if events != [] {
      var init := events[..|events| - 1];
      FiringKeepsPose(pose, init, polar);
      if events[|events| - 1] == KeyPress(KeySpace) {
        assert FireActions(events) == FireActions(init) + [Fire];
        PerformAllSnoc(pose, FireActions(init), Fire, polar);
      } else {
        assert FireActions(events) == FireActions(init) + [] == FireActions(init);
      }
    }
  }

  /** Every action keeps the walk blend within [0, WALK_BLEND_MAX]. */
  lemma {:induction false} PerformAllKeepsBlend(pose: Pose, actions: seq<Action>, polar: Polar)
    requires BlendInRange(pose.walkBlend)
    ensures BlendInRange(PerformAll(pose, actions, polar).walkBlend)
    decreases |actions|
  {
    if actions != [] {
      PerformAllKeepsBlend(pose, actions[..|actions| - 1], polar);
    }
  }

  /** A draw keeps the walk blend within [0, WALK_BLEND_MAX]. */
  lemma DrainKeepsBlend(blend: int)
    requires BlendInRange(blend)
    ensures BlendInRange(Drained(blend))
  {
  }

  /** Turning left then right restores any normalised heading. */
  lemma RotateThereAndBack(rot: int)
    requires 0 <= rot < 360
    ensures RotatedBy(RotatedBy(rot, 1), -1) == rot
    ensures RotatedBy(RotatedBy(rot, -1), 1) == rot
  {
  }

  /**
   * Without shift the horizontal keys rotate, with either shift they strafe;
   * left acts before right, and both act before the walk keys.
   */
  lemma HeldKeysTurnOrStrafe(keys: set<Key>)
    requires KeyLeft in keys && KeyRight !in keys && KeyD !in keys
    requires KeyUp !in keys && KeyW !in keys && KeyDown !in keys && KeyS !in keys
    ensures KeyLShift !in keys && KeyRShift !in keys ==> HeldKeyActions(keys) == [Rotate(1)]
    ensures KeyLShift in keys || KeyRShift in keys ==> HeldKeyActions(keys) == [Strafe(1)]
  {
  }

  /** The shots are the SPACE presses of each batch, batch after batch. */
  lemma {:induction false} FireActionsAppend(e1: seq<Event>, e2: seq<Event>)
    ensures FireActions(e1 + e2) == FireActions(e1) + FireActions(e2)
    decreases |e2|
  {
    if e2 != [] {
      var init := e2[..|e2| - 1];
      assert (e1 + e2)[..|e1 + e2| - 1] == e1 + init;
      FireActionsAppend(e1, init);
    } else {
      assert e1 + e2 == e1;
    }
  }

  /** Each SPACE key press fires exactly once and nothing else fires. */
  lemma {:induction false} FireActionsCountPresses(events: seq<Event>)
    ensures forall a | a in FireActions(events) :: a == Fire
    ensures |FireActions(events)| == multiset(events)[KeyPress(KeySpace)]
    decreases |events|
  {
    if events != [] {
      var init := events[..|events| - 1];
      FireActionsCountPresses(init);
      assert events == init + [events[|events| - 1]];
      assert multiset(events) == multiset(init) + multiset{events[|events| - 1]};
    }
  }
}

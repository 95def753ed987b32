/** The per-frame input and animation state of the viewer's main program: the
    held-key table, the mouse-look bookkeeping, the clap oscillator, the rabbit
    visibility toggle and the wheel angle, all updated in place by the keyboard
    and mouse callbacks and by the once-per-frame movement step. */
module SceneControl {
  import opened Vectors
  import Camera

  /** GLFW key codes and actions used by the callbacks. */
  const KEY_COUNT := 1024
  const KEY_ESCAPE := 256
  const KEY_W := 87
  const KEY_S := 83
  const KEY_A := 65
  const KEY_D := 68
  const KEY_Q := 81
  const KEY_E := 69
  const KEY_P := 80
  const KEY_I := 73
  const KEY_UP := 265
  const KEY_DOWN := 264
  const RELEASE := 0
  const PRESS := 1

  /** Tuning globals the program initialises and never reassigns. */
  const CAMERA_SPEED: real := 0.1
  const CLAP_SPEED: real := 0.015
  const CLAP_MAX: real := 0.35
  const MOUSE_SENSITIVITY: real := 0.1
  const WHEEL_SPEED: real := 0.5

  /** The camera's initial position and up vector; it starts aimed at the origin. */
  const START_POSITION := Vec3(0.0, 3.0, 20.0)
  const WORLD_UP := Vec3(0.0, 1.0, 0.0)

  // ---------------------------------------------------------------------------
  // Held keys

  /** What one key event does to the held-key table: a press of a key code in
      [0, 1024) marks it held, a release clears it; every other event (a repeat,
      an out-of-range code) leaves the table as it was. */
  function KeyEvent(keys: seq<bool>, key: int, action: int): (r: seq<bool>)
    requires |keys| == KEY_COUNT
    ensures |r| == KEY_COUNT
    ensures forall k :: 0 <= k < KEY_COUNT && k != key ==> r[k] == keys[k]
    ensures 0 <= key < KEY_COUNT && action == PRESS ==> r[key]
    ensures 0 <= key < KEY_COUNT && action == RELEASE ==> !r[key]
    ensures !(0 <= key < KEY_COUNT) || (action != PRESS && action != RELEASE) ==> r == keys
  {
    if 0 <= key < KEY_COUNT then
      if action == PRESS then keys[key := true]
      else if action == RELEASE then keys[key := false]
      else keys
    else keys
  }

  /** A press followed by a release of the same in-range key leaves that key
      released and every other key as it was before the press. */
  lemma PressThenRelease(keys: seq<bool>, key: int)
    requires |keys| == KEY_COUNT && 0 <= key < KEY_COUNT
    ensures KeyEvent(KeyEvent(keys, key, PRESS), key, RELEASE) == keys[key := false]
  {
  }

  // ---------------------------------------------------------------------------
  // Movement dispatch

  /** The position of a direction in the fixed order in which held keys are
      dispatched: W, Up, S, Down, A, D. */
  function Rank(d: Camera.MoveDirection): nat {
    match d
    case Forward => 0
    case Up => 1
    case Backward => 2
    case Down => 3
    case Left => 4
    case Right => 5
  }

  /** Appends d to the dispatched moves when its key is held. */
  function Then(ds: seq<Camera.MoveDirection>, held: bool, d: Camera.MoveDirection): seq<Camera.MoveDirection> {
    if held then ds + [d] else ds
  }

  /** The moves one frame dispatches to the camera for the held keys, in dispatch order. */
  function Dispatched(keys: seq<bool>): seq<Camera.MoveDirection>
    requires |keys| == KEY_COUNT
  {
    var ds0 := Then([], keys[KEY_W], Camera.Forward);
    var ds1 := Then(ds0, keys[KEY_UP], Camera.Up);
    var ds2 := Then(ds1, keys[KEY_S], Camera.Backward);
    var ds3 := Then(ds2, keys[KEY_DOWN], Camera.Down);
    var ds4 := Then(ds3, keys[KEY_A], Camera.Left);
    Then(ds4, keys[KEY_D], Camera.Right)
  }

  /** Strictly increasing in dispatch order: no direction twice, none out of order. */
  ghost predicate Ascending(ds: seq<Camera.MoveDirection>) {
    forall i, j :: 0 <= i < j < |ds| ==> Rank(ds[i]) < Rank(ds[j])
  }

  lemma ThenAscending(ds: seq<Camera.MoveDirection>, held: bool, d: Camera.MoveDirection)
    requires Ascending(ds) && forall k :: 0 <= k < |ds| ==> Rank(ds[k]) < Rank(d)
    ensures Ascending(Then(ds, held, d))
    ensures forall k :: 0 <= k < |Then(ds, held, d)| ==> Rank(Then(ds, held, d)[k]) <= Rank(d)
  {
  }

  /** A frame dispatches its moves in the fixed order W, Up, S, Down, A, D. */
  lemma DispatchOrder(keys: seq<bool>)
    requires |keys| == KEY_COUNT
    ensures Ascending(Dispatched(keys))
  {
    var ds0 := Then([], keys[KEY_W], Camera.Forward);
    ThenAscending([], keys[KEY_W], Camera.Forward);
    var ds1 := Then(ds0, keys[KEY_UP], Camera.Up);
    ThenAscending(ds0, keys[KEY_UP], Camera.Up);
    var ds2 := Then(ds1, keys[KEY_S], Camera.Backward);
    ThenAscending(ds1, keys[KEY_S], Camera.Backward);
    var ds3 := Then(ds2, keys[KEY_DOWN], Camera.Down);
    ThenAscending(ds2, keys[KEY_DOWN], Camera.Down);
    var ds4 := Then(ds3, keys[KEY_A], Camera.Left);
    ThenAscending(ds3, keys[KEY_A], Camera.Left);
    ThenAscending(ds4, keys[KEY_D], Camera.Right);
  }

  /** The key that moves the camera in direction d. */
  function KeyOf(d: Camera.MoveDirection): int {
    match d
    case Forward => KEY_W
    case Up => KEY_UP
    case Backward => KEY_S
    case Down => KEY_DOWN
    case Left => KEY_A
    case Right => KEY_D
  }

  lemma ThenHas(ds: seq<Camera.MoveDirection>, held: bool, d: Camera.MoveDirection, e: Camera.MoveDirection)
    ensures e in Then(ds, held, d) <==> e in ds || (held && e == d)
  {
  }

  /** A frame dispatches a move exactly when its key is held. */
  lemma DispatchedIffHeld(keys: seq<bool>, e: Camera.MoveDirection)
    requires |keys| == KEY_COUNT
    ensures e in Dispatched(keys) <==> keys[KeyOf(e)]
  {
    var ds0 := Then([], keys[KEY_W], Camera.Forward);
    ThenHas([], keys[KEY_W], Camera.Forward, e);
    var ds1 := Then(ds0, keys[KEY_UP], Camera.Up);
    ThenHas(ds0, keys[KEY_UP], Camera.Up, e);
    var ds2 := Then(ds1, keys[KEY_S], Camera.Backward);
    ThenHas(ds1, keys[KEY_S], Camera.Backward, e);
    var ds3 := Then(ds2, keys[KEY_DOWN], Camera.Down);
    ThenHas(ds2, keys[KEY_DOWN], Camera.Down, e);
    var ds4 := Then(ds3, keys[KEY_A], Camera.Left);
    ThenHas(ds3, keys[KEY_A], Camera.Left, e);
    ThenHas(ds4, keys[KEY_D], Camera.Right, e);
  }

  /** The point reached from p by applying the moves ds in order with fixed axes. */
  function Translate(p: Vec3, ds: seq<Camera.MoveDirection>, front: Vec3, right: Vec3, up: Vec3, speed: real): Vec3 {
    if ds == [] then p
    else Add(Translate(p, ds[..|ds| - 1], front, right, up, speed), Camera.Offset(ds[|ds| - 1], front, right, up, speed))
  }

  /** Position and target that travel through the same moves keep the vector between them. */
  lemma {:induction false} TranslateKeepsLook(p: Vec3, t: Vec3, ds: seq<Camera.MoveDirection>, front: Vec3, right: Vec3, up: Vec3, speed: real)
    ensures Sub(Translate(t, ds, front, right, up, speed), Translate(p, ds, front, right, up, speed)) == Sub(t, p)
  {
    if ds != [] {
      TranslateKeepsLook(p, t, ds[..|ds| - 1], front, right, up, speed);
    }
  }

  /** Holding W and S together (and no other movement key) leaves the camera where it was. */
  lemma OpposedKeysCancel(keys: seq<bool>, p: Vec3, front: Vec3, right: Vec3, up: Vec3, speed: real)
    requires |keys| == KEY_COUNT
    requires keys[KEY_W] && keys[KEY_S] && !keys[KEY_UP] && !keys[KEY_DOWN] && !keys[KEY_A] && !keys[KEY_D]
    ensures Translate(p, Dispatched(keys), front, right, up, speed) == p
  {
    assert Dispatched(keys) == [Camera.Forward, Camera.Backward];
    assert [Camera.Forward, Camera.Backward][..1] == [Camera.Forward];
    assert [Camera.Forward][..0] == [];
    assert Translate(p, [Camera.Forward], front, right, up, speed) == Add(p, Camera.Offset(Camera.Forward, front, right, up, speed));
  }

  // ---------------------------------------------------------------------------
  // Clap oscillator

  datatype Clap = Clap(active: bool, offset: real, direction: int)

  /** The rest state the oscillator is forced into when clapping is off. */
  const Resting := Clap(false, 0.0, 1)

  /** One frame of the clap animation. */
  function ClapTick(c: Clap, speed: real, max: real): (r: Clap)
    ensures r.active == c.active
    ensures !c.active ==> r == Resting
  {
    if c.active then
      var x := c.offset + speed * c.direction as real;
      if x >= max then Clap(true, max, -1)
      else if x <= 0.0 then Clap(true, 0.0, 1)
      else Clap(true, x, c.direction)
    else Resting
  }

  /** While clapping, a frame keeps the offset in [0, max] and the direction in {-1, +1}. */
  lemma ClapTickInRange(c: Clap, speed: real, max: real)
    requires c.active && (c.direction == 1 || c.direction == -1) && 0.0 <= max
    ensures 0.0 <= ClapTick(c, speed, max).offset <= max
    ensures ClapTick(c, speed, max).direction == 1 || ClapTick(c, speed, max).direction == -1
  {
  }

  /** The direction turns to -1 exactly when the stepped offset reaches or passes
      max, and to +1 exactly when it reaches or drops below 0 (without reaching
      max); the offset is then snapped to that bound. Otherwise the step is kept. */
  lemma ClapTickTurns(c: Clap, speed: real, max: real)
    requires c.active && (c.direction == 1 || c.direction == -1)
    ensures var x := c.offset + speed * c.direction as real;
      && (x >= max <==> ClapTick(c, speed, max) == Clap(true, max, -1))
      && (x < max && x <= 0.0 <==> ClapTick(c, speed, max) == Clap(true, 0.0, 1))
      && (0.0 < x < max ==> ClapTick(c, speed, max) == Clap(true, x, c.direction))
  {
  }

  /** Pressing P: clapping is switched on or off; switching it off resets the oscillator. */
  function ClapToggle(c: Clap): (r: Clap)
    ensures r.active == !c.active
    ensures !r.active ==> r == Resting
    ensures r.active ==> r.offset == c.offset && r.direction == c.direction
  {
    var active := !c.active;
    if !active then Resting else Clap(active, c.offset, c.direction)
  }

  /** n frames of the clap animation. */
  function ClapRun(n: nat, c: Clap, speed: real, max: real): Clap {
    if n == 0 then c else ClapRun(n - 1, ClapTick(c, speed, max), speed, max)
  }

  lemma {:induction false} ClapRunAdd(a: nat, b: nat, c: Clap, speed: real, max: real)
    ensures ClapRun(a + b, c, speed, max) == ClapRun(b, ClapRun(a, c, speed, max), speed, max)
  {
    if a > 0 {
      ClapRunAdd(a - 1, b, ClapTick(c, speed, max), speed, max);
    }
  }

  /** Moving inward, the offset grows by exactly one speed step per frame until
      the next step would reach max. */
  lemma {:induction false} ClapRise(k: nat, o: real, speed: real, max: real)
    requires 0.0 < speed && 0.0 <= o && o + k as real * speed < max
    ensures ClapRun(k, Clap(true, o, 1), speed, max) == Clap(true, o + k as real * speed, 1)
  {
    if k > 0 {
      var before := (k - 1) as real * speed;
      assert k as real * speed == before + speed;
      assert 0.0 <= before;
      assert ClapTick(Clap(true, o, 1), speed, max) == Clap(true, o + speed, 1);
      ClapRise(k - 1, o + speed, speed, max);
    }
  }

  /** Moving outward, the offset shrinks by exactly one speed step per frame while it stays above 0. */
  lemma {:induction false} ClapFall(k: nat, o: real, speed: real, max: real)
    requires 0.0 < speed && o <= max && 0.0 < o - k as real * speed
    ensures ClapRun(k, Clap(true, o, -1), speed, max) == Clap(true, o - k as real * speed, -1)
  {
    if k > 0 {
      var before := (k - 1) as real * speed;
      assert k as real * speed == before + speed;
      assert 0.0 <= before;
      assert ClapTick(Clap(true, o, -1), speed, max) == Clap(true, o - speed, -1);
      ClapFall(k - 1, o - speed, speed, max);
    }
  }

  /** With the program's constants (speed 0.015, max 0.35), clapping from rest
      reaches max and turns after 24 frames and is back at 0, turned inward
      again, after 48. */
  lemma ClapCycle()
    ensures ClapRun(24, Clap(true, 0.0, 1), 0.015, 0.35) == Clap(true, 0.35, -1)
    ensures ClapRun(48, Clap(true, 0.0, 1), 0.015, 0.35) == Clap(true, 0.0, 1)
  {
    var start := Clap(true, 0.0, 1);
    ClapRise(23, 0.0, 0.015, 0.35);
    ClapRunAdd(23, 1, start, 0.015, 0.35);
    var peak := Clap(true, 0.35, -1);
    ClapFall(23, 0.35, 0.015, 0.35);
    ClapRunAdd(23, 1, peak, 0.015, 0.35);
    ClapRunAdd(24, 24, start, 0.015, 0.35);
  }

  // ---------------------------------------------------------------------------
  // Rabbit visibility, wheel angle, mouse look

  /** Pressing I: a visible rabbit (scale above 0) is hidden, anything else is shown. */
  function ToggleRabbit(scale: real): (r: real)
    ensures r == 0.0 || r == 1.0
    ensures r == 0.0 <==> scale > 0.0
  {
    if scale > 0.0 then 0.0 else 1.0
  }

  /** Two presses of I from a shown or hidden rabbit restore it. */
  lemma ToggleRabbitTwice(scale: real)
    requires scale == 0.0 || scale == 1.0
    ensures ToggleRabbit(ToggleRabbit(scale)) == scale
  {
  }

  /** One frame of the wheel: advance by speed, wrap once at 360 degrees. */
  function WheelTick(angle: real, speed: real): (r: real)
    ensures r == angle + speed || r == angle + speed - 360.0
    ensures r == angle + speed - 360.0 <==> angle + speed >= 360.0
    ensures 0.0 <= angle < 360.0 && 0.0 <= speed < 360.0 ==> 0.0 <= r < 360.0
  {
    var a := angle + speed;
    if a >= 360.0 then a - 360.0 else a
  }

  /** The (x, y) look offsets of a cursor event: zero on the first event, otherwise
      the motion since the last event with y inverted (screen y grows downward). */
  function MouseOffsets(firstMouse: bool, lastX: real, lastY: real, xpos: real, ypos: real): (r: (real, real))
    ensures firstMouse ==> r == (0.0, 0.0)
    ensures !firstMouse ==> r.0 == xpos - lastX && r.1 == lastY - ypos
  {
    var (lx, ly) := if firstMouse then (xpos, ypos) else (lastX, lastY);
    (xpos - lx, ly - ypos)
  }

  // ---------------------------------------------------------------------------
  // The program's global state

  class Scene {
    const camera: Camera.Camera
    const pressedKeys: array<bool>

    var clapActive: bool
    var clapOffset: real
    var clapDirection: int
    var rabbitScale: real
    var lastX: real
    var lastY: real
    var firstMouse: bool
    var wheelAngle: real
    var angle: real
    var shouldClose: bool

    /** The invariants every callback and every frame keep: a 1024-entry key table,
        the clap offset in [0, CLAP_MAX] with direction +1 or -1, the rabbit either
        shown or hidden, and the wheel angle in [0, 360). */
    ghost predicate Valid()
      reads this
    {
      && pressedKeys.Length == KEY_COUNT
      && 0.0 <= clapOffset <= CLAP_MAX
      && (clapDirection == 1 || clapDirection == -1)
      && (rabbitScale == 0.0 || rabbitScale == 1.0)
      && 0.0 <= wheelAngle < 360.0
    }

    function ClapState(): Clap
      reads this
    {
      Clap(clapActive, clapOffset, clapDirection)
    }

    /** The program's initial globals. */
    constructor (glm: Glm)
      ensures Valid() && fresh(camera) && fresh(pressedKeys)
      ensures camera.glm == glm
      ensures camera.position == START_POSITION && camera.target == Zero && camera.up == WORLD_UP
      ensures camera.front == glm.normalize(Sub(Zero, START_POSITION))
      ensures camera.right == glm.normalize(glm.cross(camera.front, WORLD_UP))
      ensures camera.yaw == glm.degrees(glm.atan2(camera.front.z, camera.front.x))
      ensures camera.pitch == glm.degrees(glm.asin(camera.front.y))
      ensures forall k :: 0 <= k < KEY_COUNT ==> !pressedKeys[k]
      ensures ClapState() == Resting && rabbitScale == 1.0
      ensures lastX == 0.0 && lastY == 0.0 && firstMouse
      ensures wheelAngle == 0.0 && angle == 0.0 && !shouldClose
    {
      camera := new Camera.Camera(glm, START_POSITION, Zero, WORLD_UP);
      pressedKeys := new bool[KEY_COUNT](_ => false);
      clapActive := false;
      clapOffset := 0.0;
      clapDirection := 1;
      rabbitScale := 1.0;
      lastX := 0.0;
      lastY := 0.0;
      firstMouse := true;
      wheelAngle := 0.0;
      angle := 0.0;
      shouldClose := false;
    }

    /** keyboardCallback */
    method KeyboardCallback(key: int, action: int)
      requires Valid()
      modifies this, pressedKeys
      ensures Valid()
      ensures pressedKeys[..] == KeyEvent(old(pressedKeys[..]), key, action)
      ensures shouldClose == (old(shouldClose) || (key == KEY_ESCAPE && action == PRESS))
      ensures ClapState() == if key == KEY_P && action == PRESS then ClapToggle(old(ClapState())) else old(ClapState())
      ensures rabbitScale == if key == KEY_I && action == PRESS then ToggleRabbit(old(rabbitScale)) else old(rabbitScale)
      ensures lastX == old(lastX) && lastY == old(lastY) && firstMouse == old(firstMouse)
      ensures wheelAngle == old(wheelAngle) && angle == old(angle)
    {
      if key == KEY_ESCAPE && action == PRESS {
        shouldClose := true;
      }
      if 0 <= key < KEY_COUNT {
        if action == PRESS {
          pressedKeys[key] := true;
          if key == KEY_P {
            clapActive := !clapActive;
            if !clapActive {
              clapOffset := 0.0;
              clapDirection := 1;
            }
          }
          if key == KEY_I {
            if rabbitScale > 0.0 {
              rabbitScale := 0.0;
            } else {
              rabbitScale := 1.0;
            }
          }
        } else if action == RELEASE {
          pressedKeys[key] := false;
        }
      }
    }

    /** mouseCallback: turns cursor motion into a camera rotation (pitch from the
        y offset, yaw from the x offset, both scaled by the sensitivity). */
    method MouseCallback(xpos: real, ypos: real)
      requires Valid()
      modifies this, camera
      ensures Valid()
      ensures lastX == xpos && lastY == ypos && !firstMouse
      ensures var off := MouseOffsets(old(firstMouse), old(lastX), old(lastY), xpos, ypos);
        && camera.yaw == old(camera.yaw) + off.0 * MOUSE_SENSITIVITY
        && camera.pitch == Camera.ClampPitch(old(camera.pitch) + off.1 * MOUSE_SENSITIVITY)
      ensures camera.front == camera.glm.normalize(Camera.SphericalFront(camera.glm, camera.yaw, camera.pitch))
      ensures camera.right == camera.glm.normalize(camera.glm.cross(camera.front, camera.up))
      ensures camera.target == Add(camera.position, camera.front)
      ensures camera.position == old(camera.position) && camera.up == old(camera.up)
      ensures ClapState() == old(ClapState()) && rabbitScale == old(rabbitScale)
      ensures wheelAngle == old(wheelAngle) && angle == old(angle) && shouldClose == old(shouldClose)
    {
      ghost var off := MouseOffsets(firstMouse, lastX, lastY, xpos, ypos);
      if firstMouse {
        lastX := xpos;
        lastY := ypos;
        firstMouse := false;
      }

      var xoffset := xpos - lastX;
      var yoffset := lastY - ypos;
      assert xoffset == off.0 && yoffset == off.1;

      lastX := xpos;
      lastY := ypos;

      var xoff := xoffset * MOUSE_SENSITIVITY;
      var yoff := yoffset * MOUSE_SENSITIVITY;

      camera.Rotate(yoff, xoff);
    }

    /** The camera stands where the moves ds take position p0 and target t0. */
    ghost predicate Moved(p0: Vec3, t0: Vec3, ds: seq<Camera.MoveDirection>)
      reads camera
    {
      && camera.position == Translate(p0, ds, camera.front, camera.right, camera.up, CAMERA_SPEED)
      && camera.target == Translate(t0, ds, camera.front, camera.right, camera.up, CAMERA_SPEED)
    }

    /** One movement key of processMovement: when it is held, the camera moves in d. */
    method MoveIfHeld(key: int, d: Camera.MoveDirection, ghost p0: Vec3, ghost t0: Vec3, ghost ds: seq<Camera.MoveDirection>)
      requires Valid() && 0 <= key < KEY_COUNT
      requires Moved(p0, t0, ds)
      modifies camera
      ensures Moved(p0, t0, Then(ds, pressedKeys[key], d))
      ensures camera.front == old(camera.front) && camera.right == old(camera.right) && camera.up == old(camera.up)
      ensures camera.yaw == old(camera.yaw) && camera.pitch == old(camera.pitch)
    {
      if pressedKeys[key] {
        camera.Move(d, CAMERA_SPEED);
        assert Then(ds, true, d)[..|ds|] == ds;
      }
    }

    /** The clap part of processMovement. */
    method AdvanceClap()
      requires Valid()
      modifies this
      ensures Valid()
      ensures ClapState() == ClapTick(old(ClapState()), CLAP_SPEED, CLAP_MAX)
      ensures rabbitScale == old(rabbitScale) && shouldClose == old(shouldClose) && angle == old(angle)
      ensures lastX == old(lastX) && lastY == old(lastY) && firstMouse == old(firstMouse)
      ensures wheelAngle == old(wheelAngle)
    {
      if clapActive {
        clapOffset := clapOffset + CLAP_SPEED * clapDirection as real;
        if clapOffset >= CLAP_MAX {
          clapOffset := CLAP_MAX;
          clapDirection := -1;
        } else if clapOffset <= 0.0 {
          clapOffset := 0.0;
          clapDirection := 1;
        }
      } else {
        clapOffset := 0.0;
        clapDirection := 1;
      }
    }

    /** The wheel part of processMovement. */
    method AdvanceWheel()
      requires Valid()
      modifies this
      ensures Valid()
      ensures wheelAngle == WheelTick(old(wheelAngle), WHEEL_SPEED)
      ensures ClapState() == old(ClapState()) && rabbitScale == old(rabbitScale)
      ensures shouldClose == old(shouldClose) && angle == old(angle)
      ensures lastX == old(lastX) && lastY == old(lastY) && firstMouse == old(firstMouse)
    {
      wheelAngle := wheelAngle + WHEEL_SPEED;
      if wheelAngle >= 360.0 {
        wheelAngle := wheelAngle - 360.0;
      }
    }

    /** The movement part of processMovement: each held movement key moves the
        camera once, in the fixed order W, Up, S, Down, A, D. */
    method DispatchMovement()
      requires Valid()
      modifies camera
      ensures Moved(old(camera.position), old(camera.target), Dispatched(pressedKeys[..]))
      ensures camera.front == old(camera.front) && camera.right == old(camera.right) && camera.up == old(camera.up)
      ensures camera.yaw == old(camera.yaw) && camera.pitch == old(camera.pitch)
    {
      ghost var p0, t0 := camera.position, camera.target;
      ghost var ds0: seq<Camera.MoveDirection> := [];
      MoveIfHeld(KEY_W, Camera.Forward, p0, t0, ds0);
      ghost var ds1 := Then(ds0, pressedKeys[KEY_W], Camera.Forward);
      MoveIfHeld(KEY_UP, Camera.Up, p0, t0, ds1);
      ghost var ds2 := Then(ds1, pressedKeys[KEY_UP], Camera.Up);
      MoveIfHeld(KEY_S, Camera.Backward, p0, t0, ds2);
      ghost var ds3 := Then(ds2, pressedKeys[KEY_S], Camera.Backward);
      MoveIfHeld(KEY_DOWN, Camera.Down, p0, t0, ds3);
      ghost var ds4 := Then(ds3, pressedKeys[KEY_DOWN], Camera.Down);
      MoveIfHeld(KEY_A, Camera.Left, p0, t0, ds4);
      ghost var ds5 := Then(ds4, pressedKeys[KEY_A], Camera.Left);
      MoveIfHeld(KEY_D, Camera.Right, p0, t0, ds5);
      assert Then(ds5, pressedKeys[KEY_D], Camera.Right) == Dispatched(pressedKeys[..]);
    }

    /** processMovement: moves the camera for the held movement keys, turns the
        teapot angle for Q and E, and advances the clap oscillator and the wheel
        by one frame. */
    method ProcessMovement()
      requires Valid()
      modifies this, camera
      ensures Valid()
      ensures Moved(old(camera.position), old(camera.target), Dispatched(pressedKeys[..]))
      ensures Sub(camera.target, camera.position) == old(Sub(camera.target, camera.position))
      ensures camera.front == old(camera.front) && camera.right == old(camera.right) && camera.up == old(camera.up)
      ensures camera.yaw == old(camera.yaw) && camera.pitch == old(camera.pitch)
      ensures angle == old(angle) - (if pressedKeys[KEY_Q] then 1.0 else 0.0) + (if pressedKeys[KEY_E] then 1.0 else 0.0)
      ensures ClapState() == ClapTick(old(ClapState()), CLAP_SPEED, CLAP_MAX)
      ensures wheelAngle == WheelTick(old(wheelAngle), WHEEL_SPEED)
      ensures rabbitScale == old(rabbitScale) && shouldClose == old(shouldClose)
      ensures lastX == old(lastX) && lastY == old(lastY) && firstMouse == old(firstMouse)
    {
      DispatchMovement();
      TranslateKeepsLook(old(camera.position), old(camera.target), Dispatched(pressedKeys[..]), camera.front, camera.right, camera.up, CAMERA_SPEED);

      if pressedKeys[KEY_Q] {
        angle := angle - 1.0;
      }
      if pressedKeys[KEY_E] {
        angle := angle + 1.0;
      }

      AdvanceClap();
      AdvanceWheel();
    }
  }
}

/** gps::Camera: a fly-through camera whose pose is updated in place by
    translation (Move) and by yaw/pitch rotation (Rotate). */
module Camera {
  import opened Vectors

  /** gps::MOVE_DIRECTION */
  datatype MoveDirection = Forward | Backward | Right | Left | Up | Down

  /** The displacement that one `move(direction, speed)` adds to both the position
      and the target, given the camera's front, right and up vectors. */
  function Offset(d: MoveDirection, front: Vec3, right: Vec3, up: Vec3, speed: real): Vec3 {
    match d
    case Forward => Scale(front, speed)
    case Backward => Neg(Scale(front, speed))
    case Right => Scale(right, speed)
    case Left => Neg(Scale(right, speed))
    case Up => Scale(up, speed)
    case Down => Neg(Scale(up, speed))
  }

  /** The direction that undoes d. */
  function Opposite(d: MoveDirection): MoveDirection {
    match d
    case Forward => Backward
    case Backward => Forward
    case Right => Left
    case Left => Right
    case Up => Down
    case Down => Up
  }

  /** Moving in a direction and then, at the same speed and with the same axes,
      in the opposite one returns to the starting point. */
  lemma MoveThenOppositeRestores(d: MoveDirection, front: Vec3, right: Vec3, up: Vec3, speed: real, p: Vec3)
    ensures Opposite(Opposite(d)) == d
    ensures Add(Add(p, Offset(d, front, right, up, speed)), Offset(Opposite(d), front, right, up, speed)) == p
  {
  }

  /** The pitch limit of `rotate`: values above 89 become 89, below -89 become -89. */
  function ClampPitch(p: real): (r: real)
    ensures -89.0 <= r <= 89.0
    ensures -89.0 <= p <= 89.0 ==> r == p
  {
    var q := if p > 89.0 then 89.0 else p;
    if q < -89.0 then -89.0 else q
  }

  /** The clamp picks the admissible pitch nearest to the requested one. */
  lemma ClampPitchNearest(p: real, q: real)
    requires -89.0 <= q <= 89.0
    ensures Abs(ClampPitch(p) - p) <= Abs(q - p)
  {
  }

  function Abs(a: real): real {
    if a < 0.0 then -a else a
  }

  /** The unnormalised look direction that `rotate` builds from yaw and pitch in degrees. */
  function SphericalFront(glm: Glm, yaw: real, pitch: real): Vec3 {
    Vec3(glm.cos(glm.radians(yaw)) * glm.cos(glm.radians(pitch)),
         glm.sin(glm.radians(pitch)),
         glm.sin(glm.radians(yaw)) * glm.cos(glm.radians(pitch)))
  }

  class Camera {
    /** The math library the camera calls into. */
    const glm: Glm

    var position: Vec3
    var target: Vec3
    var front: Vec3
    var right: Vec3
    var up: Vec3
    var yaw: real
    var pitch: real

    /** Stores the pose as given and derives front, right, yaw and pitch from it.
        The pitch derived here is not clamped. */
    constructor (glm: Glm, position: Vec3, target: Vec3, up: Vec3)
      ensures this.glm == glm
      ensures this.position == position && this.target == target && this.up == up
      ensures front == glm.normalize(Sub(target, position))
      ensures right == glm.normalize(glm.cross(front, up))
      ensures yaw == glm.degrees(glm.atan2(front.z, front.x))
      ensures pitch == glm.degrees(glm.asin(front.y))
    {
      this.glm := glm;
      this.position := position;
      this.target := target;
      this.up := up;
      var f := glm.normalize(Sub(target, position));
      front := f;
      right := glm.normalize(glm.cross(f, up));
      yaw := glm.degrees(glm.atan2(f.z, f.x));
      pitch := glm.degrees(glm.asin(f.y));
    }

    /** getViewMatrix: the look-at transform of the current pose; it reads the
        camera and changes nothing. */
    function ViewMatrix(): (m: Mat4)
      reads this
      ensures m == glm.lookAt(position, target, up)
    {
      glm.lookAt(position, target, up)
    }

    /** getPosition: reads the camera and changes nothing. */
    function GetPosition(): (p: Vec3)
      reads this
      ensures p == position
    {
      position
    }

    /** Translates position and target together by the direction's axis times speed.
        The orientation and the look vector `target - position` stay as they were. */
    method Move(direction: MoveDirection, speed: real)
      modifies this
      ensures position == Add(old(position), Offset(direction, front, right, up, speed))
      ensures target == Add(old(target), Offset(direction, front, right, up, speed))
      ensures Sub(target, position) == old(Sub(target, position))
      ensures front == old(front) && right == old(right) && up == old(up)
      ensures yaw == old(yaw) && pitch == old(pitch)
    {
      if direction == Forward {
        position := Add(position, Scale(front, speed));
        target := Add(target, Scale(front, speed));
      } else if direction == Backward {
        position := Sub(position, Scale(front, speed));
        target := Sub(target, Scale(front, speed));
      } else if direction == Right {
        position := Add(position, Scale(right, speed));
        target := Add(target, Scale(right, speed));
      } else if direction == Left {
        position := Sub(position, Scale(right, speed));
        target := Sub(target, Scale(right, speed));
      } else if direction == Up {
        position := Add(position, Scale(up, speed));
        target := Add(target, Scale(up, speed));
      } else if direction == Down {
        position := Sub(position, Scale(up, speed));
        target := Sub(target, Scale(up, speed));
      }
    }

    /** Adds the deltas to pitch and yaw, clamps pitch to [-89, 89], rebuilds front
        and right from the angles, and re-aims the target one front vector ahead. */
    method Rotate(deltaPitch: real, deltaYaw: real)
      modifies this
      ensures yaw == old(yaw) + deltaYaw
      ensures pitch == ClampPitch(old(pitch) + deltaPitch)
      ensures -89.0 <= pitch <= 89.0
      ensures front == glm.normalize(SphericalFront(glm, yaw, pitch))
      ensures right == glm.normalize(glm.cross(front, up))
      ensures target == Add(position, front)
      ensures position == old(position) && up == old(up)
    {
      pitch := pitch + deltaPitch;
      yaw := yaw + deltaYaw;

      if pitch > 89.0 { pitch := 89.0; }
      if pitch < -89.0 { pitch := -89.0; }

      var f := SphericalFront(glm, yaw, pitch);
      front := glm.normalize(f);
      right := glm.normalize(glm.cross(front, up));
      target := Add(position, front);
    }
  }
}

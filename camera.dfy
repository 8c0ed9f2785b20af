/**
  The camera of `src/camera.rs`: a position, an orientation given by a
  forward and an up vector, a perspective, and a cached view-projection
  matrix guarded by a `stale` flag.

  The numerics of the linear-algebra library (normalising a vector,
  rotating it by a quaternion, the quaternion between two vectors) are not
  part of this model: they are the fields of a `LinAlg` value the camera is
  built with, so nothing is assumed about them. Matrices are kept as terms
  that record how they were built, which is all the caching protocol needs.
*/
module Cameras {
  import opened Geometry

  // ---------------------------------------------------------------------------
  // Vectors in space
  // ---------------------------------------------------------------------------

  function Add3(u: Vec3, v: Vec3): Vec3 { Vec3(u.x + v.x, u.y + v.y, u.z + v.z) }

  function Sub3(u: Vec3, v: Vec3): Vec3 { Vec3(u.x - v.x, u.y - v.y, u.z - v.z) }

  function Scale3(v: Vec3, k: real): Vec3 { Vec3(v.x * k, v.y * k, v.z * k) }

  function Dot3(u: Vec3, v: Vec3): real { u.x * v.x + u.y * v.y + u.z * v.z }

  /** The cross product `u × v`. */
  function Cross3(u: Vec3, v: Vec3): Vec3 {
    Vec3(u.y * v.z - u.z * v.y, u.z * v.x - u.x * v.z, u.x * v.y - u.y * v.x)
  }

  /** A cross product is perpendicular to both of its factors. */
  lemma CrossPerpendicular(u: Vec3, v: Vec3)
    ensures Dot3(Cross3(u, v), u) == 0.0 && Dot3(Cross3(u, v), v) == 0.0
  {
    var c := Cross3(u, v);
    assert Dot3(c, u) == (u.y * v.z - u.z * v.y) * u.x + (u.z * v.x - u.x * v.z) * u.y
                          + (u.x * v.y - u.y * v.x) * u.z;
    assert Dot3(c, v) == (u.y * v.z - u.z * v.y) * v.x + (u.z * v.x - u.x * v.z) * v.y
                          + (u.x * v.y - u.y * v.x) * v.z;
  }

  // ---------------------------------------------------------------------------
  // Library values the camera only passes around
  // ---------------------------------------------------------------------------

  /** A unit quaternion, remembered by the scaled axis it was built from. */
  datatype Quat = ScaledAxis(axis: Vec3)

  /** A perspective projection; only its aspect ratio is ever changed. */
  datatype Perspective = Perspective(aspect: real, fovy: real, znear: real, zfar: real)

  /** A 4x4 matrix, as the term that built it. */
  datatype Mat =
    | Identity
    | Projection(persp: Perspective)
    | FaceTowards(eye: Vec3, target: Vec3, up: Vec3)
    | Product(left: Mat, right: Mat)

  /**
    The library operations the camera calls and whose results it does not
    inspect: normalisation, rotation by a quaternion, and the rotation
    between two vectors, which the library may fail to find.
  */
  datatype LinAlg = LinAlg(
    normalize: Vec3 -> Vec3,
    rotate: (Quat, Vec3) -> Vec3,
    rotationBetween: (Vec3, Vec3) -> Option<Quat>)

  /** The view-projection matrix of a camera at `pos` looking along `forward`. */
  function ViewOf(pos: Vec3, forward: Vec3, up: Vec3, persp: Perspective): Mat {
    Product(Projection(persp), FaceTowards(pos, Add3(pos, forward), up))
  }

  // ---------------------------------------------------------------------------
  // The camera
  // ---------------------------------------------------------------------------

  class Camera {
    var stale: bool
    var cache: Mat
    var pos: Vec3
    var forward: Vec3
    var up: Vec3
    var persp: Perspective
    const ops: LinAlg

    /**
      The caching protocol: whenever the flag is clear, the cache holds the
      matrix of the current position, orientation and perspective.
    */
    ghost predicate Coherent()
      reads this
    {
      !stale ==> cache == ViewOf(pos, forward, up, persp)
    }

    /** A new camera looks along +z with +y up and has no valid cache yet. */
    constructor (ops: LinAlg, pos: Vec3, persp: Perspective)
      ensures stale && cache == Identity
      ensures this.pos == pos && this.persp == persp && this.ops == ops
      ensures forward == Vec3(0.0, 0.0, 1.0) && up == Vec3(0.0, 1.0, 0.0)
      ensures Coherent()
    {
      this.stale := true;
      this.cache := Identity;
      this.pos := pos;
      this.forward := Vec3(0.0, 0.0, 1.0);
      this.up := Vec3(0.0, 1.0, 0.0);
      this.persp := persp;
      this.ops := ops;
    }

    /**
      The view-projection matrix. It is recomputed only when the flag is set;
      otherwise the cache is returned as it is. On a coherent camera the
      result is always the matrix of the current view.
    */
    method FreshMat() returns (m: Mat)
      modifies this
      ensures m == cache && !stale
      ensures old(stale) ==> cache == ViewOf(pos, forward, up, persp)
      ensures !old(stale) ==> cache == old(cache)
      ensures pos == old(pos) && forward == old(forward) && up == old(up) && persp == old(persp)
      ensures old(Coherent()) ==> m == ViewOf(pos, forward, up, persp) && Coherent()
    {
      if stale {
        cache := Product(Projection(persp), FaceTowards(pos, Add3(pos, forward), up));
        stale := false;
      }
      m := cache;
    }

    /** The right-hand direction, `up × forward`. */
    function Right(): (r: Vec3)
      reads this
      ensures Dot3(r, up) == 0.0 && Dot3(r, forward) == 0.0
    {
      CrossPerpendicular(up, forward);
      Cross3(up, forward)
    }

    /**
      Sets the aspect ratio of the perspective to `width / height` and marks
      the cache stale; nothing else changes.
    */
    method Resize(width: real, height: real)
      requires height != 0.0
      modifies this
      ensures stale && persp == old(persp).(aspect := width / height)
      ensures pos == old(pos) && forward == old(forward) && up == old(up) && cache == old(cache)
      ensures Coherent()
    {
      persp := persp.(aspect := width / height);
      stale := true;
    }

    /**
      Moves `z` along `forward`, `y` along `up` and `x` along the right-hand
      direction, and marks the cache stale; the orientation is unchanged.
    */
    method Mov(x: real, y: real, z: real)
      modifies this
      ensures stale
      ensures pos == Add3(Add3(Add3(old(pos), Scale3(forward, z)), Scale3(up, y)), Scale3(Right(), x))
      ensures forward == old(forward) && up == old(up) && persp == old(persp) && cache == old(cache)
      ensures Coherent()
    {
      pos := Add3(pos, Scale3(forward, z));
      pos := Add3(pos, Scale3(up, y));
      pos := Add3(pos, Scale3(Right(), x));
      stale := true;
    }

    /**
      Rotates both `forward` and `up` (each normalised first) by the
      quaternion of `scaledAxis`, and marks the cache stale.
    */
    method Rot(scaledAxis: Vec3)
      modifies this
      ensures stale
      ensures forward == ops.rotate(ScaledAxis(scaledAxis), ops.normalize(old(forward)))
      ensures up == ops.rotate(ScaledAxis(scaledAxis), ops.normalize(old(up)))
      ensures pos == old(pos) && persp == old(persp) && cache == old(cache)
      ensures Coherent()
    {
      var q := ScaledAxis(scaledAxis);
      forward := ops.rotate(q, ops.normalize(forward));
      up := ops.rotate(q, ops.normalize(up));
      stale := true;
    }

    /**
      Turns the camera towards `target`: `forward` becomes the normalised
      direction to it, and `up` is turned by the same rotation that took the
      old forward direction to the new one. The library must find that
      rotation (the source unwraps it).
    */
    method LookAt(target: Vec3)
      requires ops.rotationBetween(forward, ops.normalize(Sub3(target, pos))).Some?
      modifies this
      ensures stale && forward == ops.normalize(Sub3(target, pos))
      ensures up == ops.normalize(ops.rotate(
        ops.rotationBetween(old(forward), ops.normalize(Sub3(target, old(pos)))).value, old(up)))
      ensures pos == old(pos) && persp == old(persp) && cache == old(cache)
      ensures Coherent()
    {
      var before := forward;
      forward := ops.normalize(Sub3(target, pos));
      var q := ops.rotationBetween(before, forward).value;
      up := ops.normalize(ops.rotate(q, up));
      stale := true;
    }
  }

  /** With the default basis, the right-hand direction is +x. */
  lemma DefaultRight(c: Camera)
    requires c.forward == Vec3(0.0, 0.0, 1.0) && c.up == Vec3(0.0, 1.0, 0.0)
    ensures c.Right() == Vec3(1.0, 0.0, 0.0)
  {
  }
}

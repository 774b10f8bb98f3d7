/** The orbit camera's scalar bookkeeping: a focal point, a distance from it,
    pitch and yaw, and the viewport, driven by mouse drags (gated on LAlt)
    and by the scroll wheel. The rotation math is a parameter: `orientation`
    maps (pitch, yaw) to the camera's forward, right and up directions. */
module OrbitCamera {
  import opened Vectors
  import opened InputState

  /** The directions the orientation quaternion gives to the canonical axes:
      forward = rotate(0,0,1), right = rotate(1,0,0), up = rotate(0,1,0). */
  datatype Basis = Basis(forward: Vec3, right: Vec3, up: Vec3)

  /** Distance the camera starts at. */
  const InitialDistance: real := 10.0

  /** The floor `mouse_zoom` clamps the distance to. */
  const MinDistance: real := 1.0

  /** Factor from cursor pixels to drag delta in `on_update`. */
  const MouseSensitivity: real := 0.003

  /** Factor from scroll lines to zoom delta in `mouse_scrolled_callback`. */
  const ScrollFactor: real := 0.1

  /** `zoom_speed` at a given distance: `d = max(0.2 * distance, 0)`, the
      speed is `min(d * d, 100)`. */
  function ZoomSpeed(distance: real): (r: real)
    ensures 0.0 <= r <= 100.0
    ensures distance <= 0.0 ==> r == 0.0
    ensures 0.0 <= distance <= 50.0 ==> r == (0.2 * distance) * (0.2 * distance)
    ensures distance >= 50.0 ==> r == 100.0
  {
    var d := if distance * 0.2 > 0.0 then distance * 0.2 else 0.0;
    SquareBelow(d, 10.0);
    var speed := if d * d < 100.0 then d * d else 100.0;
    speed
  }

  /** For non-negative reals, squaring keeps the order with a bound. */
  lemma SquareBelow(d: real, bound: real)
    requires 0.0 <= d && 0.0 <= bound
    ensures d <= bound ==> d * d <= bound * bound
    ensures d >= bound ==> d * d >= bound * bound
  {
    if d <= bound {
      assert d * d <= d * bound <= bound * bound;
    } else {
      assert d * d >= d * bound >= bound * bound;
    }
  }

  /** The fitted quadratic `0.0366 v^2 - 0.1778 v + 0.3021` of `pan_speed`. */
  function PanCurve(v: real): real {
    0.0366 * (v * v) - 0.1778 * v + 0.3021
  }

  /** One factor of `pan_speed`: the curve at `min(dimension / 1000, 2.4)`. */
  function PanFactor(dimension: real): real {
    var v := if dimension / 1000.0 < 2.4 then dimension / 1000.0 else 2.4;
    PanCurve(v)
  }

  /** For any viewport dimension the factor lies between the curve's values
      at 2.4 (about 0.086) and at 0 (0.3021), so it stays positive. */
  lemma PanFactorRange(dimension: real)
    requires 0.0 <= dimension
    ensures 0.0 < PanCurve(2.4) <= PanFactor(dimension) <= PanCurve(0.0)
  {
    var v := if dimension / 1000.0 < 2.4 then dimension / 1000.0 else 2.4;
    PanCurveDecreasing(0.0, v);
    PanCurveDecreasing(v, 2.4);
  }

  /** On [0, 2.4] the curve is non-increasing (its vertex lies beyond 2.4). */
  lemma PanCurveDecreasing(v1: real, v2: real)
    requires 0.0 <= v1 <= v2 <= 2.4
    ensures PanCurve(v2) <= PanCurve(v1)
  {
    assert PanCurve(v2) - PanCurve(v1) == (v2 - v1) * (0.0366 * (v1 + v2) - 0.1778);
    assert 0.0366 * (v1 + v2) - 0.1778 < 0.0;
    assert (v2 - v1) * (0.0366 * (v1 + v2) - 0.1778) <= 0.0;
  }

  /** Every viewport dimension of at least 2400 gives the same factor. */
  lemma PanFactorSaturates(d1: real, d2: real)
    requires 2400.0 <= d1 && 2400.0 <= d2
    ensures PanFactor(d1) == PanFactor(d2) == PanCurve(2.4)
  {
  }

  /** A larger viewport never gives a larger pan factor. */
  lemma PanFactorDecreasing(d1: real, d2: real)
    requires 0.0 <= d1 <= d2
    ensures PanFactor(d2) <= PanFactor(d1)
  {
    var v1 := if d1 / 1000.0 < 2.4 then d1 / 1000.0 else 2.4;
    var v2 := if d2 / 1000.0 < 2.4 then d2 / 1000.0 else 2.4;
    assert d1 / 1000.0 <= d2 / 1000.0;
    PanCurveDecreasing(v1, v2);
  }

  /** Larger distances never zoom slower. */
  lemma ZoomSpeedMonotone(d1: real, d2: real)
    requires d1 <= d2
    ensures ZoomSpeed(d1) <= ZoomSpeed(d2)
  {
    if 0.0 <= d1 <= 50.0 && d2 <= 50.0 {
      SquareBelow(0.2 * d1, 0.2 * d2);
      assert 0.2 * d1 <= 0.2 * d2;
      assert (0.2 * d1) * (0.2 * d1) <= (0.2 * d1) * (0.2 * d2) <= (0.2 * d2) * (0.2 * d2);
    }
  }

  class Camera {
    /** get_orientation followed by quat_rotate_vec3, as a function of
        (pitch, yaw). */
    const orientation: (real, real) -> Basis

    var position: Vec3
    var focalPoint: Vec3
    var initialMousePosition: Vec2
    var distance: real
    var pitch: real
    var yaw: real
    var viewportWidth: real
    var viewportHeight: real
    var aspectRatio: real
    var fov: real
    var nearClip: real
    var farClip: real

    /** The camera never comes closer than the floor to its focal point, and
        the aspect ratio is that of the stored viewport. */
    ghost predicate Valid()
      reads this
    {
      && MinDistance <= distance
      && viewportHeight != 0.0
      && aspectRatio == viewportWidth / viewportHeight
    }

    function ForwardDirection(): Vec3
      reads this
    {
      orientation(pitch, yaw).forward
    }

    function RightDirection(): Vec3
      reads this
    {
      orientation(pitch, yaw).right
    }

    function UpDirection(): Vec3
      reads this
    {
      orientation(pitch, yaw).up
    }

    /** `calculate_position`: `distance` units back from the focal point
        along the forward direction. */
    function CalculatePosition(): (p: Vec3)
      reads this
      ensures Add(p, Scale(ForwardDirection(), distance)) == focalPoint
    {
      Sub(focalPoint, Scale(ForwardDirection(), distance))
    }

    /** `pan_speed`: one factor from the width, one from the height. */
    function PanSpeed(): (speed: (real, real))
      reads this
      ensures 0.0 <= viewportWidth ==> 0.0 < PanCurve(2.4) <= speed.0 <= PanCurve(0.0)
      ensures 0.0 <= viewportHeight ==> 0.0 < PanCurve(2.4) <= speed.1 <= PanCurve(0.0)
      ensures 2400.0 <= viewportWidth ==> speed.0 == PanCurve(2.4)
      ensures 2400.0 <= viewportHeight ==> speed.1 == PanCurve(2.4)
    {
      var x, y := PanFactor(viewportWidth), PanFactor(viewportHeight);
      assert 0.0 <= viewportWidth ==> 0.0 < PanCurve(2.4) <= x <= PanCurve(0.0) by {
        if 0.0 <= viewportWidth { PanFactorRange(viewportWidth); }
      }
      assert 0.0 <= viewportHeight ==> 0.0 < PanCurve(2.4) <= y <= PanCurve(0.0) by {
        if 0.0 <= viewportHeight { PanFactorRange(viewportHeight); }
      }
      (x, y)
    }

    /** `Camera::new`: the focal point at the origin, 10 units away, no pitch
        or yaw; the position is then computed once. */
    constructor (fov: real, viewportWidth: real, viewportHeight: real, nearClip: real, farClip: real,
                 orientation: (real, real) -> Basis)
      requires viewportHeight != 0.0
      ensures Valid()
      ensures this.orientation == orientation
      ensures focalPoint == Origin && distance == InitialDistance
      ensures pitch == 0.0 && yaw == 0.0 && initialMousePosition == Vec2(0.0, 0.0)
      ensures this.fov == fov && this.nearClip == nearClip && this.farClip == farClip
      ensures this.viewportWidth == viewportWidth && this.viewportHeight == viewportHeight
      ensures aspectRatio == viewportWidth / viewportHeight
      ensures position == Sub(Origin, Scale(orientation(0.0, 0.0).forward, InitialDistance))
    {
      this.orientation := orientation;
      position := Origin;
      focalPoint := Origin;
      initialMousePosition := Vec2(0.0, 0.0);
      distance := InitialDistance;
      pitch := 0.0;
      yaw := 0.0;
      this.viewportWidth := viewportWidth;
      this.viewportHeight := viewportHeight;
      aspectRatio := viewportWidth / viewportHeight;
      this.fov := fov;
      this.nearClip := nearClip;
      this.farClip := farClip;
      new;
      UpdateView();
    }

    /** Store the new size and recompute the aspect ratio. */
    method SetViewportSize(width: real, height: real)
      requires height != 0.0
      modifies this
      ensures viewportWidth == width && viewportHeight == height
      ensures aspectRatio == width / height
      requires Valid()
      ensures Valid()
      ensures fov == old(fov) && nearClip == old(nearClip) && farClip == old(farClip)
      ensures pitch == old(pitch) && yaw == old(yaw) && distance == old(distance)
      ensures focalPoint == old(focalPoint) && position == old(position)
      ensures initialMousePosition == old(initialMousePosition)
    {
      viewportWidth := width;
      viewportHeight := height;
      UpdateProjection();
    }

    /** The aspect-ratio part of `update_projection`. */
    method UpdateProjection()
      requires viewportHeight != 0.0
      modifies this`aspectRatio
      ensures aspectRatio == viewportWidth / viewportHeight
    {
      aspectRatio := viewportWidth / viewportHeight;
    }

    /** The position part of `update_view`. */
    method UpdateView()
      modifies this`position
      ensures position == CalculatePosition()
    {
      position := CalculatePosition();
    }

    /** With LAlt held: take the cursor delta since the last snapshot, store
        the new snapshot, pan if the right button is held, else rotate if the
        left one is, and recompute the position. Without LAlt: nothing. */
    method OnUpdate(input: Input)
      modifies this
      requires Valid()
      ensures Valid()
      ensures !input.IsKeyPressed(LAlt) ==> unchanged(this)
      ensures input.IsKeyPressed(LAlt) ==>
        var delta := Scale2(Sub2(input.mousePosition, old(initialMousePosition)), MouseSensitivity);
        && initialMousePosition == input.mousePosition
        && distance == old(distance)
        && viewportWidth == old(viewportWidth) && viewportHeight == old(viewportHeight)
        && aspectRatio == old(aspectRatio)
        && fov == old(fov) && nearClip == old(nearClip) && farClip == old(farClip)
        && position == CalculatePosition()
        && (if input.IsMouseButtonPressed(Right) then
              Panned(delta) && pitch == old(pitch) && yaw == old(yaw)
            else if input.IsMouseButtonPressed(Left) then
              Rotated(delta) && focalPoint == old(focalPoint)
            else
              focalPoint == old(focalPoint) && pitch == old(pitch) && yaw == old(yaw))
    {
      if input.IsKeyPressed(LAlt) {
        var mouse := input.GetMousePosition();
        var delta := Scale2(Sub2(mouse, initialMousePosition), MouseSensitivity);
        initialMousePosition := mouse;
        if input.IsMouseButtonPressed(Right) {
          MousePan(delta);
        } else if input.IsMouseButtonPressed(Left) {
          MouseRotate(delta);
        }
        UpdateView();
      }
    }

    /** What `mouse_pan(delta)` does to the focal point: it moves by
        `-right * delta.x * xSpeed * distance`, then by
        `up * delta.y * ySpeed * distance`. */
    twostate predicate Panned(delta: Vec2)
      reads this
    {
      var speed := old(PanSpeed());
      var across := Scale(Scale(Scale(Neg(old(RightDirection())), delta.x), speed.0), old(distance));
      var upward := Scale(Scale(Scale(old(UpDirection()), delta.y), speed.1), old(distance));
      focalPoint == Add(Add(old(focalPoint), across), upward)
    }

    method MousePan(delta: Vec2)
      modifies this`focalPoint
      ensures Panned(delta)
    {
      var (xSpeed, ySpeed) := PanSpeed();
      focalPoint := Add(focalPoint, Scale(Scale(Scale(Neg(RightDirection()), delta.x), xSpeed), distance));
      focalPoint := Add(focalPoint, Scale(Scale(Scale(UpDirection(), delta.y), ySpeed), distance));
    }

    /** What `mouse_rotate(delta)` does: pitch grows by 0.8 * delta.y; yaw by
        0.8 * delta.x, with the sign flipped while the up direction points
        downwards. */
    twostate predicate Rotated(delta: Vec2)
      reads this
    {
      && pitch == old(pitch) + 0.8 * delta.y
      && yaw == old(yaw) + (if old(UpDirection()).y < 0.0 then -0.8 * delta.x else 0.8 * delta.x)
    }

    method MouseRotate(delta: Vec2)
      modifies this`pitch, this`yaw
      ensures Rotated(delta)
    {
      var yawSign := if UpDirection().y < 0.0 then -1.0 else 1.0;
      // 0.8 is `rotation_speed`, a fixed rate
      yaw := yaw + yawSign * delta.x * 0.8;
      pitch := pitch + delta.y * 0.8;
    }

    /** What `mouse_zoom(delta)` does: the distance drops by
        `delta * zoom_speed()`; when that lands below the floor the distance
        is the floor and the focal point moves one forward direction on. */
    twostate predicate Zoomed(delta: real)
      reads this
    {
      var target := old(distance) - delta * ZoomSpeed(old(distance));
      && MinDistance <= distance
      && pitch == old(pitch) && yaw == old(yaw)
      && (if MinDistance <= target then
            distance == target && focalPoint == old(focalPoint)
          else
            distance == MinDistance && focalPoint == Add(old(focalPoint), old(ForwardDirection())))
    }

    /** The position is not recomputed here (the source does not call
        `update_view` after a zoom). */
    method MouseZoom(delta: real)
      modifies this`distance, this`focalPoint
      ensures Zoomed(delta)
      requires Valid()
      ensures Valid()
    {
      distance := distance - delta * ZoomSpeed(distance);
      if distance < MinDistance {
        focalPoint := Add(focalPoint, ForwardDirection());
        distance := MinDistance;
      }
    }

    /** The horizontal scroll `x` is ignored. */
    method MouseScrolledCallback(x: real, y: real)
      modifies this`distance, this`focalPoint
      ensures Zoomed(y * ScrollFactor)
      requires Valid()
      ensures Valid()
    {
      var delta := y * ScrollFactor;
      MouseZoom(delta);
    }
  }

  /** A camera made with fov 45 on a 1280 x 720 viewport zooms at speed 4, so
      `mouse_zoom(50)` hits the floor: distance 1 and the focal point one
      forward direction from the origin. */
  method ZoomFromStart(orientation: (real, real) -> Basis)
    returns (speed: real, distance: real, focalPoint: Vec3)
    ensures speed == 4.0 && distance == 1.0 && focalPoint == orientation(0.0, 0.0).forward
  {
    var camera := new Camera(45.0, 1280.0, 720.0, 0.1, 1000.0, orientation);
    speed := ZoomSpeed(camera.distance);
    camera.MouseZoom(50.0);
    distance := camera.distance;
    focalPoint := camera.focalPoint;
  }

  /** Scrolling with any horizontal offset lands where zooming by a tenth of
      the vertical offset does. */
  method ScrollIsZoom(orientation: (real, real) -> Basis, x: real, y: real)
    returns (same: bool)
    ensures same
  {
    var a := new Camera(45.0, 1280.0, 720.0, 0.1, 1000.0, orientation);
    var b := new Camera(45.0, 1280.0, 720.0, 0.1, 1000.0, orientation);
    a.MouseScrolledCallback(x, y);
    b.MouseZoom(0.1 * y);
    same := a.distance == b.distance && a.focalPoint == b.focalPoint;
  }
}

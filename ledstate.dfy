/** The state of the simulated LED strip: one record per LED and the
    effect settings, shared by the web handlers and the effect loop. */
module LedState {

  /** A position in space (single-precision in the simulator, reals here). */
  datatype Vec3 = Vec3(x: real, y: real, z: real)

  /** An opaque RGBA colour with 8-bit channels. */
  datatype Color = Color(r: nat, g: nat, b: nat, a: nat)

  const BLACK := Color(0, 0, 0, 255)

  /** An opaque colour from red, green and blue. */
  function FromRgb(r: nat, g: nat, b: nat): Color
  {
    Color(r, g, b, 255)
  }

  datatype Led = Led(enabled: bool, color: Color, position: Vec3)

  datatype Effect = None | Blink | AllOn

  /** The LEDs of a freshly created state: one per position, in order, all
      enabled and black. */
  function InitialLeds(positions: seq<Vec3>): (leds: seq<Led>)
    ensures |leds| == |positions|
  {
    seq(|positions|, i requires 0 <= i < |positions| => Led(true, BLACK, positions[i]))
  }

  /** Builds the initial LED list by pushing one LED per position. */
  method MakeLeds(positions: seq<Vec3>) returns (leds: seq<Led>)
    ensures |leds| == |positions|
    ensures forall i :: 0 <= i < |leds| ==> leds[i].enabled && leds[i].color == BLACK && leds[i].position == positions[i]
    ensures leds == InitialLeds(positions)
  {
    leds := [];
    for i := 0 to |positions|
      invariant |leds| == i
      invariant forall j :: 0 <= j < i ==> leds[j] == Led(true, BLACK, positions[j])
    {
      leds := leds + [Led(true, BLACK, positions[i])];
    }
  }

  /** The shared application state. Instants are nanosecond time stamps. */
  class AppState {
    var leds: seq<Led>
    var baseColor: Color
    var effect: Effect
    var effectStart: int
    var rotationX: real
    var rotationY: real
    var offsetX: real
    var offsetY: real

    /** The state exactly as `new` leaves it for the given positions and
        creation time. */
    ghost predicate IsInitial(positions: seq<Vec3>, now: int)
      reads this
    {
      && leds == InitialLeds(positions)
      && baseColor == FromRgb(150, 150, 150)
      && effect == None
      && effectStart == now
      && rotationX == 0.0 && rotationY == 0.0
      && offsetX == 0.0 && offsetY == 0.0
    }

    /** A new state with one LED per generated position. The positions and
        the clock reading are inputs. */
    constructor (positions: seq<Vec3>, now: int)
      ensures IsInitial(positions, now)
    {
      var initial := MakeLeds(positions);
      leds := initial;
      baseColor := FromRgb(150, 150, 150);
      effect := None;
      effectStart := now;
      rotationX, rotationY := 0.0, 0.0;
      offsetX, offsetY := 0.0, 0.0;
    }

    /** Replaces this whole state by `other` (`*state = other`). */
    method Assign(other: AppState)
      modifies this
      ensures leds == old(other.leds) && baseColor == old(other.baseColor)
      ensures effect == old(other.effect) && effectStart == old(other.effectStart)
      ensures rotationX == old(other.rotationX) && rotationY == old(other.rotationY)
      ensures offsetX == old(other.offsetX) && offsetY == old(other.offsetY)
    {
      leds, baseColor, effect, effectStart := other.leds, other.baseColor, other.effect, other.effectStart;
      rotationX, rotationY, offsetX, offsetY := other.rotationX, other.rotationY, other.offsetX, other.offsetY;
    }
  }

  /** A freshly created state has one enabled black LED per position, in
      order, no effect, and rotation and offset at zero. */
  lemma InitialStateShape(s: AppState, positions: seq<Vec3>, now: int)
    requires s.IsInitial(positions, now)
    ensures |s.leds| == |positions|
    ensures forall i :: 0 <= i < |s.leds| ==>
      s.leds[i].enabled && s.leds[i].color == BLACK && s.leds[i].position == positions[i]
    ensures s.effect == None && s.baseColor == Color(150, 150, 150, 255)
  {
  }
}

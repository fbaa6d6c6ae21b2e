/** The HTTP handlers of the simulated LED strip, as operations on the shared
    state. Request bodies are given already decoded: object keys as LED
    indices, JSON values as typed values. */
module LedWeb {
  import opened LedState

  /** The LEDs with `enabled` set from `body` for every listed index. */
  function Configured(leds: seq<Led>, body: map<nat, bool>): (r: seq<Led>)
    ensures |r| == |leds|
  {
    seq(|leds|, i requires 0 <= i < |leds| => if i in body then leds[i].(enabled := body[i]) else leds[i])
  }

  /** `POST /configure_leds`: sets the `enabled` flag of every listed LED.
      A listed index past the last LED is a panic in the server, so it is
      excluded here. */
  method ConfigureLeds(s: AppState, body: map<nat, bool>)
    requires forall k :: k in body ==> k < |s.leds|
    modifies s
    ensures s.leds == Configured(old(s.leds), body)
    ensures s.baseColor == old(s.baseColor) && s.effect == old(s.effect) && s.effectStart == old(s.effectStart)
    ensures s.rotationX == old(s.rotationX) && s.rotationY == old(s.rotationY)
    ensures s.offsetX == old(s.offsetX) && s.offsetY == old(s.offsetY)
  {
    var remaining := body.Keys;
    while remaining != {}
      invariant remaining <= body.Keys
      invariant |s.leds| == |old(s.leds)|
      invariant forall i :: 0 <= i < |s.leds| ==>
        s.leds[i] == if i in body && i !in remaining then old(s.leds[i]).(enabled := body[i]) else old(s.leds[i])
      invariant s.baseColor == old(s.baseColor) && s.effect == old(s.effect) && s.effectStart == old(s.effectStart)
      invariant s.rotationX == old(s.rotationX) && s.rotationY == old(s.rotationY)
      invariant s.offsetX == old(s.offsetX) && s.offsetY == old(s.offsetY)
      decreases remaining
    {
      var k :| k in remaining;
      s.leds := s.leds[k := s.leds[k].(enabled := body[k])];
      remaining := remaining - {k};
    }
  }

  /** Configuring sets exactly the listed flags: colours and positions are
      kept, and unlisted LEDs are untouched. */
  lemma ConfigureOnlyListed(leds: seq<Led>, body: map<nat, bool>)
    ensures forall i :: 0 <= i < |leds| ==>
      && Configured(leds, body)[i].enabled == (if i in body then body[i] else leds[i].enabled)
      && Configured(leds, body)[i].color == leds[i].color
      && Configured(leds, body)[i].position == leds[i].position
  {
  }

  /** `POST /set_num_leds`: replaces the whole state by a new one with `n`
      LEDs. The generated positions and the clock reading are inputs. */
  method SetNumLeds(s: AppState, n: nat, positions: seq<Vec3>, now: int)
    requires |positions| == n
    modifies s
    ensures s.IsInitial(positions, now)
    ensures |s.leds| == n
  {
    var replacement := new AppState(positions, now);
    s.Assign(replacement);
  }

  /** `GET /get_num_leds`: the number of LEDs. */
  method GetNumLeds(s: AppState) returns (num: nat)
    ensures num == |s.leds|
  {
    num := |s.leds|;
  }

  /** The position `[x, y, z]` sent for index `k`. */
  function PositionOf(v: seq<real>): (p: Vec3)
    requires |v| >= 3
    ensures [p.x, p.y, p.z] == v[..3]
  {
    Vec3(v[0], v[1], v[2])
  }

  /** The LEDs with the position of every listed index replaced. */
  function Repositioned(leds: seq<Led>, body: map<nat, seq<real>>): (r: seq<Led>)
    requires forall k :: k in body ==> |body[k]| >= 3
    ensures |r| == |leds|
  {
    seq(|leds|, i requires 0 <= i < |leds| => if i in body then leds[i].(position := PositionOf(body[i])) else leds[i])
  }

  /** `POST /set_led_positions`: replaces the positions of the listed LEDs.
      An index past the last LED or a value with fewer than three numbers is
      a panic in the server, so both are excluded here. */
  method SetLedPositions(s: AppState, body: map<nat, seq<real>>)
    requires forall k :: k in body ==> k < |s.leds| && |body[k]| >= 3
    modifies s
    ensures s.leds == Repositioned(old(s.leds), body)
    ensures s.baseColor == old(s.baseColor) && s.effect == old(s.effect) && s.effectStart == old(s.effectStart)
    ensures s.rotationX == old(s.rotationX) && s.rotationY == old(s.rotationY)
    ensures s.offsetX == old(s.offsetX) && s.offsetY == old(s.offsetY)
  {
    var remaining := body.Keys;
    while remaining != {}
      invariant remaining <= body.Keys
      invariant |s.leds| == |old(s.leds)|
      invariant forall i :: 0 <= i < |s.leds| ==>
        s.leds[i] == if i in body && i !in remaining then old(s.leds[i]).(position := PositionOf(body[i])) else old(s.leds[i])
      invariant s.baseColor == old(s.baseColor) && s.effect == old(s.effect) && s.effectStart == old(s.effectStart)
      invariant s.rotationX == old(s.rotationX) && s.rotationY == old(s.rotationY)
      invariant s.offsetX == old(s.offsetX) && s.offsetY == old(s.offsetY)
      decreases remaining
    {
      var k :| k in remaining;
      var arr := body[k];
      s.leds := s.leds[k := s.leds[k].(position := Vec3(arr[0], arr[1], arr[2]))];
      remaining := remaining - {k};
    }
  }

  /** The position report: index `i` of every LED mapped to its `[x, y, z]`. */
  function PositionsReport(leds: seq<Led>): (report: map<nat, seq<real>>)
    ensures forall i: nat :: i in report <==> i < |leds|
  {
    map i: nat | i < |leds| :: [leds[i].position.x, leds[i].position.y, leds[i].position.z]
  }

  /** `GET /get_saved_led_positions`: builds the report one LED at a time. */
  method GetLedPositions(s: AppState) returns (obj: map<nat, seq<real>>)
    ensures forall i: nat :: i in obj <==> i < |s.leds|
    ensures forall i :: i in obj ==> obj[i] == [s.leds[i].position.x, s.leds[i].position.y, s.leds[i].position.z]
    ensures obj == PositionsReport(s.leds)
  {
    obj := map[];
    for i := 0 to |s.leds|
      invariant forall j: nat :: j in obj <==> j < i
      invariant forall j :: j in obj ==> obj[j] == [s.leds[j].position.x, s.leds[j].position.y, s.leds[j].position.z]
    {
      var p := s.leds[i].position;
      obj := obj[i := [p.x, p.y, p.z]];
    }
  }

  /** Setting positions and then reading them back returns the first three
      numbers sent for every listed LED and the old position of every other. */
  lemma PositionsRoundTrip(leds: seq<Led>, body: map<nat, seq<real>>)
    requires forall k :: k in body ==> k < |leds| && |body[k]| >= 3
    ensures forall k :: k in body ==> PositionsReport(Repositioned(leds, body))[k] == body[k][..3]
    ensures forall i: nat :: i < |leds| && i !in body ==> PositionsReport(Repositioned(leds, body))[i] == PositionsReport(leds)[i]
  {
    var after := Repositioned(leds, body);
    forall k | k in body
      ensures PositionsReport(after)[k] == body[k][..3]
    {
      assert after[k].position == PositionOf(body[k]);
    }
  }

  /** `POST /effects/blink`: starts blinking, counting from `now`. */
  method StartBlink(s: AppState, now: int)
    modifies s
    ensures s.effect == Effect.Blink && s.effectStart == now
    ensures s.leds == old(s.leds) && s.baseColor == old(s.baseColor)
    ensures s.rotationX == old(s.rotationX) && s.rotationY == old(s.rotationY)
    ensures s.offsetX == old(s.offsetX) && s.offsetY == old(s.offsetY)
  {
    s.effect := Effect.Blink;
    s.effectStart := now;
  }

  /** `POST /effects/allon`: switches to "all on"; the blink clock is kept. */
  method StartAllOn(s: AppState)
    modifies s
    ensures s.effect == AllOn && s.effectStart == old(s.effectStart)
    ensures s.leds == old(s.leds) && s.baseColor == old(s.baseColor)
    ensures s.rotationX == old(s.rotationX) && s.rotationY == old(s.rotationY)
    ensures s.offsetX == old(s.offsetX) && s.offsetY == old(s.offsetY)
  {
    s.effect := AllOn;
  }

  /** `POST /effects/stop`: no effect; the blink clock is kept. */
  method StopEffects(s: AppState)
    modifies s
    ensures s.effect == None && s.effectStart == old(s.effectStart)
    ensures s.leds == old(s.leds) && s.baseColor == old(s.baseColor)
    ensures s.rotationX == old(s.rotationX) && s.rotationY == old(s.rotationY)
    ensures s.offsetX == old(s.offsetX) && s.offsetY == old(s.offsetY)
  {
    s.effect := None;
  }
}

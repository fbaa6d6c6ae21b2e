/** The effect loop of the simulated LED strip: recolouring the LEDs
    according to the active effect. */
module LedEffects {
  import opened LedState

  /** Whole seconds elapsed from `start` to `now`; 0 when `now` is earlier. */
  function ElapsedSecs(start: int, now: int): (secs: nat)
    ensures now <= start ==> secs == 0
    ensures start < now ==> secs * 1_000_000_000 <= now - start < (secs + 1) * 1_000_000_000
  {
    if now <= start then 0 else (now - start) / 1_000_000_000
  }

  /** The blink effect shows the base colour during even seconds. */
  predicate BlinkPhaseOn(start: int, now: int)
  {
    ElapsedSecs(start, now) % 2 == 0
  }

  /** The colour one LED gets under `effect`, where `on` is the blink phase. */
  function Recolour(led: Led, effect: Effect, base: Color, on: bool): (r: Led)
    ensures r.enabled == led.enabled && r.position == led.position
    ensures effect == None ==> r == led
    ensures r.color == led.color || r.color == base || r.color == BLACK
    ensures !led.enabled ==> r.color == led.color || r.color == BLACK
  {
    match effect
    case None => led
    case AllOn => if led.enabled then led.(color := base) else led
    case Blink => if led.enabled && on then led.(color := base) else led.(color := BLACK)
  }

  /** Every LED recoloured under `effect`. */
  function ApplyEffect(leds: seq<Led>, effect: Effect, base: Color, on: bool): (r: seq<Led>)
    ensures |r| == |leds|
  {
    seq(|leds|, i requires 0 <= i < |leds| => Recolour(leds[i], effect, base, on))
  }

  /** Recolours every LED of `s` under the blink effect at time `now`. */
  method Blink(s: AppState, now: int)
    modifies s
    ensures s.leds == ApplyEffect(old(s.leds), Effect.Blink, old(s.baseColor), BlinkPhaseOn(old(s.effectStart), now))
    ensures s.baseColor == old(s.baseColor) && s.effect == old(s.effect) && s.effectStart == old(s.effectStart)
    ensures s.rotationX == old(s.rotationX) && s.rotationY == old(s.rotationY)
    ensures s.offsetX == old(s.offsetX) && s.offsetY == old(s.offsetY)
  {
    var elapsed := ElapsedSecs(s.effectStart, now);
    var on := elapsed % 2 == 0;
    for i := 0 to |s.leds|
      invariant |s.leds| == |old(s.leds)|
      invariant forall j :: 0 <= j < i ==> s.leds[j] == Recolour(old(s.leds[j]), Effect.Blink, s.baseColor, on)
      invariant forall j :: i <= j < |s.leds| ==> s.leds[j] == old(s.leds[j])
      invariant s.baseColor == old(s.baseColor) && s.effect == old(s.effect) && s.effectStart == old(s.effectStart)
      invariant s.rotationX == old(s.rotationX) && s.rotationY == old(s.rotationY)
      invariant s.offsetX == old(s.offsetX) && s.offsetY == old(s.offsetY)
    {
      var led := s.leds[i];
      if led.enabled && on {
        s.leds := s.leds[i := led.(color := s.baseColor)];
      } else {
        s.leds := s.leds[i := led.(color := BLACK)];
      }
    }
  }

  /** One step of the effect loop: recolours the LEDs of `s` according to
      its active effect at time `now`; nothing else changes. */
  method UpdateEffects(s: AppState, now: int)
    modifies s
    ensures s.leds == ApplyEffect(old(s.leds), old(s.effect), old(s.baseColor), BlinkPhaseOn(old(s.effectStart), now))
    ensures s.baseColor == old(s.baseColor) && s.effect == old(s.effect) && s.effectStart == old(s.effectStart)
    ensures s.rotationX == old(s.rotationX) && s.rotationY == old(s.rotationY)
    ensures s.offsetX == old(s.offsetX) && s.offsetY == old(s.offsetY)
  {
    match s.effect
    case Blink =>
      Blink(s, now);
    case AllOn =>
      for i := 0 to |s.leds|
        invariant |s.leds| == |old(s.leds)|
        invariant forall j :: 0 <= j < i ==> s.leds[j] == Recolour(old(s.leds[j]), AllOn, s.baseColor, true)
        invariant forall j :: i <= j < |s.leds| ==> s.leds[j] == old(s.leds[j])
        invariant s.baseColor == old(s.baseColor) && s.effect == old(s.effect) && s.effectStart == old(s.effectStart)
        invariant s.rotationX == old(s.rotationX) && s.rotationY == old(s.rotationY)
        invariant s.offsetX == old(s.offsetX) && s.offsetY == old(s.offsetY)
      {
        if s.leds[i].enabled {
          s.leds := s.leds[i := s.leds[i].(color := s.baseColor)];
        }
      }
    case None =>
      assert s.leds == ApplyEffect(s.leds, None, s.baseColor, true);
  }

  /** No effect leaves every LED as it is. */
  lemma NoEffectKeepsLeds(leds: seq<Led>, base: Color, on: bool)
    ensures ApplyEffect(leds, None, base, on) == leds
  {
  }

  /** "All on" gives every enabled LED the base colour and leaves disabled
      LEDs as they were. */
  lemma AllOnColours(leds: seq<Led>, base: Color, on: bool)
    ensures forall i :: 0 <= i < |leds| ==>
      ApplyEffect(leds, AllOn, base, on)[i].color == if leds[i].enabled then base else leds[i].color
  {
  }

  /** During an even second, blinking gives enabled LEDs the base colour and
      disabled LEDs black; during an odd second every LED is black. */
  lemma BlinkColours(leds: seq<Led>, base: Color, start: int, now: int)
    ensures forall i :: 0 <= i < |leds| ==>
      ApplyEffect(leds, Effect.Blink, base, BlinkPhaseOn(start, now))[i].color
        == if leds[i].enabled && ElapsedSecs(start, now) % 2 == 0 then base else BLACK
    ensures ElapsedSecs(start, now) % 2 == 1 ==>
      forall i :: 0 <= i < |leds| ==> ApplyEffect(leds, Effect.Blink, base, BlinkPhaseOn(start, now))[i].color == BLACK
  {
  }

  /** No effect changes which LEDs are enabled or where they are. */
  lemma EffectKeepsLayout(leds: seq<Led>, effect: Effect, base: Color, on: bool)
    ensures |ApplyEffect(leds, effect, base, on)| == |leds|
    ensures forall i :: 0 <= i < |leds| ==>
      && ApplyEffect(leds, effect, base, on)[i].enabled == leds[i].enabled
      && ApplyEffect(leds, effect, base, on)[i].position == leds[i].position
  {
  }

  /** Applying the same effect twice in the same phase is the same as once. */
  lemma EffectIdempotent(leds: seq<Led>, effect: Effect, base: Color, on: bool)
    ensures ApplyEffect(ApplyEffect(leds, effect, base, on), effect, base, on) == ApplyEffect(leds, effect, base, on)
  {
    var once := ApplyEffect(leds, effect, base, on);
    forall i | 0 <= i < |leds|
      ensures Recolour(once[i], effect, base, on) == once[i]
    {
    }
  }
}

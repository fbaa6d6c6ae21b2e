/** The capture schedule of a calibration scan: which LEDs are lit in which
    capture cycle, the light command sent for each cycle, and the weight that
    balances the many "off" images against the few "on" images of an LED. */
module Schedule {

  /** True when LED `led` is lit during capture cycle `cycle`: the scan turns
      the LEDs on one at a time, LED `c` in cycle `c`. */
  predicate IsLedOn(led: nat, cycle: nat)
  {
    led == cycle
  }

  /** Number of cycles among `0 .. n-1` in which `led` is lit. */
  function CountOn(led: nat, n: nat): nat
  {
    if n == 0 then 0 else CountOn(led, n - 1) + (if IsLedOn(led, n - 1) then 1 else 0)
  }

  /** Number of cycles among `0 .. n-1` in which `led` is dark. */
  function CountOff(led: nat, n: nat): nat
  {
    if n == 0 then 0 else CountOff(led, n - 1) + (if IsLedOn(led, n - 1) then 0 else 1)
  }

  /** Every cycle is either an "on" or an "off" cycle of a given LED. */
  lemma {:induction false} CountsPartition(led: nat, n: nat)
    ensures CountOn(led, n) + CountOff(led, n) == n
  {
    if n > 0 {
      CountsPartition(led, n - 1);
    }
  }

  /** One-hot schedule: an LED with an index below the cycle count is lit in
      exactly one cycle, any other LED in none. */
  lemma {:induction false} CountOnOneHot(led: nat, n: nat)
    ensures CountOn(led, n) == if led < n then 1 else 0
  {
    if n > 0 {
      CountOnOneHot(led, n - 1);
    }
  }

  /** An LED that is dark in some scheduled cycle has a positive off count. */
  lemma {:induction false} OffCycleGivesOffCount(led: nat, n: nat, cycle: nat)
    requires cycle < n && !IsLedOn(led, cycle)
    ensures CountOff(led, n) > 0
  {
    if cycle < n - 1 {
      OffCycleGivesOffCount(led, n - 1, cycle);
    }
  }

  /** The set of scheduled cycles in which `led` is lit. */
  function CyclesLit(led: nat, numCycles: nat): set<nat>
  {
    set c: nat | c < numCycles && IsLedOn(led, c)
  }

  /** With as many cycles as LEDs, each LED is lit in exactly one cycle, its own. */
  lemma EachLedLitOnce(numLeds: nat, numCycles: nat, led: nat)
    requires numCycles == numLeds && led < numLeds
    ensures CyclesLit(led, numCycles) == {led}
  {
    assert led in CyclesLit(led, numCycles);
  }

  /** The off-image weight of `led`: on count divided by off count. */
  function OffWeightOf(led: nat, numCycles: nat): real
    requires CountOff(led, numCycles) > 0
  {
    CountOn(led, numCycles) as real / CountOff(led, numCycles) as real
  }

  /** The weight balances the off images against the on images. */
  lemma OffWeightBalances(led: nat, numCycles: nat)
    requires CountOff(led, numCycles) > 0
    ensures OffWeightOf(led, numCycles) * CountOff(led, numCycles) as real == CountOn(led, numCycles) as real
  {
  }

  /** Under the one-hot schedule the weight of a scheduled LED is 1/(n-1),
      and that of an LED beyond the cycle count is 0. */
  lemma OffWeightOneHot(led: nat, numCycles: nat)
    requires numCycles >= 2 || led >= numCycles
    ensures CountOff(led, numCycles) > 0 || numCycles == 0
    ensures led < numCycles ==> CountOff(led, numCycles) == numCycles - 1
    ensures numCycles > 0 ==> OffWeightOf(led, numCycles) == if led < numCycles then 1.0 / (numCycles - 1) as real else 0.0
  {
    CountOnOneHot(led, numCycles);
    CountsPartition(led, numCycles);
  }

  /** Counts the on and off cycles of `led` and returns their ratio. Its only
      caller asks for the weight while handling an off cycle of `led`, so at
      least one off cycle exists and the division is defined. */
  method OffWeight(led: nat, numCycles: nat) returns (weight: real)
    requires CountOff(led, numCycles) > 0
    ensures weight * CountOff(led, numCycles) as real == CountOn(led, numCycles) as real
    ensures weight == OffWeightOf(led, numCycles)
  {
    var countOn, countOff := 0, 0;
    for cycle := 0 to numCycles
      invariant countOn == CountOn(led, cycle)
      invariant countOff == CountOff(led, cycle)
    {
      if IsLedOn(led, cycle) {
        countOn := countOn + 1;
      } else {
        countOff := countOff + 1;
      }
    }
    weight := countOn as real / countOff as real;
  }

  /** The light command of one cycle: every LED index below `numLeds` mapped to
      whether it is lit in cycle `cycle`. */
  function CycleCommand(numLeds: nat, cycle: nat): map<nat, bool>
  {
    map led: nat | led < numLeds :: IsLedOn(led, cycle)
  }

  /** The LEDs that a light command switches on. */
  function LitBy(command: map<nat, bool>): set<nat>
  {
    set led | led in command && command[led]
  }

  /** A one-hot cycle within the LED range switches on exactly one LED; a cycle
      beyond it switches on none. */
  lemma CommandLightsOne(numLeds: nat, cycle: nat)
    ensures LitBy(CycleCommand(numLeds, cycle)) == if cycle < numLeds then {cycle} else {}
  {
    var lit := LitBy(CycleCommand(numLeds, cycle));
    if cycle < numLeds {
      assert cycle in lit;
    }
  }

  /** Builds the command dictionary of cycle `cycle`, one LED at a time. */
  method BuildCycleCommand(numLeds: nat, cycle: nat) returns (command: map<nat, bool>)
    ensures forall led: nat :: led in command <==> led < numLeds
    ensures forall led :: led in command ==> command[led] == (led == cycle)
  {
    command := map[];
    for led := 0 to numLeds
      invariant forall l: nat :: l in command <==> l < led
      invariant forall l :: l in command ==> command[l] == (l == cycle)
    {
      command := command[led := IsLedOn(led, cycle)];
    }
  }

  /** The capture loop: for each cycle, the command that is sent to the light
      controller before the camera frame of that cycle is grabbed. Sending the
      command and grabbing the frame are outside the model; the result is the
      sequence of commands, in order. */
  method CaptureLockInCommands(numLeds: nat, numCycles: nat) returns (commands: seq<map<nat, bool>>)
    ensures |commands| == numCycles
    ensures forall c :: 0 <= c < numCycles ==> commands[c] == CycleCommand(numLeds, c)
  {
    commands := [];
    for shift := 0 to numCycles
      invariant |commands| == shift
      invariant forall c :: 0 <= c < shift ==> commands[c] == CycleCommand(numLeds, c)
    {
      var command := BuildCycleCommand(numLeds, shift);
      commands := commands + [command];
    }
  }

  /** In the command sequence of a scan with as many cycles as LEDs, each LED
      is switched on by exactly one command, the one of its own cycle. */
  lemma ScanLightsEachLedOnce(numLeds: nat, led: nat, commands: seq<map<nat, bool>>)
    requires led < numLeds && |commands| == numLeds
    requires forall c :: 0 <= c < numLeds ==> commands[c] == CycleCommand(numLeds, c)
    ensures (set c | 0 <= c < numLeds && led in LitBy(commands[c])) == {led}
  {
    var lit := set c | 0 <= c < numLeds && led in LitBy(commands[c]);
    forall c | 0 <= c < numLeds
      ensures c in lit <==> c == led
    {
      CommandLightsOne(numLeds, c);
    }
  }
}

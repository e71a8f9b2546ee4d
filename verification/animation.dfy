/**
 * The animation driver (script.js, animate): every frame it advances either
 * the helix or the neuron network, chosen from the wall clock in an
 * 8-second-per-scene, 16-second cycle.
 */
module Animation {
  import Helix
  import Network

  /** Milliseconds each scene is shown. */
  const CycleTime: int := 8000

  datatype Scene = HelixScene | NetworkScene

  /** JavaScript's `%` on integers: the remainder takes the sign of the dividend. */
  function JsRem(a: int, m: int): (r: int)
    requires m > 0
    ensures a >= 0 ==> 0 <= r < m
    ensures a < 0 ==> -m < r <= 0
  {
    if a >= 0 then a % m else -((-a) % m)
  }

  /** `time = Date.now() % (cycleTime * 2)`; the helix while `time < cycleTime`. */
  function SceneAt(now: int): Scene {
    if JsRem(now, CycleTime * 2) < CycleTime then HelixScene else NetworkScene
  }

  // ---------------------------------------------------------------- lemmas

  /** Within each 16-second cycle the first 8 seconds show the helix and the next 8 the network. */
  lemma {:induction false} SceneInCycle(k: nat, offset: int)
    requires 0 <= offset < 2 * CycleTime
    ensures SceneAt(2 * CycleTime * k + offset) == if offset < CycleTime then HelixScene else NetworkScene
  {
    var now := 2 * CycleTime * k + offset;
    assert now >= 0;
    assert now % (2 * CycleTime) == offset by {
      assert now == (2 * CycleTime) * k + offset;
    }
  }

  /** The choice repeats every 16 seconds (for clocks past the epoch). */
  lemma ScenePeriodic(now: int)
    requires now >= 0
    ensures SceneAt(now + 2 * CycleTime) == SceneAt(now)
  {
    var q, r := now / (2 * CycleTime), now % (2 * CycleTime);
    SceneInCycle(q, r);
    SceneInCycle(q + 1, r);
    assert now == 2 * CycleTime * q + r;
    assert now + 2 * CycleTime == 2 * CycleTime * (q + 1) + r;
  }

  /** The scene flips exactly between 7999 and 8000 ms into the cycle, and back at 16000. */
  lemma SceneBoundaries(k: nat)
    ensures SceneAt(2 * CycleTime * k + 3000) == HelixScene
    ensures SceneAt(2 * CycleTime * k + 7999) == HelixScene
    ensures SceneAt(2 * CycleTime * k + 8000) == NetworkScene
    ensures SceneAt(2 * CycleTime * k + 9000) == NetworkScene
    ensures SceneAt(2 * CycleTime * k + 15999) == NetworkScene
    ensures SceneAt(2 * CycleTime * (k + 1)) == HelixScene
  {
    SceneInCycle(k, 3000);
    SceneInCycle(k, 7999);
    SceneInCycle(k, 8000);
    SceneInCycle(k, 9000);
    SceneInCycle(k, 15999);
    SceneInCycle(k + 1, 0);
  }

  /** A clock before the epoch gives a non-positive remainder, which always selects the helix. */
  lemma NegativeClockShowsHelix(now: int)
    requires now < 0
    ensures SceneAt(now) == HelixScene
  {
  }

  // ---------------------------------------------------------------- the driver

  class Visualization {
    const helix: Helix.DNAHelix
    const network: Network.NeuronNetwork

    constructor (helix: Helix.DNAHelix, network: Network.NeuronNetwork)
      ensures this.helix == helix && this.network == network
    {
      this.helix := helix;
      this.network := network;
    }

    /** One frame at wall-clock time `now`: exactly one of the two scenes is advanced. */
    method Frame(now: int)
      modifies helix, network
      ensures SceneAt(now) == HelixScene ==>
        helix.rotation == old(helix.rotation) + 0.01 && unchanged(network)
      ensures SceneAt(now) == NetworkScene ==>
        unchanged(helix)
        && |network.neurons| == |old(network.neurons)|
        && (forall i :: 0 <= i < |network.neurons| ==>
              network.neurons[i] == Network.Step(old(network.neurons)[i]))
        && network.connections == old(network.connections)
      ensures helix.points == old(helix.points)
    {
      var time := JsRem(now, CycleTime * 2);
      if time < CycleTime {
        helix.Update();
      } else {
        network.Update();
      }
    }
  }
}

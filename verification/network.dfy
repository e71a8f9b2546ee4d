/**
 * The neuron network of the background animation (script.js, class
 * NeuronNetwork): 25 neurons, the connections chosen between pairs of them
 * once at construction, and the per-frame drift with its bounce off an
 * invisible box. Random draws and the Euclidean distance are inputs.
 */
module Network {

  const NeuronCount: nat := 25

  datatype Neuron = Neuron(x: real, y: real, z: real, vx: real, vy: real, vz: real, pulse: real)

  datatype Connection = Connection(from: nat, to: nat, strength: real)

  /**
   * The outside world generateNetwork consults for a pair (i, j) of neurons:
   * `near(a, b)` stands for `distance(a, b) < 250`, `coin(i, j)` for the
   * `Math.random() > 0.5` draw and `strength(i, j)` for the strength draw.
   */
  datatype Oracle = Oracle(near: (Neuron, Neuron) -> bool, coin: (nat, nat) -> bool, strength: (nat, nat) -> real)

  /** Whether the pair (i, j) gets a connection. */
  predicate Linked(ns: seq<Neuron>, o: Oracle, i: nat, j: nat)
    requires i < |ns| && j < |ns|
  {
    o.near(ns[i], ns[j]) && o.coin(i, j)
  }

  /** The connection a pair gets, if any. */
  function Candidate(ns: seq<Neuron>, o: Oracle, i: nat, j: nat): seq<Connection>
    requires i < |ns| && j < |ns|
  {
    if Linked(ns, o, i, j) then [Connection(i, j, o.strength(i, j))] else []
  }

  /** What the inner loop of row i pushes for j = i + 1 .. bound - 1. */
  function RowUpTo(ns: seq<Neuron>, o: Oracle, i: nat, bound: nat): seq<Connection>
    requires i < bound <= |ns|
    decreases bound
  {
    if bound == i + 1 then [] else RowUpTo(ns, o, i, bound - 1) + Candidate(ns, o, i, bound - 1)
  }

  /** What the outer loop pushes for rows 0 .. rows - 1. */
  function RowsUpTo(ns: seq<Neuron>, o: Oracle, rows: nat): seq<Connection>
    requires rows <= |ns|
  {
    if rows == 0 then [] else RowsUpTo(ns, o, rows - 1) + RowUpTo(ns, o, rows - 1, |ns|)
  }

  /** All connections generateNetwork creates over the neurons ns. */
  function Edges(ns: seq<Neuron>, o: Oracle): seq<Connection> {
    RowsUpTo(ns, o, |ns|)
  }

  /** What a connection c must be to be created: an accepted pair (from, to) with from < to, and its drawn strength. */
  predicate Admissible(ns: seq<Neuron>, o: Oracle, c: Connection) {
    c.from < c.to < |ns| && Linked(ns, o, c.from, c.to) && c.strength == o.strength(c.from, c.to)
  }

  /** Lexicographic order on (from, to). */
  predicate Before(c: Connection, d: Connection) {
    c.from < d.from || (c.from == d.from && c.to < d.to)
  }

  predicate Ordered(cs: seq<Connection>) {
    forall a, b :: 0 <= a < b < |cs| ==> Before(cs[a], cs[b])
  }

  // ---------------------------------------------------------------- lemmas on connections

  lemma OrderedAppend(xs: seq<Connection>, ys: seq<Connection>)
    requires Ordered(xs) && Ordered(ys)
    requires forall c, d :: c in xs && d in ys ==> Before(c, d)
    ensures Ordered(xs + ys)
  {
    forall a, b | 0 <= a < b < |xs + ys| ensures Before((xs + ys)[a], (xs + ys)[b]) {
      if b < |xs| {
      } else if a >= |xs| {
        assert (xs + ys)[a] == ys[a - |xs|] && (xs + ys)[b] == ys[b - |xs|];
      } else {
        assert (xs + ys)[a] in xs && (xs + ys)[b] in ys;
      }
    }
  }

  /** Row i holds exactly the admissible connections (i, j) with j < bound, in increasing j. */
  lemma {:induction false} RowFacts(ns: seq<Neuron>, o: Oracle, i: nat, bound: nat)
    requires i < bound <= |ns|
    ensures forall c :: c in RowUpTo(ns, o, i, bound) <==>
      c.from == i && c.to < bound && Admissible(ns, o, c)
    ensures Ordered(RowUpTo(ns, o, i, bound))
    decreases bound
  {
    if bound > i + 1 {
      RowFacts(ns, o, i, bound - 1);
      OrderedAppend(RowUpTo(ns, o, i, bound - 1), Candidate(ns, o, i, bound - 1));
    }
  }

  /** Rows 0 .. rows - 1 hold exactly the admissible connections whose source is below rows, in order. */
  lemma {:induction false} RowsFacts(ns: seq<Neuron>, o: Oracle, rows: nat)
    requires rows <= |ns|
    ensures forall c :: c in RowsUpTo(ns, o, rows) <==> c.from < rows && Admissible(ns, o, c)
    ensures Ordered(RowsUpTo(ns, o, rows))
  {
    if rows > 0 {
      var done, row := RowsUpTo(ns, o, rows - 1), RowUpTo(ns, o, rows - 1, |ns|);
      RowsFacts(ns, o, rows - 1);
      RowFacts(ns, o, rows - 1, |ns|);
      forall c, d | c in done && d in row ensures Before(c, d) {
        assert c.from < rows - 1 == d.from;
      }
      OrderedAppend(done, row);
      assert RowsUpTo(ns, o, rows) == done + row;
    }
  }

  /**
   * The connections are exactly the accepted pairs (from, to) with
   * 0 <= from < to < |ns|, each with its drawn strength; and no pair occurs twice.
   */
  lemma EdgesExact(ns: seq<Neuron>, o: Oracle)
    ensures forall c :: c in Edges(ns, o) <==> Admissible(ns, o, c)
    ensures forall a, b :: 0 <= a < b < |Edges(ns, o)| ==>
      (Edges(ns, o)[a].from, Edges(ns, o)[a].to) != (Edges(ns, o)[b].from, Edges(ns, o)[b].to)
  {
    RowsFacts(ns, o, |ns|);
  }

  /** Every accepted pair i < j gets its connection. */
  lemma EdgesComplete(ns: seq<Neuron>, o: Oracle, i: nat, j: nat)
    requires i < j < |ns| && Linked(ns, o, i, j)
    ensures Connection(i, j, o.strength(i, j)) in Edges(ns, o)
  {
    EdgesExact(ns, o);
  }

  // ---------------------------------------------------------------- the per-frame drift

  /**
   * One axis of update(): move by the velocity, then reverse the velocity if
   * the new position is beyond the bound (a bounce, not a clamp).
   */
  function AxisStep(pos: real, vel: real, bound: real): (real, real) {
    var p := pos + vel;
    (p, if Abs(p) > bound then -vel else vel)
  }

  function Abs(r: real): real { if r < 0.0 then -r else r }

  /**
   * The containment update() keeps on one axis: never more than one step
   * beyond the bound, and when beyond it, heading back.
   */
  predicate NearBox(pos: real, vel: real, bound: real) {
    -bound - Abs(vel) <= pos <= bound + Abs(vel)
    && (pos > bound ==> vel < 0.0)
    && (pos < -bound ==> vel > 0.0)
  }

  function Step(n: Neuron): Neuron {
    var (x, vx) := AxisStep(n.x, n.vx, 300.0);
    var (y, vy) := AxisStep(n.y, n.vy, 300.0);
    var (z, vz) := AxisStep(n.z, n.vz, 200.0);
    Neuron(x, y, z, vx, vy, vz, n.pulse + 0.05)
  }

  predicate Contained(n: Neuron) {
    NearBox(n.x, n.vx, 300.0) && NearBox(n.y, n.vy, 300.0) && NearBox(n.z, n.vz, 200.0)
  }

  /** A bounce keeps the speed on that axis. */
  lemma AxisStepKeepsSpeed(pos: real, vel: real, bound: real)
    ensures Abs(AxisStep(pos, vel, bound).1) == Abs(vel)
  {
  }

  /** One step of the bounce keeps an axis within one step of its box, heading back when outside. */
  lemma AxisStepKeepsNearBox(pos: real, vel: real, bound: real)
    requires bound >= 0.0 && NearBox(pos, vel, bound)
    ensures NearBox(AxisStep(pos, vel, bound).0, AxisStep(pos, vel, bound).1, bound)
  {
  }

  /** A neuron that starts inside its box never strays more than one step outside it. */
  lemma StepKeepsContained(n: Neuron)
    requires Contained(n)
    ensures Contained(Step(n))
  {
    AxisStepKeepsNearBox(n.x, n.vx, 300.0);
    AxisStepKeepsNearBox(n.y, n.vy, 300.0);
    AxisStepKeepsNearBox(n.z, n.vz, 200.0);
  }

  // ---------------------------------------------------------------- the network object

  class NeuronNetwork {
    var neurons: seq<Neuron>
    var connections: seq<Connection>

    /** `spawn(i)` stands for the random draws of the i-th neuron. */
    constructor (spawn: nat -> Neuron, o: Oracle)
      ensures |neurons| == NeuronCount
      ensures forall i :: 0 <= i < NeuronCount ==> neurons[i] == spawn(i)
      ensures connections == Edges(neurons, o)
    {
      neurons := [];
      connections := [];
      new;
      GenerateNetwork(spawn, o);
    }

    /** Pushes 25 neurons, then a connection for every accepted pair i < j of all neurons. */
    method GenerateNetwork(spawn: nat -> Neuron, o: Oracle)
      modifies this
      ensures |neurons| == |old(neurons)| + NeuronCount
      ensures neurons[..|old(neurons)|] == old(neurons)
      ensures forall i :: 0 <= i < NeuronCount ==> neurons[|old(neurons)| + i] == spawn(i)
      ensures connections == old(connections) + Edges(neurons, o)
    {
      var k := 0;
      while k < NeuronCount
        invariant 0 <= k <= NeuronCount
        invariant |neurons| == |old(neurons)| + k
        invariant neurons[..|old(neurons)|] == old(neurons)
        invariant forall i :: 0 <= i < k ==> neurons[|old(neurons)| + i] == spawn(i)
        invariant connections == old(connections)
      {
        neurons := neurons + [spawn(k)];
        k := k + 1;
      }

      ghost var spawned := neurons;
      var i := 0;
      while i < |neurons|
        invariant neurons == spawned
        invariant 0 <= i <= |neurons|
        invariant connections == old(connections) + RowsUpTo(neurons, o, i)
      {
        var j := i + 1;
        while j < |neurons|
          invariant neurons == spawned
          invariant i + 1 <= j <= |neurons|
          invariant connections == old(connections) + RowsUpTo(neurons, o, i) + RowUpTo(neurons, o, i, j)
        {
          if o.near(neurons[i], neurons[j]) && o.coin(i, j) {
            connections := connections + [Connection(i, j, o.strength(i, j))];
          }
          assert RowUpTo(neurons, o, i, j + 1) == RowUpTo(neurons, o, i, j) + Candidate(neurons, o, i, j);
          j := j + 1;
        }
        assert RowsUpTo(neurons, o, i + 1) == RowsUpTo(neurons, o, i) + RowUpTo(neurons, o, i, |neurons|);
        i := i + 1;
      }
    }

    /** Moves every neuron one frame on, bouncing off the box, and advances its pulse. */
    method Update()
      modifies this`neurons
      ensures |neurons| == |old(neurons)|
      ensures forall i :: 0 <= i < |neurons| ==> neurons[i] == Step(old(neurons)[i])
    {
      var i := 0;
      while i < |neurons|
        invariant 0 <= i <= |neurons| == |old(neurons)|
        invariant forall k :: 0 <= k < i ==> neurons[k] == Step(old(neurons)[k])
        invariant forall k :: i <= k < |neurons| ==> neurons[k] == old(neurons)[k]
      {
        var n := neurons[i];
        var x, y, z := n.x + n.vx, n.y + n.vy, n.z + n.vz;
        var vx, vy, vz := n.vx, n.vy, n.vz;
        if Abs(x) > 300.0 { vx := -vx; }
        if Abs(y) > 300.0 { vy := -vy; }
        if Abs(z) > 200.0 { vz := -vz; }
        neurons := neurons[i := Neuron(x, y, z, vx, vy, vz, n.pulse + 0.05)];
        i := i + 1;
      }
    }
  }
}

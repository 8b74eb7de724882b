/** Day 20: a network of pulse modules.  Pressing the button sends a low pulse to the
    broadcaster; pulses travel through a first-in first-out queue to flip-flops (which
    toggle on low pulses) and conjunctions (which remember the last pulse from each
    input).  The answer is the product of the low and high pulse counts after 1000
    presses. */
module Day20 {
  import opened Common

  const ButtonName := "BUTTON"
  const BroadcasterName := "broadcaster"
  const NPresses := 1000

  datatype Kind = Broadcaster | FlipFlop | Conjunction

  /** `(src, dest, pulse)`: a pulse is high when `high` is true. */
  datatype Pulse = Pulse(src: string, dest: string, high: bool)

  /** The module type chosen by `read_input` from the prefix symbol and the name. */
  function KindOf(symbol: string, name: string): (r: Result<Kind>)
    ensures r.Ok? <==> (symbol == "" && name == BroadcasterName) || symbol == "%" || symbol == "&"
    ensures r == Ok(Broadcaster) <==> symbol == "" && name == BroadcasterName
    ensures r == Ok(FlipFlop) <==> symbol == "%"
    ensures r.Err? ==> r.fault == ValueError
  {
    if symbol == "" && name == BroadcasterName then Ok(Broadcaster)
    else if symbol == "%" then Ok(FlipFlop)
    else if symbol == "&" then Ok(Conjunction)
    else Err(ValueError)
  }

  /** The same pulse from `name` to every neighbour, in neighbour order. */
  function Send(name: string, neighbors: seq<string>, high: bool): (out: seq<Pulse>)
    ensures |out| == |neighbors|
  {
    seq(|neighbors|, i requires 0 <= i < |neighbors| => Pulse(name, neighbors[i], high))
  }

  /** `all(self.memory.values())`. */
  predicate AllHigh(memory: map<string, bool>)
  {
    forall k :: k in memory ==> memory[k]
  }

  /** The value of a module: its fixed kind and neighbours, and its mutable state. */
  datatype Config = Config(kind: Kind, neighbors: seq<string>, state: bool, memory: map<string, bool>)

  /** What a module does with one pulse: its new value and the pulses it emits. */
  function React(c: Config, name: string, src: string, high: bool): (Config, seq<Pulse>)
  {
    match c.kind
    case Broadcaster => (c, Send(name, c.neighbors, high))
    case FlipFlop =>
      if high then (c, [])
      else (c.(state := !c.state), Send(name, c.neighbors, !c.state))
    case Conjunction =>
      var memory := c.memory[src := high];
      (c.(memory := memory), Send(name, c.neighbors, !AllHigh(memory)))
  }

  /** The broadcaster forwards the pulse unchanged to every neighbour and keeps no
      state. */
  lemma BroadcasterForwards(c: Config, name: string, src: string, high: bool)
    requires c.kind == Broadcaster
    ensures React(c, name, src, high).0 == c
    ensures forall i :: 0 <= i < |c.neighbors| ==>
              React(c, name, src, high).1[i] == Pulse(name, c.neighbors[i], high)
    ensures |React(c, name, src, high).1| == |c.neighbors|
  {
  }

  /** A flip-flop ignores high pulses; a low pulse toggles it, and it sends its new
      state to every neighbour. */
  lemma FlipFlopBehaviour(c: Config, name: string, src: string, high: bool)
    requires c.kind == FlipFlop
    ensures high ==> React(c, name, src, high) == (c, [])
    ensures !high ==> React(c, name, src, high).0.state == !c.state
    ensures !high ==> React(c, name, src, high).0.memory == c.memory
    ensures !high ==> React(c, name, src, high).1 == Send(name, c.neighbors, React(c, name, src, high).0.state)
  {
  }

  /** A conjunction remembers the pulse from `src` and then sends low exactly when
      every remembered input is high. */
  lemma ConjunctionBehaviour(c: Config, name: string, src: string, high: bool)
    requires c.kind == Conjunction
    ensures React(c, name, src, high).0.memory == c.memory[src := high]
    ensures React(c, name, src, high).0.state == c.state
    ensures forall i :: 0 <= i < |React(c, name, src, high).1| ==>
              (!React(c, name, src, high).1[i].high <==> AllHigh(c.memory[src := high]))
  {
  }

  /** A module object of the network. */
  class Module {
    const name: string
    const kind: Kind
    const neighbors: seq<string>
    var state: bool
    var memory: map<string, bool>

    constructor (name: string, kind: Kind, neighbors: seq<string>)
      ensures this.name == name && this.kind == kind && this.neighbors == neighbors
      ensures !state && memory == map[]
    {
      this.name := name;
      this.kind := kind;
      this.neighbors := neighbors;
      state := false;
      memory := map[];
    }

    function View(): Config
      reads this
    {
      Config(kind, neighbors, state, memory)
    }

    /** `ConjunctionModule.register_input`. */
    method RegisterInput(inputName: string, startMemory: bool)
      modifies this
      ensures memory == old(memory)[inputName := startMemory]
      ensures state == old(state)
    {
      memory := memory[inputName := startMemory];
    }

    /** `pulse` of the three module classes. */
    method Receive(src: string, high: bool) returns (out: seq<Pulse>)
      modifies this
      ensures (View(), out) == React(old(View()), name, src, high)
    {
      match kind
      case Broadcaster =>
        out := Send(name, neighbors, high);
      case FlipFlop =>
        if high {
          return [];
        }
        state := !state;
        out := Send(name, neighbors, state);
      case Conjunction =>
        memory := memory[src := high];
        var toSend := !AllHigh(memory);
        out := Send(name, neighbors, toSend);
    }
  }

  // ------------------------------------------------------------ the network

  /** Every module is stored under its own name (so distinct names hold distinct
      objects). */
  predicate Valid(modules: map<string, Module>)
  {
    forall n :: n in modules ==> modules[n].name == n
  }

  function Repr(modules: map<string, Module>): set<Module>
  {
    set n | n in modules :: modules[n]
  }

  type Snapshot = map<string, Config>

  function Snap(modules: map<string, Module>): (s: Snapshot)
    reads Repr(modules)
    ensures s.Keys == modules.Keys
  {
    map n | n in modules :: modules[n].View()
  }

  /** The inputs `read_input` registers with conjunction `target`: every module that
      lists it as a neighbour, remembered as low. */
  function InputsOf(modules: map<string, Module>, target: string): map<string, bool>
  {
    map src | src in modules && target in modules[src].neighbors :: false
  }

  /** The inputs registered once the modules `names[..i]` have been visited. */
  function InputsSoFar(modules: map<string, Module>, names: seq<string>, i: nat, target: string): map<string, bool>
    requires i <= |names|
  {
    map src | src in names[..i] && src in modules && target in modules[src].neighbors :: false
  }

  lemma InputsStep(modules: map<string, Module>, names: seq<string>, i: nat, target: string)
    requires i < |names| && names[i] in modules
    ensures InputsSoFar(modules, names, i + 1, target) ==
            InputsSoFar(modules, names, i, target) +
            (if target in modules[names[i]].neighbors then map[names[i] := false] else map[])
  {
    assert names[..i + 1] == names[..i] + [names[i]];
  }

  lemma InputsAll(modules: map<string, Module>, names: seq<string>, target: string)
    requires forall n :: n in names <==> n in modules
    ensures InputsSoFar(modules, names, |names|, target) == InputsOf(modules, target)
  {
    assert names[..|names|] == names;
  }

  lemma MapUnionAssoc<K, V>(a: map<K, V>, b: map<K, V>, c: map<K, V>)
    ensures (a + b) + c == a + (b + c)
  {
  }

  /** One step of that loop: `source` registers with `target` when it is a
      conjunction. */
  method RegisterWith(modules: map<string, Module>, source: string, target: string)
    requires Valid(modules)
    modifies Repr(modules)
    ensures forall n :: n in modules ==> modules[n].state == old(modules[n].state)
    ensures forall n :: n in modules && (n != target || modules[n].kind != Conjunction) ==>
              modules[n].memory == old(modules[n].memory)
    ensures target in modules && modules[target].kind == Conjunction ==>
              modules[target].memory == old(modules[target].memory)[source := false]
  {
    if target in modules && modules[target].kind == Conjunction {
      var t := modules[target];
      t.RegisterInput(source, false);
      forall n | n in modules && n != target
        ensures modules[n].memory == old(modules[n].memory)
      {
        assert modules[n] != t;
      }
    }
  }

  /** The inner loop of `read_input`'s registration: `source` registers with every
      conjunction among its neighbours. */
  method RegisterWithNeighbors(modules: map<string, Module>, source: string)
    requires Valid(modules) && source in modules
    modifies Repr(modules)
    ensures forall n :: n in modules ==> modules[n].state == old(modules[n].state)
    ensures forall n :: n in modules && modules[n].kind != Conjunction ==>
              modules[n].memory == old(modules[n].memory)
    ensures forall n :: n in modules && modules[n].kind == Conjunction ==>
              modules[n].memory == old(modules[n].memory) +
                (if n in modules[source].neighbors then map[source := false] else map[])
  {
    var m := modules[source];
    for j := 0 to |m.neighbors|
      invariant forall n :: n in modules ==> modules[n].state == old(modules[n].state)
      invariant forall n :: n in modules && modules[n].kind != Conjunction ==>
                  modules[n].memory == old(modules[n].memory)
      invariant forall n :: n in modules && modules[n].kind == Conjunction ==>
                  modules[n].memory == old(modules[n].memory) +
                    (if n in m.neighbors[..j] then map[source := false] else map[])
    {
      var neighborName := m.neighbors[j];
      ghost var mid := map n | n in modules :: modules[n].memory;
      RegisterWith(modules, m.name, neighborName);
      forall n | n in modules && modules[n].kind == Conjunction
        ensures modules[n].memory == old(modules[n].memory) +
                  (if n in m.neighbors[..j + 1] then map[source := false] else map[])
      {
        RegisterPrefixStep(m.neighbors, j, source, n, old(modules[n].memory), mid[n], modules[n].memory);
      }
    }
    assert m.neighbors[..|m.neighbors|] == m.neighbors;
  }

  /** Registering with the `j`-th neighbour extends the registrations of the first
      `j` neighbours to the first `j + 1`. */
  lemma RegisterPrefixStep(ns: seq<string>, j: nat, source: string, n: string,
                           base: map<string, bool>, before: map<string, bool>, after: map<string, bool>)
    requires j < |ns|
    requires before == base + (if n in ns[..j] then map[source := false] else map[])
    requires after == if n == ns[j] then before[source := false] else before
    ensures after == base + (if n in ns[..j + 1] then map[source := false] else map[])
  {
    assert ns[..j + 1] == ns[..j] + [ns[j]];
  }

  /** The registration loop of `read_input`, visiting the modules in dictionary order
      `names`: every module is registered, as low, with each conjunction it lists as
      a neighbour. */
  method Wire(modules: map<string, Module>, names: seq<string>)
    requires Valid(modules)
    requires forall n :: n in names <==> n in modules
    modifies Repr(modules)
    ensures forall n :: n in modules ==> modules[n].state == old(modules[n].state)
    ensures forall n :: n in modules && modules[n].kind != Conjunction ==>
              modules[n].memory == old(modules[n].memory)
    ensures forall n :: n in modules && modules[n].kind == Conjunction ==>
              modules[n].memory == old(modules[n].memory) + InputsOf(modules, n)
  {
    for i := 0 to |names|
      invariant forall n :: n in modules ==> modules[n].state == old(modules[n].state)
      invariant forall n :: n in modules && modules[n].kind != Conjunction ==>
                  modules[n].memory == old(modules[n].memory)
      invariant forall n :: n in modules && modules[n].kind == Conjunction ==>
                  modules[n].memory == old(modules[n].memory) + InputsSoFar(modules, names, i, n)
    {
      ghost var mid := map n | n in modules :: modules[n].memory;
      RegisterWithNeighbors(modules, names[i]);
      forall n | n in modules && modules[n].kind == Conjunction
        ensures modules[n].memory == old(modules[n].memory) + InputsSoFar(modules, names, i + 1, n)
      {
        var extra := if n in modules[names[i]].neighbors then map[names[i] := false] else map[];
        assert modules[n].memory == mid[n] + extra;
        InputsStep(modules, names, i, n);
        MapUnionAssoc(old(modules[n].memory), InputsSoFar(modules, names, i, n), extra);
      }
    }
    forall n | n in modules
      ensures InputsSoFar(modules, names, |names|, n) == InputsOf(modules, n)
    {
      InputsAll(modules, names, n);
    }
  }

  // ------------------------------------------------------------ the pulse queue

  datatype Outcome = Outcome(snap: Snapshot, low: nat, high: nat)

  /** Draining the queue from the front, within `fuel` deliveries: each pulse is
      counted, then dropped if nobody has its destination's name, else delivered,
      and the pulses sent in reply join the back of the queue. */
  function Drain(snap: Snapshot, queue: seq<Pulse>, low: nat, high: nat, fuel: nat): Result<Outcome>
    decreases fuel
  {
    if queue == [] then Ok(Outcome(snap, low, high))
    else if fuel == 0 then Err(OutOfFuel)
    else
      var p := queue[0];
      var low', high' := if p.high then low else low + 1, if p.high then high + 1 else high;
      if p.dest !in snap then Drain(snap, queue[1..], low', high', fuel - 1)
      else
        var (c, out) := React(snap[p.dest], p.dest, p.src, p.high);
        Drain(snap[p.dest := c], queue[1..] + out, low', high', fuel - 1)
  }

  function LowPulses(queue: seq<Pulse>): nat
  {
    if queue == [] then 0 else (if queue[0].high then 0 else 1) + LowPulses(queue[1..])
  }

  lemma {:induction false} LowPulsesAppend(a: seq<Pulse>, b: seq<Pulse>)
    ensures LowPulses(a + b) == LowPulses(a) + LowPulses(b)
  {
    if a != [] {
      assert (a + b)[1..] == a[1..] + b;
      LowPulsesAppend(a[1..], b);
    } else {
      assert a + b == b;
    }
  }

  /** Every low pulse in the queue is eventually counted, and counts only grow. */
  lemma {:induction false} DrainCountsQueue(snap: Snapshot, queue: seq<Pulse>, low: nat, high: nat, fuel: nat)
    requires Drain(snap, queue, low, high, fuel).Ok?
    ensures Drain(snap, queue, low, high, fuel).value.low >= low + LowPulses(queue)
    ensures Drain(snap, queue, low, high, fuel).value.high >= high
    decreases fuel
  {
    if queue != [] {
      var p := queue[0];
      var low', high' := if p.high then low else low + 1, if p.high then high + 1 else high;
      if p.dest !in snap {
        DrainCountsQueue(snap, queue[1..], low', high', fuel - 1);
      } else {
        var (c, out) := React(snap[p.dest], p.dest, p.src, p.high);
        DrainCountsQueue(snap[p.dest := c], queue[1..] + out, low', high', fuel - 1);
        LowPulsesAppend(queue[1..], out);
      }
    }
  }

  /** One press of the button. */
  function ButtonPulse(): Pulse
  {
    Pulse(ButtonName, BroadcasterName, false)
  }

  /** `n` presses in a row, each draining its own queue with at most `fuel`
      deliveries; the counts carry over. */
  function Presses(snap: Snapshot, n: nat, low: nat, high: nat, fuel: nat): Result<Outcome>
    decreases n
  {
    if n == 0 then Ok(Outcome(snap, low, high))
    else
      match Drain(snap, [ButtonPulse()], low, high, fuel)
      case Err(e) => Err(e)
      case Ok(o) => Presses(o.snap, n - 1, o.low, o.high, fuel)
  }

  /** Each press counts at least its own low pulse to the broadcaster. */
  lemma {:induction false} PressesLow(snap: Snapshot, n: nat, low: nat, high: nat, fuel: nat)
    requires Presses(snap, n, low, high, fuel).Ok?
    ensures Presses(snap, n, low, high, fuel).value.low >= low + n
    decreases n
  {
    if n > 0 {
      var o := Drain(snap, [ButtonPulse()], low, high, fuel).value;
      DrainCountsQueue(snap, [ButtonPulse()], low, high, fuel);
      assert LowPulses([ButtonPulse()]) == 1 by {
        assert [ButtonPulse()][1..] == [];
      }
      PressesLow(o.snap, n - 1, o.low, o.high, fuel);
    }
  }

  /** The answer to the puzzle from the outcome of the presses. */
  function Answer(r: Result<Outcome>): Result<int>
  {
    match r
    case Err(e) => Err(e)
    case Ok(o) => Ok(o.low * o.high)
  }

  /** With 1000 presses the low count is at least 1000, so the answer is a product
      `low * high` with `low >= 1000`. */
  lemma AnswerFactors(snap: Snapshot, fuel: nat)
    requires Answer(Presses(snap, NPresses, 0, 0, fuel)).Ok?
    ensures exists low: nat, high: nat :: low >= NPresses &&
              Answer(Presses(snap, NPresses, 0, 0, fuel)).value == low * high
  {
    var o := Presses(snap, NPresses, 0, 0, fuel).value;
    PressesLow(snap, NPresses, 0, 0, fuel);
    assert o.low >= NPresses && Answer(Presses(snap, NPresses, 0, 0, fuel)).value == o.low * o.high;
  }

  /** The `while` loop of `solve` for one press, starting from `queue`. */
  method DrainQueue(modules: map<string, Module>, queue: seq<Pulse>, low0: nat, high0: nat, fuel0: nat)
    returns (r: Result<(nat, nat)>)
    requires Valid(modules)
    modifies Repr(modules)
    ensures var d := Drain(old(Snap(modules)), queue, low0, high0, fuel0);
            (r.Ok? <==> d.Ok?) && (r.Err? ==> r.fault == d.fault) &&
            (r.Ok? ==> r.value == (d.value.low, d.value.high) && Snap(modules) == d.value.snap)
  {
    var q := queue;
    var low, high, fuel := low0, high0, fuel0;
    while q != []
      invariant Drain(Snap(modules), q, low, high, fuel) == Drain(old(Snap(modules)), queue, low0, high0, fuel0)
      decreases fuel
    {
      if fuel == 0 {
        return Err(OutOfFuel);
      }
      ghost var before := Snap(modules);
      ghost var (q0, low0', high0', fuel0') := (q, low, high, fuel);
      var p := q[0];
      q := q[1..];
      if p.high {
        high := high + 1;
      } else {
        low := low + 1;
      }
      fuel := fuel - 1;
      if p.dest !in modules {
        DrainDropped(before, q0, low0', high0', fuel0');
        continue;
      }
      var out := Deliver(modules, p);
      DrainDelivered(before, q0, low0', high0', fuel0');
      q := q + out;
    }
    return Ok((low, high));
  }

  /** `modules[dest].pulse(src, pulse)`: only the destination module changes. */
  method Deliver(modules: map<string, Module>, p: Pulse) returns (out: seq<Pulse>)
    requires Valid(modules) && p.dest in modules
    modifies Repr(modules)
    ensures var (c, sent) := React(old(Snap(modules))[p.dest], p.dest, p.src, p.high);
            Snap(modules) == old(Snap(modules))[p.dest := c] && out == sent
  {
    ghost var before := Snap(modules);
    var dest := modules[p.dest];
    out := dest.Receive(p.src, p.high);
    assert Snap(modules) == before[p.dest := dest.View()] by {
      forall n | n in modules && n != p.dest
        ensures modules[n].View() == before[n]
      {
        assert modules[n] != dest;
      }
    }
  }

  /** A pulse to a name nobody has is counted and dropped. */
  lemma DrainDropped(snap: Snapshot, queue: seq<Pulse>, low: nat, high: nat, fuel: nat)
    requires queue != [] && fuel > 0 && queue[0].dest !in snap
    ensures Drain(snap, queue, low, high, fuel)
         == Drain(snap, queue[1..], if queue[0].high then low else low + 1,
                  if queue[0].high then high + 1 else high, fuel - 1)
  {
  }

  /** A pulse to a module is counted and delivered; the replies join the back of
      the queue. */
  lemma DrainDelivered(snap: Snapshot, queue: seq<Pulse>, low: nat, high: nat, fuel: nat)
    requires queue != [] && fuel > 0 && queue[0].dest in snap
    ensures var p := queue[0];
            var (c, out) := React(snap[p.dest], p.dest, p.src, p.high);
            Drain(snap, queue, low, high, fuel) ==
              Drain(snap[p.dest := c], queue[1..] + out, if p.high then low else low + 1,
                    if p.high then high + 1 else high, fuel - 1)
  {
  }

  /** `solve`: press the button 1000 times, then multiply the two counts. */
  method Solve(modules: map<string, Module>, fuel: nat) returns (r: Result<int>)
    requires Valid(modules)
    modifies Repr(modules)
    ensures r == Answer(Presses(old(Snap(modules)), NPresses, 0, 0, fuel))
  {
    var low, high := 0, 0;
    for press := 0 to NPresses
      invariant Presses(Snap(modules), NPresses - press, low, high, fuel) ==
                Presses(old(Snap(modules)), NPresses, 0, 0, fuel)
    {
      var d := DrainQueue(modules, [ButtonPulse()], low, high, fuel);
      if d.Err? {
        return Err(d.fault);
      }
      low, high := d.value.0, d.value.1;
    }
    return Ok(low * high);
  }
}

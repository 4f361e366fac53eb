/** The net, edge and layer part of `top_level_diagram`. */
module Diagram {
  import opened Basics
  import opened Digraph
  import opened FeedbackEdges
  import opened Layering
  import opened Columns

  datatype Direction = Input | Output | Inout
  datatype Port = Port(name: string, dir: Direction)
  /** `conns` are the (port, net) pairs wired at the instance. */
  datatype Instance = Instance(name: string, child: string, conns: seq<(string, string)>)

  /** What is drawn, and which names count as nets and as clock or reset: the two regular
      expressions of the source are left as arbitrary predicates. */
  datatype Design = Design(ports: seq<Port>, instances: seq<Instance>, modules: map<string, seq<Port>>,
                           isName: string -> bool, isControl: string -> bool)

  function PadId(name: string): Node { "pad_" + name }

  function InstId(name: string): Node { "inst_" + name }

  /** The direction a module declares for `port`; a later declaration of the same name wins. */
  function DirectionOf(ports: seq<Port>, port: string): Option<Direction> {
    if ports == [] then None
    else
      var last := ports[|ports| - 1];
      if last.name == port then Some(last.dir) else DirectionOf(ports[..|ports| - 1], port)
  }

  function ConnDirection(d: Design, i: Instance, conn: (string, string)): Option<Direction> {
    if !d.isName(conn.1) || d.isControl(conn.0) || d.isControl(conn.1) then None
    else DirectionOf(if i.child in d.modules then d.modules[i.child] else [], conn.0)
  }

  // ----- Who drives and who reads a net, said without any loop

  ghost predicate PadOf(d: Design, n: Node, net: string, dir: Direction) {
    exists p :: p in d.ports && p.name == net && p.dir == dir && !d.isControl(net) && n == PadId(net)
  }

  /** Declaration `k` is the last of `port`, with direction `dir`. */
  ghost predicate DeclaredAt(ports: seq<Port>, port: string, dir: Direction, k: int) {
    0 <= k < |ports| && ports[k] == Port(port, dir) && forall j :: k < j < |ports| ==> ports[j].name != port
  }

  ghost predicate Declares(ports: seq<Port>, port: string, dir: Direction) {
    exists k :: DeclaredAt(ports, port, dir, k)
  }

  /** The connection joins a port of direction `dir` to a named net, neither of them clock or reset. */
  ghost predicate Wires(d: Design, i: Instance, conn: (string, string), dir: Direction) {
    && d.isName(conn.1) && !d.isControl(conn.0) && !d.isControl(conn.1)
    && i.child in d.modules && Declares(d.modules[i.child], conn.0, dir)
  }

  lemma DeclaredBefore(front: seq<Port>, last: Port, port: string, dir: Direction, k: int)
    requires last.name != port
    ensures DeclaredAt(front + [last], port, dir, k) <==> DeclaredAt(front, port, dir, k)
  {
    var ports := front + [last];
    assert ports[|front|] == last && forall j :: 0 <= j < |front| ==> ports[j] == front[j];
    if DeclaredAt(ports, port, dir, k) {
      forall j | k < j < |front| ensures front[j].name != port {
        assert ports[j].name != port;
      }
    }
  }

  lemma DeclaredLast(front: seq<Port>, last: Port, dir: Direction)
    ensures Declares(front + [last], last.name, dir) <==> dir == last.dir
  {
    var ports := front + [last];
    assert ports[|front|] == last;
    assert DeclaredAt(ports, last.name, last.dir, |front|);
  }

  lemma {:induction false} DirectionIs(ports: seq<Port>, port: string, dir: Direction)
    ensures Declares(ports, port, dir) <==> DirectionOf(ports, port) == Some(dir)
  {
    if ports != [] {
      var front, last := ports[..|ports| - 1], ports[|ports| - 1];
      assert ports == front + [last];
      if last.name == port {
        DeclaredLast(front, last, dir);
      } else {
        hide DeclaredAt;
        DirectionIs(front, port, dir);
        forall k ensures DeclaredAt(ports, port, dir, k) <==> DeclaredAt(front, port, dir, k) {
          DeclaredBefore(front, last, port, dir, k);
        }
      }
    }
  }

  lemma WiresAre(d: Design)
    ensures forall i, c, dir :: Wires(d, i, c, dir) <==> ConnDirection(d, i, c) == Some(dir)
  {
    hide Declares, DirectionOf;
    forall i: Instance, c, dir ensures Wires(d, i, c, dir) <==> ConnDirection(d, i, c) == Some(dir) {
      if i.child in d.modules {
        DirectionIs(d.modules[i.child], c.0, dir);
      } else {
        NoDirection(c.0);
      }
    }
  }

  lemma NoDirection(port: string)
    ensures DirectionOf([], port) == None
  {
  }

  ghost predicate InstOf(d: Design, n: Node, net: string, dir: Direction) {
    exists i, c :: i in d.instances && c in i.conns && c.1 == net && n == InstId(i.name) && Wires(d, i, c, dir)
  }

  /** A block drives a net when it is the input pin of that name or an instance whose output is wired to it. */
  ghost predicate Drives(d: Design, n: Node, net: string) {
    PadOf(d, n, net, Input) || InstOf(d, n, net, Output)
  }

  ghost predicate Reads(d: Design, n: Node, net: string) {
    PadOf(d, n, net, Output) || InstOf(d, n, net, Input)
  }

  /** Instance `k` has an output wired to `net`. */
  ghost predicate Outputs(d: Design, k: nat, net: string)
    requires k < |d.instances|
  {
    exists c :: c in d.instances[k].conns && c.1 == net && Wires(d, d.instances[k], c, Output)
  }

  /** Of the blocks that drive `net`, `n` is the one its arrows leave from: the input pin of that
      name, or where there is none, the first instance. */
  ghost predicate Feeds(d: Design, n: Node, net: string) {
    PadOf(d, n, net, Input) ||
    ((forall m :: !PadOf(d, m, net, Input)) &&
     exists k :: 0 <= k < |d.instances| && n == InstId(d.instances[k].name) && FirstOutput(d, k, net))
  }

  ghost predicate FirstOutput(d: Design, k: nat, net: string)
    requires k < |d.instances|
  {
    Outputs(d, k, net) && forall j :: 0 <= j < k ==> !Outputs(d, j, net)
  }

  lemma FeederDrives(d: Design, n: Node, net: string)
    requires Feeds(d, n, net)
    ensures Drives(d, n, net)
  {
    if !PadOf(d, n, net, Input) {
      var k :| 0 <= k < |d.instances| && n == InstId(d.instances[k].name) && FirstOutput(d, k, net);
      var c :| c in d.instances[k].conns && c.1 == net && Wires(d, d.instances[k], c, Output);
      assert d.instances[k] in d.instances;
      assert InstOf(d, n, net, Output);
    }
  }

  lemma FeederIsUnique(d: Design, m: Node, n: Node, net: string)
    requires Feeds(d, m, net) && Feeds(d, n, net)
    ensures m == n
  {
    hide Outputs;
    if !PadOf(d, m, net, Input) && !PadOf(d, n, net, Input) {
      var j :| 0 <= j < |d.instances| && m == InstId(d.instances[j].name) && FirstOutput(d, j, net);
      var k :| 0 <= k < |d.instances| && n == InstId(d.instances[k].name) && FirstOutput(d, k, net);
      assert j == k;
    }
  }

  /** The working dictionaries of the source: the first driver of each net in the order the
      drivers were met, and the readers of each net. */
  datatype Nets = Nets(producers: seq<(string, Node)>, consumers: map<string, seq<Node>>)

  predicate HasProducer(nets: Nets, net: string) {
    exists k :: 0 <= k < |nets.producers| && nets.producers[k].0 == net
  }

  function Readers(nets: Nets, net: string): seq<Node> {
    if net in nets.consumers then nets.consumers[net] else []
  }

  function AddProducer(nets: Nets, net: string, n: Node): Nets {
    if HasProducer(nets, net) then nets else nets.(producers := nets.producers + [(net, n)])
  }

  function AddConsumer(nets: Nets, net: string, n: Node): Nets {
    nets.(consumers := nets.consumers[net := Readers(nets, net) + [n]])
  }

  /** One producer per net, the block that feeds it; every recorded reader reads it. */
  ghost predicate Sound(d: Design, nets: Nets) {
    && (forall k :: 0 <= k < |nets.producers| ==> Feeds(d, nets.producers[k].1, nets.producers[k].0))
    && (forall j, k :: 0 <= j < k < |nets.producers| ==> nets.producers[j].0 != nets.producers[k].0)
    && (forall net, n :: n in Readers(nets, net) ==> Reads(d, n, net))
  }

  ghost predicate PortDone(d: Design, nets: Nets, p: Port) {
    !d.isControl(p.name) ==>
      (p.dir == Input ==> HasProducer(nets, p.name)) && (p.dir == Output ==> PadId(p.name) in Readers(nets, p.name))
  }

  ghost predicate ConnDone(d: Design, nets: Nets, i: Instance, c: (string, string)) {
    && (Wires(d, i, c, Output) ==> HasProducer(nets, c.1))
    && (Wires(d, i, c, Input) ==> InstId(i.name) in Readers(nets, c.1))
  }

  /** Nothing recorded is forgotten. */
  ghost predicate Grows(before: Nets, after: Nets) {
    && (forall net :: HasProducer(before, net) ==> HasProducer(after, net))
    && (forall net, n :: n in Readers(before, net) ==> n in Readers(after, net))
  }

  lemma AddProducerGrows(d: Design, nets: Nets, net: string, n: Node)
    requires Sound(d, nets) && (HasProducer(nets, net) || Feeds(d, n, net))
    ensures var after := AddProducer(nets, net, n);
            Sound(d, after) && Grows(nets, after) && HasProducer(after, net)
  {
    hide Feeds, Reads;
    var after := AddProducer(nets, net, n);
    if after != nets {
      assert after.producers[|nets.producers|] == (net, n);
      forall m | HasProducer(nets, m) ensures HasProducer(after, m) {
        var k :| 0 <= k < |nets.producers| && nets.producers[k].0 == m;
        assert after.producers[k].0 == m;
      }
      assert forall m :: Readers(after, m) == Readers(nets, m);
    }
  }

  lemma AddConsumerGrows(d: Design, nets: Nets, net: string, n: Node)
    requires Sound(d, nets) && Reads(d, n, net)
    ensures var after := AddConsumer(nets, net, n);
            Sound(d, after) && Grows(nets, after) && n in Readers(after, net)
  {
    var after := AddConsumer(nets, net, n);
    assert forall m :: Readers(after, m) == if m == net then Readers(nets, m) + [n] else Readers(nets, m);
    assert forall m :: HasProducer(after, m) == HasProducer(nets, m);
  }

  /** Both dictionaries agree with who drives and who reads each net. */
  ghost predicate Wired(d: Design, nets: Nets) {
    && Sound(d, nets)
    && (forall p :: p in d.ports ==> PortDone(d, nets, p))
    && (forall i, c :: i in d.instances && c in i.conns ==> ConnDone(d, nets, i, c))
  }

  /** A net has a recorded producer exactly when something drives it; its readers are exactly the blocks that
      read it. */
  lemma WiredMeans(d: Design, nets: Nets, net: string, n: Node)
    requires Wired(d, nets)
    ensures HasProducer(nets, net) <==> exists m :: Drives(d, m, net)
    ensures HasProducer(nets, net) <==> exists m :: Feeds(d, m, net)
    ensures n in Readers(nets, net) <==> Reads(d, n, net)
  {
    if HasProducer(nets, net) {
      var k :| 0 <= k < |nets.producers| && nets.producers[k].0 == net;
      assert Feeds(d, nets.producers[k].1, net);
      FeederDrives(d, nets.producers[k].1, net);
    }
    if m :| Feeds(d, m, net) {
      FeederDrives(d, m, net);
    }
  }

  /** The pins and the instances before `j` are in: an output of instance `j` that finds no producer feeds its net. */
  ghost predicate NothingEarlier(d: Design, j: nat, nets: Nets)
    requires j < |d.instances|
  {
    forall net :: Outputs(d, j, net) && !HasProducer(nets, net) ==> Feeds(d, InstId(d.instances[j].name), net)
  }

  lemma EarlierIsDone(d: Design, j: nat, nets: Nets)
    requires j < |d.instances| && forall p :: p in d.ports ==> PortDone(d, nets, p)
    requires forall i, c :: i in d.instances[..j] && c in i.conns ==> ConnDone(d, nets, i, c)
    ensures NothingEarlier(d, j, nets)
  {
    hide HasProducer, Wires;
    forall net | Outputs(d, j, net) && !HasProducer(nets, net) ensures Feeds(d, InstId(d.instances[j].name), net) {
      forall m ensures !PadOf(d, m, net, Input) {
      }
      forall k | 0 <= k < j ensures !Outputs(d, k, net) {
        assert d.instances[k] in d.instances[..j];
      }
      assert FirstOutput(d, j, net);
    }
  }

  method AddPads(d: Design) returns (nodes: seq<(Node, bool)>, nets: Nets, sources: seq<Node>, sinks: seq<Node>)
    ensures Sound(d, nets) && forall p :: p in d.ports ==> PortDone(d, nets, p)
    ensures sources == PadIds(d, |d.ports|, Input) && sinks == PadIds(d, |d.ports|, Output)
    ensures forall n :: n in sources <==> Pin(d, n, Input)
    ensures forall n :: n in sinks <==> Pin(d, n, Output)
    ensures forall n :: (n, false) in nodes <==> n in sources || n in sinks
    ensures forall node :: node in nodes ==> !node.1
  {
    hide Sound, PortDone, Grows, HasProducer, AddProducer, AddConsumer, PadsOk, Pin;
    nodes, sources, sinks := [], [], [];
    NoPads(d);
    nets := Nets([], map[]);
    NothingWired(d);
    for i := 0 to |d.ports|
      invariant Sound(d, nets)
      invariant forall k :: 0 <= k < i ==> PortDone(d, nets, d.ports[k])
      invariant PadsOk(d, i, nodes, sources, sinks)
    {
      var port := d.ports[i];
      var id := PadId(port.name);
      if d.isControl(port.name) {
        NeitherDone(d, nets, port);
        PadSkipped(d, i, nodes, sources, sinks);
        continue;
      }
      if port.dir == Input {
        SourceAdded(d, i, nodes, sources, sinks);
        nodes := nodes + [(id, false)];
        sources := sources + [id];
        assert Feeds(d, id, port.name);
        AddProducerGrows(d, nets, port.name, id);
        InputDone(d, AddProducer(nets, port.name, id), port);
        StillDone(d, nets, AddProducer(nets, port.name, id), i);
        nets := AddProducer(nets, port.name, id);
      } else if port.dir == Output {
        SinkAdded(d, i, nodes, sources, sinks);
        nodes := nodes + [(id, false)];
        sinks := sinks + [id];
        assert Reads(d, id, port.name);
        AddConsumerGrows(d, nets, port.name, id);
        OutputDone(d, AddConsumer(nets, port.name, id), port);
        StillDone(d, nets, AddConsumer(nets, port.name, id), i);
        nets := AddConsumer(nets, port.name, id);
      } else {
        NeitherDone(d, nets, port);
        PadSkipped(d, i, nodes, sources, sinks);
      }
    }
    PadsArePins(d, nodes, sources, sinks);
  }

  lemma NothingWired(d: Design)
    ensures Sound(d, Nets([], map[]))
  {
  }

  lemma NeitherDone(d: Design, nets: Nets, p: Port)
    requires d.isControl(p.name) || p.dir == Inout
    ensures PortDone(d, nets, p)
  {
  }

  lemma InputDone(d: Design, nets: Nets, p: Port)
    requires p.dir == Input && HasProducer(nets, p.name)
    ensures PortDone(d, nets, p)
  {
  }

  lemma OutputDone(d: Design, nets: Nets, p: Port)
    requires p.dir == Output && PadId(p.name) in Readers(nets, p.name)
    ensures PortDone(d, nets, p)
  {
  }

  lemma StillDone(d: Design, before: Nets, after: Nets, i: nat)
    requires Grows(before, after) && i <= |d.ports| && forall k :: 0 <= k < i ==> PortDone(d, before, d.ports[k])
    ensures forall k :: 0 <= k < i ==> PortDone(d, after, d.ports[k])
  {
    hide Grows, PortDone;
    forall k | 0 <= k < i ensures PortDone(d, after, d.ports[k]) {
      PortStaysDone(d, before, after, d.ports[k]);
    }
  }

  ghost predicate IsPad(d: Design, bound: int, n: Node, dir: Direction)
    requires bound <= |d.ports|
  {
    exists k :: 0 <= k < bound && d.ports[k].dir == dir && !d.isControl(d.ports[k].name) && n == PadId(d.ports[k].name)
  }

  /** The blocks of the first `i` ports of a direction, clocks and resets left out, in order. */
  function PadIds(d: Design, i: nat, dir: Direction): seq<Node>
    requires i <= |d.ports|
  {
    if i == 0 then []
    else
      var port := d.ports[i - 1];
      PadIds(d, i - 1, dir) + if port.dir == dir && !d.isControl(port.name) then [PadId(port.name)] else []
  }

  /** Port `j` is one of them. */
  predicate Counts(d: Design, j: nat, dir: Direction) {
    j < |d.ports| && d.ports[j].dir == dir && !d.isControl(d.ports[j].name)
  }

  lemma {:induction false} PadIdsHold(d: Design, i: nat, j: nat, dir: Direction) returns (a: nat)
    requires j < i <= |d.ports| && Counts(d, j, dir)
    ensures a < |PadIds(d, i, dir)| && PadIds(d, i, dir)[a] == PadId(d.ports[j].name)
    ensures a == |PadIds(d, j, dir)|
  {
    if j == i - 1 {
      a := |PadIds(d, j, dir)|;
    } else {
      a := PadIdsHold(d, i - 1, j, dir);
    }
  }

  lemma {:induction false} PadIdsGrow(d: Design, i: nat, j: nat, dir: Direction)
    requires i <= j <= |d.ports|
    ensures |PadIds(d, i, dir)| <= |PadIds(d, j, dir)|
  {
    if i < j {
      PadIdsGrow(d, i, j - 1, dir);
    }
  }

  /** They come in the order of the ports. */
  lemma PadIdsInOrder(d: Design, j: nat, k: nat, dir: Direction) returns (a: nat, b: nat)
    requires j < k && Counts(d, j, dir) && Counts(d, k, dir)
    ensures var ids := PadIds(d, |d.ports|, dir);
            a < b < |ids| && ids[a] == PadId(d.ports[j].name) && ids[b] == PadId(d.ports[k].name)
  {
    a := PadIdsHold(d, |d.ports|, j, dir);
    b := PadIdsHold(d, |d.ports|, k, dir);
    PadIdsGrow(d, j + 1, k, dir);
  }

  lemma {:induction false} PadIdsFrom(d: Design, i: nat, a: nat, dir: Direction) returns (j: nat)
    requires i <= |d.ports| && a < |PadIds(d, i, dir)|
    ensures j < i && Counts(d, j, dir) && PadIds(d, i, dir)[a] == PadId(d.ports[j].name) && a == |PadIds(d, j, dir)|
  {
    if a < |PadIds(d, i - 1, dir)| {
      j := PadIdsFrom(d, i - 1, a, dir);
    } else {
      j := i - 1;
    }
  }

  /** Ports with different names give different blocks. */
  lemma PadIdsDiffer(d: Design, a: nat, b: nat, dir: Direction)
    requires DistinctPorts(d) && a < b < |PadIds(d, |d.ports|, dir)|
    ensures PadIds(d, |d.ports|, dir)[a] != PadIds(d, |d.ports|, dir)[b]
  {
    var j := PadIdsFrom(d, |d.ports|, a, dir);
    var k := PadIdsFrom(d, |d.ports|, b, dir);
    PadsAndInstancesDiffer(d.ports[j].name, d.ports[k].name);
    assert j != k;
    assert d.ports[j].name != d.ports[k].name;
  }

  /** What the first `i` ports give. */
  ghost predicate PadsOk(d: Design, i: nat, nodes: seq<(Node, bool)>, sources: seq<Node>, sinks: seq<Node>) {
    && i <= |d.ports|
    && sources == PadIds(d, i, Input) && sinks == PadIds(d, i, Output)
    && (forall n :: n in sources <==> IsPad(d, i, n, Input))
    && (forall n :: n in sinks <==> IsPad(d, i, n, Output))
    && (forall n :: (n, false) in nodes <==> n in sources || n in sinks)
    && (forall node :: node in nodes ==> !node.1)
  }

  lemma NoPads(d: Design)
    ensures PadsOk(d, 0, [], [], [])
  {
  }

  /** One port more: it is the new block, if it counts. */
  lemma IsPadGrows(d: Design, i: nat, n: Node, dir: Direction)
    requires i < |d.ports|
    ensures IsPad(d, i + 1, n, dir) <==>
              (IsPad(d, i, n, dir) ||
               (d.ports[i].dir == dir && !d.isControl(d.ports[i].name) && n == PadId(d.ports[i].name)))
  {
  }

  lemma PadSkipped(d: Design, i: nat, nodes: seq<(Node, bool)>, sources: seq<Node>, sinks: seq<Node>)
    requires PadsOk(d, i, nodes, sources, sinks) && i < |d.ports|
    requires d.isControl(d.ports[i].name) || d.ports[i].dir == Inout
    ensures PadsOk(d, i + 1, nodes, sources, sinks)
  {
    hide IsPad;
    forall n ensures IsPad(d, i + 1, n, Input) <==> IsPad(d, i, n, Input) { IsPadGrows(d, i, n, Input); }
    forall n ensures IsPad(d, i + 1, n, Output) <==> IsPad(d, i, n, Output) { IsPadGrows(d, i, n, Output); }
  }

  lemma SourceAdded(d: Design, i: nat, nodes: seq<(Node, bool)>, sources: seq<Node>, sinks: seq<Node>)
    requires PadsOk(d, i, nodes, sources, sinks) && i < |d.ports|
    requires !d.isControl(d.ports[i].name) && d.ports[i].dir == Input
    ensures var id := PadId(d.ports[i].name); PadsOk(d, i + 1, nodes + [(id, false)], sources + [id], sinks)
  {
    hide IsPad, PadId;
    var id := PadId(d.ports[i].name);
    forall n ensures IsPad(d, i + 1, n, Input) <==> IsPad(d, i, n, Input) || n == id { IsPadGrows(d, i, n, Input); }
    forall n ensures IsPad(d, i + 1, n, Output) <==> IsPad(d, i, n, Output) { IsPadGrows(d, i, n, Output); }
  }

  lemma SinkAdded(d: Design, i: nat, nodes: seq<(Node, bool)>, sources: seq<Node>, sinks: seq<Node>)
    requires PadsOk(d, i, nodes, sources, sinks) && i < |d.ports|
    requires !d.isControl(d.ports[i].name) && d.ports[i].dir == Output
    ensures var id := PadId(d.ports[i].name); PadsOk(d, i + 1, nodes + [(id, false)], sources, sinks + [id])
  {
    hide IsPad, PadId;
    var id := PadId(d.ports[i].name);
    forall n ensures IsPad(d, i + 1, n, Output) <==> IsPad(d, i, n, Output) || n == id { IsPadGrows(d, i, n, Output); }
    forall n ensures IsPad(d, i + 1, n, Input) <==> IsPad(d, i, n, Input) { IsPadGrows(d, i, n, Input); }
  }

  lemma PadsArePins(d: Design, nodes: seq<(Node, bool)>, sources: seq<Node>, sinks: seq<Node>)
    requires PadsOk(d, |d.ports|, nodes, sources, sinks)
    ensures sources == PadIds(d, |d.ports|, Input) && sinks == PadIds(d, |d.ports|, Output)
    ensures forall n :: n in sources <==> Pin(d, n, Input)
    ensures forall n :: n in sinks <==> Pin(d, n, Output)
    ensures forall n :: (n, false) in nodes <==> n in sources || n in sinks
    ensures forall node :: node in nodes ==> !node.1
  {
  }

  /** Wires one connection of instance `i` into the dictionaries. */
  method AddConn(d: Design, ghost j: nat, i: Instance, c: (string, string), before: Nets) returns (nets: Nets)
    requires j < |d.instances| && i == d.instances[j] && c in i.conns
    requires Sound(d, before) && NothingEarlier(d, j, before)
    ensures Sound(d, nets) && Grows(before, nets) && ConnDone(d, nets, i, c)
  {
    hide Feeds, Sound, Grows, Wires, ConnDirection;
    WiresAre(d);
    nets := before;
    var direction := ConnDirection(d, i, c);
    NothingChanges(nets);
    if direction == Some(Output) {
      assert Outputs(d, j, c.1);
      AddProducerGrows(d, nets, c.1, InstId(i.name));
      nets := AddProducer(nets, c.1, InstId(i.name));
    } else if direction == Some(Input) {
      AddConsumerGrows(d, nets, c.1, InstId(i.name));
      nets := AddConsumer(nets, c.1, InstId(i.name));
    }
  }

  lemma NothingChanges(nets: Nets)
    ensures Grows(nets, nets)
  {
  }

  method AddInstances(d: Design, pads: seq<(Node, bool)>, start: Nets) returns (nodes: seq<(Node, bool)>, nets: Nets)
    requires Sound(d, start) && forall p :: p in d.ports ==> PortDone(d, start, p)
    requires forall node :: node in pads ==> !node.1
    ensures Wired(d, nets)
    ensures |nodes| == |pads| + |d.instances| && nodes[..|pads|] == pads
    ensures forall k :: 0 <= k < |d.instances| ==> nodes[|pads| + k] == (InstId(d.instances[k].name), true)
  {
    hide Sound, PortDone, ConnDone, NothingEarlier;
    nodes, nets := pads, start;
    for j := 0 to |d.instances|
      invariant Sound(d, nets) && Grows(start, nets)
      invariant forall i, c :: i in d.instances[..j] && c in i.conns ==> ConnDone(d, nets, i, c)
      invariant |nodes| == |pads| + j && nodes[..|pads|] == pads
      invariant forall k :: 0 <= k < j ==> nodes[|pads| + k] == (InstId(d.instances[k].name), true)
    {
      var i := d.instances[j];
      nodes := nodes + [(InstId(i.name), true)];
      ghost var before := nets;
      forall p | p in d.ports ensures PortDone(d, nets, p) {
        PortStaysDone(d, start, nets, p);
      }
      EarlierIsDone(d, j, nets);
      for k := 0 to |i.conns|
        invariant Sound(d, nets) && Grows(before, nets) && NothingEarlier(d, j, nets)
        invariant forall c :: c in i.conns[..k] ==> ConnDone(d, nets, i, c)
      {
        ghost var earlier := nets;
        nets := AddConn(d, j, i, i.conns[k], nets);
        StillNothingEarlier(d, j, earlier, nets);
        forall c | c in i.conns[..k] ensures ConnDone(d, nets, i, c) {
          ConnStaysDone(d, earlier, nets, i, c);
        }
      }
      forall i', c | i' in d.instances[..j] && c in i'.conns ensures ConnDone(d, nets, i', c) {
        ConnStaysDone(d, before, nets, i', c);
      }
      GrowsOn(start, before, nets);
    }
    forall p | p in d.ports ensures PortDone(d, nets, p) {
      PortStaysDone(d, start, nets, p);
    }
    assert d.instances[..|d.instances|] == d.instances;
  }

  lemma StillNothingEarlier(d: Design, j: nat, before: Nets, after: Nets)
    requires j < |d.instances| && Grows(before, after) && NothingEarlier(d, j, before)
    ensures NothingEarlier(d, j, after)
  {
  }

  lemma ConnStaysDone(d: Design, before: Nets, after: Nets, i: Instance, c: (string, string))
    requires Grows(before, after) && ConnDone(d, before, i, c)
    ensures ConnDone(d, after, i, c)
  {
  }

  lemma PortStaysDone(d: Design, before: Nets, after: Nets, p: Port)
    requires Grows(before, after) && PortDone(d, before, p)
    ensures PortDone(d, after, p)
  {
  }

  lemma GrowsOn(a: Nets, b: Nets, c: Nets)
    requires Grows(a, b) && Grows(b, c)
    ensures Grows(a, c)
  {
  }

  // ----- One arrow per pair of blocks

  /** Net `net` is to be drawn from block `s` to block `t`. */
  ghost predicate Carries(ids: set<Node>, nets: Nets, s: Node, t: Node, net: string) {
    s != t && s in ids && t in ids && (net, s) in nets.producers && t in Readers(nets, net)
  }

  /** The nets carried between each pair of blocks, and the order in which the pairs were met. */
  datatype Pairs = Pairs(order: seq<(Node, Node)>, carried: map<(Node, Node), seq<string>>)

  ghost predicate PairsOk(ids: set<Node>, nets: Nets, p: Pairs) {
    && (forall j, k :: 0 <= j < k < |p.order| ==> p.order[j] != p.order[k])
    && (forall pair :: pair in p.order <==> pair in p.carried)
    && (forall pair :: pair in p.carried ==> p.carried[pair] != [] && Distinct(p.carried[pair]))
    && (forall pair, net :: pair in p.carried && net in p.carried[pair] ==> Carries(ids, nets, pair.0, pair.1, net))
  }

  function CarriedOn(p: Pairs, pair: (Node, Node)): seq<string> {
    if pair in p.carried then p.carried[pair] else []
  }

  /** `pair_nets.setdefault(pair, [])`, then the net unless it is already carried. */
  function AddNet(p: Pairs, pair: (Node, Node), net: string): Pairs {
    var nets := CarriedOn(p, pair);
    Pairs(if pair in p.carried then p.order else p.order + [pair],
          p.carried[pair := if net in nets then nets else nets + [net]])
  }

  lemma AddNetKeeps(ids: set<Node>, nets: Nets, p: Pairs, pair: (Node, Node), net: string)
    requires PairsOk(ids, nets, p) && Carries(ids, nets, pair.0, pair.1, net)
    ensures PairsOk(ids, nets, AddNet(p, pair, net)) && PairsGrow(p, AddNet(p, pair, net))
    ensures net in CarriedOn(AddNet(p, pair, net), pair)
  {
    hide Carries, Distinct;
    AddNetOrder(p, pair, net);
    DistinctMore(CarriedOn(p, pair), net);
    var q := AddNet(p, pair, net);
    forall other, more | other in q.carried && more in q.carried[other]
      ensures Carries(ids, nets, other.0, other.1, more)
    {
      assert other != pair ==> q.carried[other] == p.carried[other];
    }
  }

  lemma DistinctMore(s: seq<string>, x: string)
    ensures Distinct([]) && (Distinct(s) && x !in s ==> Distinct(s + [x]))
  {
  }

  lemma AddNetOrder(p: Pairs, pair: (Node, Node), net: string)
    requires forall j, k :: 0 <= j < k < |p.order| ==> p.order[j] != p.order[k]
    requires forall pair :: pair in p.order <==> pair in p.carried
    ensures var q := AddNet(p, pair, net);
            && (forall j, k :: 0 <= j < k < |q.order| ==> q.order[j] != q.order[k])
            && (forall pair :: pair in q.order <==> pair in q.carried)
  {
  }

  ghost predicate PairsGrow(before: Pairs, after: Pairs) {
    forall pair, net :: net in CarriedOn(before, pair) ==> net in CarriedOn(after, pair)
  }

  /** Producer `k` has been connected to its first `bound` readers. */
  ghost predicate Connected(ids: set<Node>, nets: Nets, p: Pairs, k: nat, bound: nat)
    requires k < |nets.producers|
  {
    var (net, s) := nets.producers[k];
    bound <= |Readers(nets, net)| &&
    forall t :: t in Readers(nets, net)[..bound] && Carries(ids, nets, s, t, net) ==> net in CarriedOn(p, (s, t))
  }

  lemma StaysConnected(ids: set<Node>, nets: Nets, before: Pairs, after: Pairs, k: nat, bound: nat)
    requires k < |nets.producers| && Connected(ids, nets, before, k, bound) && PairsGrow(before, after)
    ensures Connected(ids, nets, after, k, bound)
  {
  }

  /** The arrows: one per pair of blocks, carrying exactly the nets driven by the one and read by the other. */
  ghost predicate Arrows(ids: set<Node>, nets: Nets, edges: seq<Edge>) {
    && (forall e :: e in edges ==>
          e.nets != [] && Distinct(e.nets) && forall net :: net in e.nets ==> Carries(ids, nets, e.src, e.dst, net))
    && OneArrowPerPair(edges)
    && (forall s, t, net :: Carries(ids, nets, s, t, net) ==>
          exists e :: e in edges && e.src == s && e.dst == t && net in e.nets)
  }

  ghost predicate OneArrowPerPair(edges: seq<Edge>) {
    forall j, k :: 0 <= j < k < |edges| ==> edges[j].src != edges[k].src || edges[j].dst != edges[k].dst
  }

  method ConnectReaders(ids: set<Node>, nets: Nets, k: nat, before: Pairs) returns (p: Pairs)
    requires PairsOk(ids, nets, before) && k < |nets.producers|
    ensures PairsOk(ids, nets, p) && PairsGrow(before, p)
    ensures Connected(ids, nets, p, k, |Readers(nets, nets.producers[k].0)|)
  {
    p := before;
    var (net, src) := nets.producers[k];
    var readers := Readers(nets, net);
    for r := 0 to |readers|
      invariant PairsOk(ids, nets, p) && PairsGrow(before, p) && Connected(ids, nets, p, k, r)
    {
      var dst := readers[r];
      assert readers[..r + 1] == readers[..r] + [dst];
      if src == dst || src !in ids || dst !in ids {
        continue;
      }
      assert nets.producers[k] in nets.producers;
      AddNetKeeps(ids, nets, p, (src, dst), net);
      StaysConnected(ids, nets, p, AddNet(p, (src, dst), net), k, r);
      p := AddNet(p, (src, dst), net);
    }
  }

  method DrawArrows(ids: set<Node>, nets: Nets) returns (edges: seq<Edge>)
    ensures Arrows(ids, nets, edges)
  {
    hide PairsOk, Connected, PairsGrow;
    var p := Pairs([], map[]);
    NoPairs(ids, nets);
    for k := 0 to |nets.producers|
      invariant PairsOk(ids, nets, p)
      invariant forall j :: 0 <= j < k ==> Connected(ids, nets, p, j, |Readers(nets, nets.producers[j].0)|)
    {
      var before := p;
      p := ConnectReaders(ids, nets, k, p);
      forall j | 0 <= j < k ensures Connected(ids, nets, p, j, |Readers(nets, nets.producers[j].0)|) {
        StaysConnected(ids, nets, before, p, j, |Readers(nets, nets.producers[j].0)|);
      }
    }
    edges := EdgesOf(p);
    PairsAreArrows(ids, nets, p);
  }

  lemma NoPairs(ids: set<Node>, nets: Nets)
    ensures PairsOk(ids, nets, Pairs([], map[]))
  {
  }

  function EdgesOf(p: Pairs): seq<Edge> {
    seq(|p.order|, k requires 0 <= k < |p.order| => Edge(p.order[k].0, p.order[k].1, CarriedOn(p, p.order[k])))
  }

  lemma PairsAreArrows(ids: set<Node>, nets: Nets, p: Pairs)
    requires PairsOk(ids, nets, p)
    requires forall j :: 0 <= j < |nets.producers| ==> Connected(ids, nets, p, j, |Readers(nets, nets.producers[j].0)|)
    ensures Arrows(ids, nets, EdgesOf(p))
  {
    var edges := EdgesOf(p);
    forall e | e in edges
      ensures e.nets != [] && Distinct(e.nets)
      ensures forall net :: net in e.nets ==> Carries(ids, nets, e.src, e.dst, net)
    {
      var k :| 0 <= k < |edges| && edges[k] == e;
      assert p.order[k] in p.carried;
    }
    forall s, t, net | Carries(ids, nets, s, t, net)
      ensures exists e :: e in edges && e.src == s && e.dst == t && net in e.nets
    {
      var j :| 0 <= j < |nets.producers| && nets.producers[j] == (net, s);
      assert Connected(ids, nets, p, j, |Readers(nets, net)|);
      assert Readers(nets, net)[..|Readers(nets, net)|] == Readers(nets, net);
      var k :| 0 <= k < |p.order| && p.order[k] == (s, t);
      assert edges[k] in edges;
    }
  }

  // ----- Columns for the blocks

  method Largest(layer: map<Node, int>, nodes: seq<Node>) returns (m: int)
    requires nodes != [] && forall n :: n in layer <==> n in nodes
    ensures forall n :: n in layer ==> layer[n] <= m
    ensures exists n :: n in layer && layer[n] == m
  {
    assert nodes[0] in layer;
    m := layer[nodes[0]];
    for i := 1 to |nodes|
      invariant forall k :: 0 <= k < i ==> nodes[k] in layer && layer[nodes[k]] <= m
      invariant exists n :: n in layer && layer[n] == m
    {
      assert nodes[i] in layer;
      if m < layer[nodes[i]] {
        m := layer[nodes[i]];
      }
    }
  }

  /** Every output pin is moved, one after the other, past everything placed so far. */
  method PutLast(start: map<Node, int>, nodes: seq<Node>, sinks: seq<Node>, ghost edges: seq<Edge>,
                 ghost keep: set<nat>)
    returns (layer: map<Node, int>)
    requires forall n :: n in start <==> n in nodes
    requires forall n :: n in sinks ==> n in nodes
    requires Ascends(edges, keep, start)
    requires forall e :: e in keep ==>
               e < |edges| && edges[e].src in start && edges[e].dst in start && edges[e].src !in sinks
    ensures layer.Keys == start.Keys && Ascends(edges, keep, layer)
    ensures forall n :: n in layer && n !in sinks ==> layer[n] == start[n]
    ensures forall n, s :: n in layer && n !in sinks && s in sinks ==> layer[n] < layer[s]
    ensures Distinct(sinks) ==> InOrder(layer, sinks)
  {
    layer := start;
    for i := 0 to |sinks|
      invariant layer.Keys == start.Keys && Ascends(edges, keep, layer)
      invariant forall n :: n in layer && n !in sinks ==> layer[n] == start[n]
      invariant forall n, k :: n in layer && n !in sinks && 0 <= k < i ==> layer[n] < layer[sinks[k]]
      invariant forall j :: 0 <= j < |sinks| ==> sinks[j] in layer
      invariant Distinct(sinks) ==> InOrder(layer, sinks[..i])
    {
      assert sinks[i] in nodes;
      var m := Largest(layer, nodes);
      OneMoreSink(layer, sinks, i, m);
      layer := layer[sinks[i] := m + 1];
    }
  }

  lemma OneMoreSink(layer: map<Node, int>, sinks: seq<Node>, i: nat, m: int)
    requires i < |sinks| && forall n :: n in layer ==> layer[n] <= m
    requires forall j :: 0 <= j < |sinks| ==> sinks[j] in layer
    ensures Distinct(sinks) && InOrder(layer, sinks[..i]) ==> InOrder(layer[sinks[i] := m + 1], sinks[..i + 1])
  {
    if Distinct(sinks) && InOrder(layer, sinks[..i]) {
      forall j, k | 0 <= j < k < i + 1
        ensures var next := layer[sinks[i] := m + 1];
                sinks[j] in next && sinks[k] in next && next[sinks[j]] < next[sinks[k]]
      {
        assert sinks[..i][j] == sinks[j];
        assert k < i ==> sinks[..i][k] == sinks[k];
      }
    }
  }

  ghost predicate Distinct(s: seq<Node>) {
    forall j, k :: 0 <= j < k < |s| ==> s[j] != s[k]
  }

  ghost predicate InOrder(layer: map<Node, int>, s: seq<Node>) {
    forall j, k :: 0 <= j < k < |s| ==> s[j] in layer && s[k] in layer && layer[s[j]] < layer[s[k]]
  }

  function Ids(nodes: seq<(Node, bool)>): seq<Node> {
    seq(|nodes|, k requires 0 <= k < |nodes| => nodes[k].0)
  }

  predicate HasArrow(edges: seq<Edge>, n: Node) {
    exists j :: 0 <= j < |edges| && (edges[j].src == n || edges[j].dst == n)
  }

  /** The listed blocks that are drawn, in order: instances, and pins with an arrow. */
  function KeptNodes(nodes: seq<(Node, bool)>, edges: seq<Edge>): (kept: seq<(Node, bool)>)
    ensures forall node :: node in kept <==> node in nodes && (node.1 || HasArrow(edges, node.0))
  {
    if nodes == [] then []
    else
      (if nodes[0].1 || HasArrow(edges, nodes[0].0) then [nodes[0]] else []) + KeptNodes(nodes[1..], edges)
  }

  predicate IsKept(nodes: seq<(Node, bool)>, edges: seq<Edge>, n: Node) {
    (n, true) in nodes || ((n, false) in nodes && HasArrow(edges, n))
  }

  /** Nothing stands left of `sources` or right of `sinks`. */
  ghost predicate AtEnds(column: map<Node, int>, sources: seq<Node>, sinks: seq<Node>) {
    && (forall s, n :: s in sources && s !in sinks && s in column && n in column ==> column[s] <= column[n])
    && (forall s, n :: s in sinks && n !in sinks && s in column && n in column ==> column[n] <= column[s])
  }

  lemma PlacedAtEnds(edges: seq<Edge>, keep: set<nat>, first: map<Node, int>, placed: map<Node, int>,
                     sources: seq<Node>, sinks: seq<Node>)
    requires placed.Keys == first.Keys
    requires forall n :: n in first && n !in sources ==> Longest(edges, keep, n, first[n])
    requires forall n :: n in sources ==> n in first && first[n] == 0
    requires forall n :: n in placed && n !in sinks ==> placed[n] == first[n]
    requires forall n, s :: n in placed && n !in sinks && s in sinks ==> s in placed && placed[n] < placed[s]
    ensures AtEnds(placed, sources, sinks)
  {
    forall n | n in first ensures first[n] >= 0 {
      LongestIsNonnegative(edges, keep, sources, first, n);
    }
  }

  lemma StillAtEnds(placed: map<Node, int>, kept: map<Node, int>, column: map<Node, int>, columns: nat,
                    sources: seq<Node>, sinks: seq<Node>)
    requires AtEnds(placed, sources, sinks) && Compact(kept, column, columns)
    requires forall n :: n in kept ==> n in placed && kept[n] == placed[n]
    ensures AtEnds(column, sources, sinks)
  {
  }

  /** Layers for all blocks, the input pins first and the output pins last. */
  method Place(ids: seq<Node>, edges: seq<Edge>, sources: seq<Node>, sinks: seq<Node>)
    returns (placed: map<Node, int>, ghost back: set<nat>)
    requires forall e :: e in edges ==> e.src in ids && e.dst in ids && e.dst !in sources && e.src !in sinks
    requires forall n :: n in sources || n in sinks ==> n in ids
    ensures forall n :: n in placed <==> n in ids
    ensures FeedbackOf(edges, back)
    ensures Ascends(edges, Positions(|edges|) - back, placed)
    ensures AtEnds(placed, sources, sinks)
    ensures LayersOf(edges, back, sources, sinks, placed)
  {
    hide AtEnds, Closes, AcyclicAround, Longest, Ascends, FeedbackOf, Forward, Distinct, InOrder, LayersOf;
    placed, back := LayerNodes(ids, edges, sources);
    AllForward(NodeSet(ids), edges, back);
    LayersClimb(ids, edges, back, sources, placed);
    EndpointsPlaced(ids, edges, placed, sinks);
    assert forall n :: n in placed <==> n in ids;
    ghost var first := placed;
    placed := PutLast(placed, ids, sinks, edges, Positions(|edges|) - back);
    PlacedAtEnds(edges, Forward(NodeSet(ids), edges, back), first, placed, sources, sinks);
    PlacedAreLayers(edges, back, first, placed, sources, sinks);
  }

  /** An input pin is in layer 0, an instance where the longest walk without feedback edges leads, and
      the output pins are in layers of their own, in order, past all others. */
  ghost predicate LayersOf(edges: seq<Edge>, back: set<nat>, sources: seq<Node>, sinks: seq<Node>,
                           layer: map<Node, int>) {
    && (forall n :: n in layer && n !in sinks && n in sources ==> layer[n] == 0)
    && (forall n :: n in layer && n !in sinks && n !in sources ==>
          Longest(edges, Positions(|edges|) - back, n, layer[n]))
    && (forall n, s :: n in layer && s in layer && n !in sinks && s in sinks ==> layer[n] < layer[s])
    && (Distinct(sinks) ==> forall j, k :: 0 <= j < k < |sinks| && sinks[j] in layer && sinks[k] in layer ==>
          layer[sinks[j]] < layer[sinks[k]])
  }

  lemma PlacedAreLayers(edges: seq<Edge>, back: set<nat>, first: map<Node, int>, placed: map<Node, int>,
                        sources: seq<Node>, sinks: seq<Node>)
    requires placed.Keys == first.Keys
    requires forall n :: n in first && n !in sources ==> Longest(edges, Positions(|edges|) - back, n, first[n])
    requires forall n :: n in sources ==> n in first && first[n] == 0
    requires forall n :: n in placed && n !in sinks ==> placed[n] == first[n]
    requires forall n, s :: n in placed && n !in sinks && s in sinks ==> s in placed && placed[n] < placed[s]
    requires Distinct(sinks) ==> InOrder(placed, sinks)
    ensures LayersOf(edges, back, sources, sinks, placed)
  {
    hide Longest, Distinct;
  }

  lemma KeptAreLayers(edges: seq<Edge>, back: set<nat>, placed: map<Node, int>, kept: map<Node, int>,
                      sources: seq<Node>, sinks: seq<Node>)
    requires LayersOf(edges, back, sources, sinks, placed)
    requires forall n :: n in kept ==> n in placed && kept[n] == placed[n]
    ensures LayersOf(edges, back, sources, sinks, kept)
  {
    hide Longest, Distinct;
  }

  /** Every arrow but the feedback ones climbs from layer to layer, and the at most five columns keep
      the order of the layers: none of these arrows points left. */
  method Layout(nodes: seq<(Node, bool)>, edges: seq<Edge>, sources: seq<Node>, sinks: seq<Node>)
    returns (column: map<Node, int>, ghost back: set<nat>, ghost layer: map<Node, int>, ghost columns: nat)
    requires forall e :: e in edges ==>
               e.src in Ids(nodes) && e.dst in Ids(nodes) && e.dst !in sources && e.src !in sinks
    requires forall n :: n in sources || n in sinks ==> n in Ids(nodes)
    ensures FeedbackOf(edges, back)
    ensures Ascends(edges, Positions(|edges|) - back, layer)
    ensures forall n :: n in layer <==> IsKept(nodes, edges, n)
    ensures forall n :: n in column <==> IsKept(nodes, edges, n)
    ensures LayersOf(edges, back, sources, sinks, layer)
    ensures columns == if |layer.Values| <= 5 then |layer.Values| else 5
    ensures Compact(layer, column, columns) && Columns.FromRanks(layer, 5, column)
    ensures |layer.Values| <= 5 ==> Columns.Strict(layer, column)
    ensures AtEnds(column, sources, sinks)
    ensures forall e: nat :: e < |edges| && e !in back ==>
              edges[e].src in column && edges[e].dst in column && column[edges[e].src] <= column[edges[e].dst]
  {
    hide AtEnds, Compact, Columns.FromRanks, Columns.Strict, Ascends, IsKept, FeedbackOf, LayersOf;
    var placed;
    placed, back := Place(Ids(nodes), edges, sources, sinks);
    var kept := map n | n in placed && IsKept(nodes, edges, n) :: placed[n];
    layer := kept;
    var compressed;
    compressed, columns := CompressLayers(kept, 5);
    column := compressed.value;
    KeptHolds(nodes, edges, placed);
    KeptClimbs(edges, Positions(|edges|) - back, placed, kept);
    NoneLeft(edges, Positions(|edges|) - back, layer, column, columns);
    StillAtEnds(placed, kept, column, columns, sources, sinks);
    KeptAreLayers(edges, back, placed, kept, sources, sinks);
  }

  lemma EndpointsPlaced(ids: seq<Node>, edges: seq<Edge>, placed: map<Node, int>, sinks: seq<Node>)
    requires forall e :: e in edges ==> e.src in ids && e.dst in ids && e.src !in sinks
    requires NodeSet(ids) <= placed.Keys
    ensures forall e: nat :: e < |edges| ==>
              edges[e].src in placed && edges[e].dst in placed && edges[e].src !in sinks
  {
    forall e: nat | e < |edges|
      ensures edges[e].src in placed && edges[e].dst in placed && edges[e].src !in sinks
    {
      assert edges[e] in edges;
    }
  }

  lemma KeptClimbs(edges: seq<Edge>, keep: set<nat>, placed: map<Node, int>, kept: map<Node, int>)
    requires Ascends(edges, keep, placed)
    requires forall n :: n in kept ==> n in placed && kept[n] == placed[n]
    ensures Ascends(edges, keep, kept)
  {
  }

  /** `back` is a set of feedback edges: without them the figure is acyclic, and each one of
      them alone would close a cycle again. */
  ghost predicate FeedbackOf(edges: seq<Edge>, back: set<nat>) {
    && AcyclicAround(edges, Positions(|edges|) - back, set e | e in edges :: e.src)
    && forall b :: b in back ==> Closes(edges, Positions(|edges|) - back, b)
  }

  lemma AllForward(nodes: set<Node>, edges: seq<Edge>, back: set<nat>)
    requires forall e :: e in edges ==> e.src in nodes && e.dst in nodes
    requires AcyclicAround(edges, Positions(|edges|) - back, nodes)
    requires forall b :: b in back ==> Closes(edges, Positions(|edges|) - back, b)
    ensures Forward(nodes, edges, back) == Positions(|edges|) - back
    ensures FeedbackOf(edges, back)
  {
    hide Closes;
    forall e | e in Positions(|edges|) - back ensures e in Forward(nodes, edges, back) {
      assert edges[e] in edges;
    }
    forall a, p | a in (set e | e in edges :: e.src) && p != []
      ensures !Walk(edges, Positions(|edges|) - back, a, p, a)
    {
      assert a in nodes;
    }
  }

  lemma {:induction false} LayersClimb(ids: seq<Node>, edges: seq<Edge>, back: set<nat>, sources: seq<Node>,
                                       layer: map<Node, int>)
    requires layer.Keys == NodeSet(ids) + NodeSet(sources)
    requires forall e :: e in edges ==> e.src in ids && e.dst in ids && e.dst !in sources
    requires Forward(NodeSet(ids), edges, back) == Positions(|edges|) - back
    requires forall v :: v in ids && v !in sources ==> Longest(edges, Forward(NodeSet(ids), edges, back), v, layer[v])
    requires forall v :: v in sources ==> layer[v] == 0
    ensures Ascends(edges, Positions(|edges|) - back, layer)
  {
    hide Longest;
    AscendsIffSourcesAreFirst(edges, Positions(|edges|) - back, sources, layer);
  }

  lemma KeptHolds(nodes: seq<(Node, bool)>, edges: seq<Edge>, placed: map<Node, int>)
    requires forall n :: n in placed <==> n in Ids(nodes)
    requires forall e :: e in edges ==> e.src in Ids(nodes) && e.dst in Ids(nodes)
    ensures forall n :: IsKept(nodes, edges, n) ==> n in placed
    ensures forall e: nat :: e < |edges| ==> IsKept(nodes, edges, edges[e].src) && IsKept(nodes, edges, edges[e].dst)
  {
    forall n, isInstance | (n, isInstance) in nodes ensures n in Ids(nodes) {
      var k :| 0 <= k < |nodes| && nodes[k] == (n, isInstance);
      assert Ids(nodes)[k] == n;
    }
    forall e: nat | e < |edges| ensures IsKept(nodes, edges, edges[e].src) && IsKept(nodes, edges, edges[e].dst) {
      assert edges[e] in edges;
      EndIsKept(nodes, edges, e, edges[e].src);
      EndIsKept(nodes, edges, e, edges[e].dst);
    }
  }

  lemma EndIsKept(nodes: seq<(Node, bool)>, edges: seq<Edge>, e: nat, n: Node)
    requires e < |edges| && (n == edges[e].src || n == edges[e].dst) && n in Ids(nodes)
    ensures IsKept(nodes, edges, n)
  {
    var k :| 0 <= k < |nodes| && Ids(nodes)[k] == n;
    assert nodes[k] == (n, nodes[k].1) && nodes[k] in nodes;
    if nodes[k].1 {
      assert (n, true) in nodes;
    } else {
      assert (n, false) in nodes && HasArrow(edges, n);
    }
  }

  lemma NoneLeft(edges: seq<Edge>, keep: set<nat>, layer: map<Node, int>, column: map<Node, int>, columns: nat)
    requires Compact(layer, column, columns) && Ascends(edges, keep, layer)
    ensures forall e :: e in keep && e < |edges| && edges[e].src in layer && edges[e].dst in layer ==>
              edges[e].src in column && edges[e].dst in column && column[edges[e].src] <= column[edges[e].dst]
    ensures column.Keys == layer.Keys && forall n :: n in column ==> 0 <= column[n] < columns
  {
  }

  // ----- The whole figure

  datatype Figure = Figure(nodes: seq<(Node, bool)>, edges: seq<Edge>, column: map<Node, int>)

  /** Port names are distinct: the port scanner drops a name it has seen (lines 107-121). */
  ghost predicate DistinctPorts(d: Design) {
    forall j, k :: 0 <= j < k < |d.ports| ==> d.ports[j].name != d.ports[k].name
  }

  /** An arrow joins two different blocks and stands for nets the first feeds and the second reads. */
  ghost predicate FaithfulArrow(d: Design, e: Edge) {
    && e.src != e.dst && e.nets != [] && Distinct(e.nets)
    && forall net :: net in e.nets ==> Feeds(d, e.src, net) && Reads(d, e.dst, net)
  }

  /** A net some block drives reaches each of its readers: by an arrow from the block that feeds
      it, or because the reader is that block. */
  ghost predicate NetShown(d: Design, edges: seq<Edge>, net: string) {
    (exists m :: Drives(d, m, net)) ==>
      exists s :: Feeds(d, s, net) &&
        forall t :: Reads(d, t, net) && t != s ==> exists e :: e in edges && e.src == s && e.dst == t && net in e.nets
  }

  function Shown(d: Design, maxInstances: nat): Design {
    if |d.instances| > maxInstances then d.(instances := d.instances[..maxInstances]) else d
  }

  /** Only the first instances are shown. */
  lemma ShownIs(d: Design, maxInstances: nat)
    ensures var shown := Shown(d, maxInstances);
            && shown.instances <= d.instances && shown == d.(instances := shown.instances)
            && |shown.instances| == if |d.instances| <= maxInstances then |d.instances| else maxInstances
  {
  }

  /** `n` is the block of a pin of direction `dir` that is neither clock nor reset. */
  ghost predicate Pin(d: Design, n: Node, dir: Direction) {
    exists p :: p in d.ports && p.dir == dir && !d.isControl(p.name) && n == PadId(p.name)
  }

  ghost predicate Block(d: Design, n: Node) {
    Pin(d, n, Input) || Pin(d, n, Output) || exists i :: i in d.instances && n == InstId(i.name)
  }

  lemma BlocksListed(d: Design, pads: seq<(Node, bool)>, nodes: seq<(Node, bool)>, sources: seq<Node>, sinks: seq<Node>)
    requires forall n :: n in sources <==> Pin(d, n, Input)
    requires forall n :: n in sinks <==> Pin(d, n, Output)
    requires forall n :: (n, false) in pads <==> n in sources || n in sinks
    requires |nodes| == |pads| + |d.instances| && nodes[..|pads|] == pads
    requires forall k :: 0 <= k < |d.instances| ==> nodes[|pads| + k] == (InstId(d.instances[k].name), true)
    ensures forall n :: Block(d, n) ==> n in Ids(nodes)
    ensures forall n :: n in sources || n in sinks ==> n in Ids(nodes)
  {
    forall n | Block(d, n) ensures n in Ids(nodes) {
      if Pin(d, n, Input) || Pin(d, n, Output) {
        var k :| 0 <= k < |pads| && pads[k] == (n, false);
        assert nodes[k] == pads[k];
        assert Ids(nodes)[k] == n;
      } else {
        var k :| 0 <= k < |d.instances| && n == InstId(d.instances[k].name);
        assert Ids(nodes)[|pads| + k] == n;
      }
    }
  }

  /** The entries of the figure: every instance, and the pins an arrow leaves or enters. */
  ghost predicate Entry(d: Design, edges: seq<Edge>, node: (Node, bool)) {
    if node.1 then exists i :: i in d.instances && node.0 == InstId(i.name)
    else (Pin(d, node.0, Input) || Pin(d, node.0, Output)) && HasArrow(edges, node.0)
  }

  ghost predicate Drawn(d: Design, edges: seq<Edge>, n: Node) {
    Entry(d, edges, (n, true)) || Entry(d, edges, (n, false))
  }

  lemma {:induction false} KeptAreEntries(d: Design, pads: seq<(Node, bool)>, nodes: seq<(Node, bool)>,
                                          edges: seq<Edge>, node: (Node, bool))
    requires forall n :: (n, false) in pads <==> Pin(d, n, Input) || Pin(d, n, Output)
    requires forall node :: node in pads ==> !node.1
    requires |nodes| == |pads| + |d.instances| && nodes[..|pads|] == pads
    requires forall k :: 0 <= k < |d.instances| ==> nodes[|pads| + k] == (InstId(d.instances[k].name), true)
    ensures node in KeptNodes(nodes, edges) <==> Entry(d, edges, node)
  {
    hide Pin, HasArrow;
    if node in nodes {
      var k :| 0 <= k < |nodes| && nodes[k] == node;
      if k < |pads| {
        assert pads[k] == node && pads[k] in pads;
      } else {
        assert nodes[|pads| + (k - |pads|)] == node && d.instances[k - |pads|] in d.instances;
      }
    }
    if node.1 {
      if i :| i in d.instances && node.0 == InstId(i.name) {
        var k :| 0 <= k < |d.instances| && d.instances[k] == i;
        assert nodes[|pads| + k] == node;
      }
    } else if Pin(d, node.0, Input) || Pin(d, node.0, Output) {
      var k :| 0 <= k < |pads| && pads[k] == (node.0, false);
      assert nodes[k] == pads[k];
    }
  }

  lemma KeptAreDrawn(d: Design, nodes: seq<(Node, bool)>, kept: seq<(Node, bool)>, edges: seq<Edge>)
    requires kept == KeptNodes(nodes, edges) && forall node :: node in kept <==> Entry(d, edges, node)
    ensures forall n :: IsKept(nodes, edges, n) <==> Drawn(d, edges, n)
  {
    hide Entry, HasArrow;
    forall n ensures IsKept(nodes, edges, n) <==> (n, true) in kept || (n, false) in kept {
    }
  }

  lemma DriversAreBlocks(d: Design, n: Node, net: string)
    requires Drives(d, n, net) || Reads(d, n, net)
    ensures Block(d, n)
  {
  }

  lemma ArrowsAreFaithful(d: Design, nets: Nets, ids: set<Node>, edges: seq<Edge>)
    requires Wired(d, nets) && Arrows(ids, nets, edges)
    requires forall n :: Block(d, n) ==> n in ids
    ensures forall e :: e in edges ==> FaithfulArrow(d, e)
    ensures forall net :: NetShown(d, edges, net)
    ensures forall e :: e in edges ==> e.src in ids && e.dst in ids
    ensures OneArrowPerPair(edges)
  {
    hide Drives, Feeds, Reads, Block, PortDone, ConnDone;
    forall e | e in edges ensures FaithfulArrow(d, e) && e.src in ids && e.dst in ids {
      assert e.nets[0] in e.nets;
      forall net | net in e.nets ensures Feeds(d, e.src, net) && Reads(d, e.dst, net) {
        assert Carries(ids, nets, e.src, e.dst, net);
      }
    }
    forall net ensures NetShown(d, edges, net) {
      if m :| Drives(d, m, net) {
        WiredMeans(d, nets, net, m);
        var k :| 0 <= k < |nets.producers| && nets.producers[k].0 == net;
        var s := nets.producers[k].1;
        assert (net, s) == nets.producers[k];
        FeederDrives(d, s, net);
        DriversAreBlocks(d, s, net);
        forall t | Reads(d, t, net) && t != s
          ensures exists e :: e in edges && e.src == s && e.dst == t && net in e.nets
        {
          WiredMeans(d, nets, net, t);
          DriversAreBlocks(d, t, net);
          assert Carries(ids, nets, s, t, net);
        }
      }
    }
  }

  lemma PadsAndInstancesDiffer(a: string, b: string)
    ensures PadId(a) != InstId(b)
    ensures PadId(a) == PadId(b) ==> a == b
  {
    assert PadId(a)[0] == 'p' && InstId(b)[0] == 'i';
    assert PadId(a)[4..] == a && PadId(b)[4..] == b;
  }

  /** No block has both an input pin and an output role at the same pin. */
  lemma PinRoles(d: Design, n: Node, net: string)
    requires DistinctPorts(d)
    ensures Pin(d, n, Input) ==> !Reads(d, n, net)
    ensures Pin(d, n, Output) ==> !Drives(d, n, net)
  {
    forall a, b ensures PadId(a) != InstId(b) && (PadId(a) == PadId(b) ==> a == b) {
      PadsAndInstancesDiffer(a, b);
    }
  }

  /** Arrows leave no output pin and enter no input pin. */
  lemma PinsAreEnds(d: Design, edges: seq<Edge>, sources: seq<Node>, sinks: seq<Node>)
    requires DistinctPorts(d) && forall e :: e in edges ==> FaithfulArrow(d, e)
    requires forall n :: n in sources <==> Pin(d, n, Input)
    requires forall n :: n in sinks <==> Pin(d, n, Output)
    ensures forall e :: e in edges ==> e.dst !in sources && e.src !in sinks
  {
    hide Pin, Drives, Feeds, Reads, DistinctPorts;
    forall e | e in edges ensures e.dst !in sources && e.src !in sinks {
      assert e.nets[0] in e.nets;
      FeederDrives(d, e.src, e.nets[0]);
      PinRoles(d, e.dst, e.nets[0]);
      PinRoles(d, e.src, e.nets[0]);
    }
  }

  /** No block stands left of an input pin or right of an output pin. */
  ghost predicate PinsAtEnds(d: Design, column: map<Node, int>) {
    && (forall s, n :: Pin(d, s, Input) && s in column && n in column ==> column[s] <= column[n])
    && (forall s, n :: Pin(d, s, Output) && s in column && n in column ==> column[n] <= column[s] || Pin(d, n, Output))
  }

  lemma EndsArePins(d: Design, column: map<Node, int>, sources: seq<Node>, sinks: seq<Node>)
    requires DistinctPorts(d) && AtEnds(column, sources, sinks)
    requires forall n :: n in sources <==> Pin(d, n, Input)
    requires forall n :: n in sinks <==> Pin(d, n, Output)
    ensures PinsAtEnds(d, column)
  {
    forall n ensures !Pin(d, n, Input) || !Pin(d, n, Output) {
      PinHasOneDirection(d, n);
    }
    hide Pin;
  }

  lemma PinHasOneDirection(d: Design, n: Node)
    requires DistinctPorts(d)
    ensures !Pin(d, n, Input) || !Pin(d, n, Output)
  {
    forall a, b ensures PadId(a) == PadId(b) ==> a == b {
      PadsAndInstancesDiffer(a, b);
    }
  }

  /** The layers of the figure, on the design: see LayersOf. */
  ghost predicate FigureLayers(d: Design, edges: seq<Edge>, back: set<nat>, layer: map<Node, int>) {
    && (forall n :: n in layer && Pin(d, n, Input) ==> layer[n] == 0)
    && (forall n :: n in layer && !Pin(d, n, Input) && !Pin(d, n, Output) ==>
          Longest(edges, Positions(|edges|) - back, n, layer[n]))
    && (forall n, s :: n in layer && s in layer && !Pin(d, n, Output) && Pin(d, s, Output) ==> layer[n] < layer[s])
    && (forall j, k :: 0 <= j < k && Counts(d, j, Output) && Counts(d, k, Output) ==>
          InTurn(layer, PadId(d.ports[j].name), PadId(d.ports[k].name)))
  }

  ghost predicate InTurn(layer: map<Node, int>, m: Node, n: Node) {
    m in layer && n in layer ==> layer[m] < layer[n]
  }

  lemma LayersAreFigureLayers(d: Design, edges: seq<Edge>, back: set<nat>, sources: seq<Node>, sinks: seq<Node>,
                              layer: map<Node, int>)
    requires DistinctPorts(d) && LayersOf(edges, back, sources, sinks, layer)
    requires sinks == PadIds(d, |d.ports|, Output)
    requires forall n :: n in sources <==> Pin(d, n, Input)
    requires forall n :: n in sinks <==> Pin(d, n, Output)
    ensures FigureLayers(d, edges, back, layer)
  {
    hide Longest, Pin, DistinctPorts;
    forall n ensures !Pin(d, n, Input) || !Pin(d, n, Output) {
      PinHasOneDirection(d, n);
    }
    forall a: nat, b: nat | a < b < |sinks| ensures sinks[a] != sinks[b] {
      PadIdsDiffer(d, a, b, Output);
    }
    assert Distinct(sinks);
    forall j: nat, k: nat | j < k && Counts(d, j, Output) && Counts(d, k, Output)
      ensures InTurn(layer, PadId(d.ports[j].name), PadId(d.ports[k].name))
    {
      var a, b := PadIdsInOrder(d, j, k, Output);
    }
  }

  lemma {:induction false} PointRight(nodes: seq<(Node, bool)>, edges: seq<Edge>, back: set<nat>,
                                      layer: map<Node, int>, column: map<Node, int>)
    requires Ascends(edges, Positions(|edges|) - back, layer) && Columns.Strict(layer, column)
    requires forall e :: e in edges ==> e.src in Ids(nodes) && e.dst in Ids(nodes)
    requires forall n :: n in layer <==> IsKept(nodes, edges, n)
    ensures forall e: nat :: e < |edges| && e !in back ==>
              edges[e].src in column && edges[e].dst in column && column[edges[e].src] < column[edges[e].dst]
  {
    hide IsKept, Ascends;
    forall e: nat | e < |edges| ensures edges[e].src in layer && edges[e].dst in layer {
      assert edges[e] in edges;
      EndIsKept(nodes, edges, e, edges[e].src);
      EndIsKept(nodes, edges, e, edges[e].dst);
    }
    StrictlyRight(edges, Positions(|edges|) - back, layer, column);
  }

  /** With a column for every rank, an arrow that climbs points right. */
  lemma StrictlyRight(edges: seq<Edge>, keep: set<nat>, layer: map<Node, int>, column: map<Node, int>)
    requires Ascends(edges, keep, layer) && Columns.Strict(layer, column)
    requires forall e: nat :: e < |edges| ==> edges[e].src in layer && edges[e].dst in layer
    ensures forall e: nat :: e < |edges| && e in keep ==>
              edges[e].src in column && edges[e].dst in column && column[edges[e].src] < column[edges[e].dst]
  {
  }

  /** The figure shows each net as it is wired, and no arrow but a feedback one points left. */
  method TopLevelDiagram(design: Design, maxInstances: nat)
    returns (r: Option<Figure>, ghost back: set<nat>, ghost layer: map<Node, int>)
    requires DistinctPorts(design)
    ensures r.Some? ==> forall e :: e in r.value.edges ==> FaithfulArrow(Shown(design, maxInstances), e)
    ensures r.Some? ==> forall net :: NetShown(Shown(design, maxInstances), r.value.edges, net)
    ensures r.Some? ==> OneArrowPerPair(r.value.edges)
    ensures r.Some? ==> r.value.edges != [] && FeedbackOf(r.value.edges, back)
    ensures r.None? ==> var d := Shown(design, maxInstances); d.instances == [] || forall net :: NetShown(d, [], net)
    ensures r.Some? ==> forall n :: n in r.value.column <==> Drawn(Shown(design, maxInstances), r.value.edges, n)
    ensures r.Some? ==> forall node :: node in r.value.nodes <==>
              Entry(Shown(design, maxInstances), r.value.edges, node)
    ensures r.Some? ==> PinsAtEnds(Shown(design, maxInstances), r.value.column)
    ensures r.Some? ==> FigureLayers(Shown(design, maxInstances), r.value.edges, back, layer)
    ensures r.Some? ==> Compact(layer, r.value.column, if |layer.Values| <= 5 then |layer.Values| else 5)
    ensures r.Some? ==> Columns.FromRanks(layer, 5, r.value.column)
    ensures r.Some? && |layer.Values| <= 5 ==> forall e: nat :: e < |r.value.edges| && e !in back ==>
              var edge := r.value.edges[e];
              && edge.src in r.value.column && edge.dst in r.value.column
              && r.value.column[edge.src] < r.value.column[edge.dst]
    ensures r.Some? ==> forall e: nat :: e < |r.value.edges| && e !in back ==>
              var edge := r.value.edges[e];
              && edge.src in r.value.column && edge.dst in r.value.column
              && r.value.column[edge.src] <= r.value.column[edge.dst]
  {
    hide FeedbackOf, AtEnds, PinsAtEnds, Drawn, Entry, KeptNodes, NetShown, IsKept, FigureLayers, LayersOf, PadIds,
         Compact, Columns.FromRanks, Columns.Strict, Ascends, Wired, Drives, Feeds, Reads,
         Arrows, Pin, Block, FaithfulArrow, OneArrowPerPair;
    back, layer := {}, map[];
    var d := Shown(design, maxInstances);
    if d.instances == [] {
      return None, {}, map[];
    }
    var pads, padNets, sources, sinks := AddPads(d);
    var nodes, nets := AddInstances(d, pads, padNets);
    var ids := Ids(nodes);
    var edges := DrawArrows((set n | n in ids), nets);
    ghost var blocks := set n | n in ids;
    BlocksListed(d, pads, nodes, sources, sinks);
    ArrowsAreFaithful(d, nets, blocks, edges);
    if edges == [] {
      return None, {}, map[];
    }
    PinsAreEnds(d, edges, sources, sinks);
    assert forall e :: e in edges ==> e.src in blocks && e.dst in blocks;
    var column;
    ghost var columns;
    column, back, layer, columns := Layout(nodes, edges, sources, sinks);
    EndsArePins(d, column, sources, sinks);
    LayersAreFigureLayers(d, edges, back, sources, sinks, layer);
    if |layer.Values| <= 5 {
      PointRight(nodes, edges, back, layer, column);
    }
    var kept := KeptNodes(nodes, edges);
    forall node ensures node in kept <==> Entry(d, edges, node) {
      KeptAreEntries(d, pads, nodes, edges, node);
    }
    KeptAreDrawn(d, nodes, kept, edges);
    r := Some(Figure(kept, edges, column));
  }
}

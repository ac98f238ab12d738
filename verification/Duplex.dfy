/** Two connections joined by a network that may lose, repeat and reorder what either sends. */
module Duplex {
  import opened Basics
  import opened Segments
  import opened Receiving
  import opened Connections
  import opened ConnectionTheorems

  /** A segment in transit. `number` is a history variable: what its acknowledgment number, if it
      carries one, stands for. */
  datatype Packet = Packet(seg: Segment, number: nat)

  /** `near` is the connection that acts next; `outbox` holds what it has sent and the network has
      not lost for good. A packet that is delivered stays, and may be delivered again. */
  datatype Pair = Pair(near: Connection, far: Connection, outbox: set<Packet>, inbox: set<Packet>) {

    ghost predicate Ready()
    {
      near.Ready() && far.Ready()
    }

    /** The same pair, seen from the other side. */
    function Swap(): Pair
    {
      Pair(far, near, inbox, outbox)
    }
  }

  /** What a connection's owner and the network may do to it. */
  datatype Move = Local(event: Event) | Deliver(packet: Packet) | Lose(packet: Packet)

  /** How the owner of one side configures it. */
  datatype Config = Config(sendCapacity: nat, recvCapacity: nat, timeout: U16, isn: U32) {

    function Open(): Connection
    {
      NewConnection(sendCapacity, recvCapacity, timeout, isn)
    }
  }

  /** Two new connections; either owner may connect first, or both. */
  function Boot(near: Config, far: Config): (d: Pair)
    ensures d.Ready()
  {
    Pair(near.Open(), far.Open(), {}, {})
  }

  /** The owner sends what the connection has queued. */
  function Ship(d: Pair): Pair
  {
    d.(outbox := d.outbox + (set seg | seg in d.near.segmentsOut :: Packet(seg, d.near.receiver.number)),
       near := d.near.(segmentsOut := []))
  }

  /** One move of the near connection. Only what the far one has sent can arrive. */
  function Act(d: Pair, move: Move): (o: Outcome<Pair>)
    requires d.Ready()
    ensures o.Done? ==> o.value.Ready()
  {
    match move
    case Local(e) =>
      if e.Arrival? then Done(d)
      else if Next(d.near, e).Hang? then Hang
      else Done(Ship(d.(near := Next(d.near, e).value)))
    case Deliver(p) =>
      if p !in d.inbox then Done(d)
      else if Receive(d.near, p.seg).Hang? then Hang
      else Done(Ship(d.(near := Receive(d.near, p.seg).value)))
    case Lose(p) => Done(d.(inbox := d.inbox - {p}))
  }

  /** A step of either side. */
  datatype Step = Step(near: bool, move: Move)

  function Advance(d: Pair, step: Step): (o: Outcome<Pair>)
    requires d.Ready()
    ensures o.Done? ==> o.value.Ready()
  {
    if step.near then Act(d, step.move)
    else if Act(d.Swap(), step.move).Hang? then Hang
    else Done(Act(d.Swap(), step.move).value.Swap())
  }

  function Run(d: Pair, steps: seq<Step>): (o: Outcome<Pair>)
    requires d.Ready()
    ensures o.Done? ==> o.value.Ready()
    decreases |steps|
  {
    if steps == [] then Done(d)
    else if Advance(d, steps[0]).Hang? then Hang
    else Run(Advance(d, steps[0]).value, steps[1..])
  }
}

/** Fragments sent over an ordered channel that may lose some of them. */
module Channel {
  import opened Bytes
  import opened Varint
  import opened Fragments
  import opened Reassembly
  import opened Loss

  /** Lengths whose declaration the reassembler can read back. */
  predicate Sendable(payload: bytes) {
    0 < |payload| < 0x1000_0000
  }

  /** What survives: `mask[i]` says whether fragment i arrives. */
  function Survivors(fragments: seq<bytes>, mask: seq<bool>): seq<bytes>
    requires |mask| == |fragments|
  {
    if fragments == [] then []
    else (if mask[0] then [fragments[0]] else []) + Survivors(fragments[1..], mask[1..])
  }

  /** The opening fragment starts a frame whatever came before it. */
  lemma {:induction false} FeedOpening(s: Assembly, payload: bytes, version: nat, body: bytes)
    requires |payload| < 0x1000_0000 && version < 16
    ensures FeedChunk(s, Header(0, |payload|, version) + body) == Append(Assembly([], |payload|, 0), body)
  {
    var total := Pack(|payload|);
    var chunk := Header(0, |payload|, version) + body;
    assert chunk == [] + Pack(0) + (total + [version * 16] + body);
    Varint.RoundTrip([], 0, total + [version * 16] + body);
    assert chunk == Pack(0) + total + ([version * 16] + body);
    Varint.RoundTrip(Pack(0), |payload|, [version * 16] + body);
    assert chunk[|Pack(0)| + |total| + 1..] == body;
  }

  /** A later fragment either continues the frame it belongs to or is thrown out with it. */
  lemma {:induction false} FeedFollowing(s: Assembly, payload: bytes, version: nat, index: nat, body: bytes)
    requires 0 < index < 0x1000_0000 && version < 16
    ensures FeedChunk(s, Header(index, |payload|, version) + body)
         == if index == s.next then Append(s, body) else (FRESH, Err(OutOfOrder(index, s.next)))
  {
    var chunk := Header(index, |payload|, version) + body;
    assert chunk == [] + Pack(index) + body;
    Varint.RoundTrip([], index, body);
    assert chunk[|Pack(index)|..] == body;
  }

  /** What each fragment from `position` on carries of the payload. */
  function BodiesFrom(payload: bytes, version: nat, position: nat, index: nat): (bodies: seq<bytes>)
    requires version < 16
    ensures |bodies| == |FragmentsFrom(payload, version, position, index)| && Full(bodies)
    decreases |payload| - position
  {
    var header := Header(index, |payload|, version);
    if position >= |payload| || |header| >= GATT_MTU then []
    else
      var end := ChunkEnd(payload, position, header);
      [payload[position..end]] + BodiesFrom(payload, version, end, index + 1)
  }

  lemma {:induction false} CarriedWhole(payload: bytes, version: nat, position: nat, index: nat)
    requires Sendable(payload) && version < 16 && index <= position <= |payload|
    ensures Concat(BodiesFrom(payload, version, position, index)) == payload[position..]
    decreases |payload| - position
  {
    if position < |payload| {
      ShortPayloadSplits(payload);
      HeaderFits(payload, version, index);
      var end := ChunkEnd(payload, position, Header(index, |payload|, version));
      CarriedWhole(payload, version, end, index + 1);
      var bodies := BodiesFrom(payload, version, position, index);
      assert bodies[1..] == BodiesFrom(payload, version, end, index + 1);
      assert payload[position..] == payload[position..end] + payload[end..];
    }
  }

  /** The fragments from `position` on: the first, what it carries and does, and the others. */
  lemma {:induction false} NextFragment(s: Assembly, payload: bytes, version: nat, position: nat, index: nat)
    returns (end: nat)
    requires Sendable(payload) && version < 16 && index <= position
    requires FragmentsFrom(payload, version, position, index) != []
    ensures var fragments := FragmentsFrom(payload, version, position, index);
            var bodies := BodiesFrom(payload, version, position, index);
            && position < end <= |payload|
            && fragments[1..] == FragmentsFrom(payload, version, end, index + 1)
            && bodies[1..] == BodiesFrom(payload, version, end, index + 1)
            && FeedChunk(s, fragments[0]) == Fed(s, index, |payload|, bodies[0])
  {
    end := ChunkEnd(payload, position, Header(index, |payload|, version));
    if index == 0 {
      FeedOpening(s, payload, version, payload[position..end]);
    } else {
      FeedFollowing(s, payload, version, index, payload[position..end]);
    }
  }

  /** The fragments that arrive do what their bodies say. */
  lemma {:induction false} Told(s: Assembly, payload: bytes, version: nat, position: nat, index: nat, mask: seq<bool>)
    requires Sendable(payload) && version < 16 && index <= position
    requires |mask| == |FragmentsFrom(payload, version, position, index)|
    ensures var arrived := Survivors(FragmentsFrom(payload, version, position, index), mask);
            var bodies := BodiesFrom(payload, version, position, index);
            && Delivered(s, arrived) == Heard(s, bodies, index, |payload|, mask)
            && FeedAll(s, arrived) == After(s, bodies, index, |payload|, mask)
    decreases |mask|
  {
    var fragments := FragmentsFrom(payload, version, position, index);
    if mask != [] {
      var end := NextFragment(s, payload, version, position, index);
      var next := if mask[0] then FeedChunk(s, fragments[0]).0 else s;
      Told(next, payload, version, end, index + 1, mask[1..]);
      var later := Survivors(fragments[1..], mask[1..]);
      if mask[0] {
        assert Survivors(fragments, mask) == [fragments[0]] + later;
        DeliveredCons(s, fragments[0], later);
      } else {
        assert Survivors(fragments, mask) == later;
      }
    }
  }

  lemma {:induction false} DeliveredCons(s: Assembly, chunk: bytes, later: seq<bytes>)
    ensures var (next, r) := FeedChunk(s, chunk);
            && Delivered(s, [chunk] + later) == Out(r) + Delivered(next, later)
            && FeedAll(s, [chunk] + later) == FeedAll(next, later)
            && FeedResults(s, [chunk] + later) == [r] + FeedResults(next, later)
  {
    assert ([chunk] + later)[1..] == later;
  }

  lemma {:induction false} ToldResults(s: Assembly, payload: bytes, version: nat, position: nat, index: nat)
    requires Sendable(payload) && version < 16 && index <= position
    ensures FeedResults(s, FragmentsFrom(payload, version, position, index))
         == Results(s, BodiesFrom(payload, version, position, index), index, |payload|)
    decreases |FragmentsFrom(payload, version, position, index)|
  {
    var fragments := FragmentsFrom(payload, version, position, index);
    if fragments != [] {
      var end := NextFragment(s, payload, version, position, index);
      ToldResults(FeedChunk(s, fragments[0]).0, payload, version, end, index + 1);
      assert fragments == [fragments[0]] + fragments[1..];
      DeliveredCons(s, fragments[0], fragments[1..]);
    }
  }

  // ----- what a channel delivers -----

  /** A payload on its way, with what the channel does to each of its fragments. */
  datatype Shipment = Shipment(payload: bytes, version: nat, mask: seq<bool>) {
    predicate Valid() {
      Sendable(payload) && version < 16 && |mask| == |Split(payload, version)|
    }

    function Arrived(): seq<bytes>
      requires Valid()
    {
      Survivors(Split(payload, version), mask)
    }

    /** What each fragment carries. */
    function Bodies(): (bodies: seq<bytes>)
      requires Valid()
      ensures |bodies| == |mask| && Full(bodies)
    {
      BodiesFrom(payload, version, 0, 0)
    }

    /** The opening fragment is lost, and those that arrive complete another frame. */
    ghost predicate Spliced(s: Assembly)
      requires Valid()
    {
      exists n: nat :: Splices(s, Bodies(), mask, n)
    }

    /** The state in which the reassembler is left. */
    function Leaves(s: Assembly): Assembly
      requires Valid()
    {
      After(s, Bodies(), 0, |payload|, mask)
    }
  }

  /** A shipment in terms of its bodies. */
  lemma {:induction false} ShipmentTold(s: Assembly, m: Shipment)
    requires m.Valid()
    ensures Delivered(s, m.Arrived()) == Heard(s, m.Bodies(), 0, |m.payload|, m.mask)
    ensures FeedAll(s, m.Arrived()) == m.Leaves(s)
    ensures m.mask != [] && Concat(m.Bodies()) == m.payload
  {
    Told(s, m.payload, m.version, 0, 0, m.mask);
    CarriedWhole(m.payload, m.version, 0, 0);
    assert m.payload[0..] == m.payload;
  }

  /** One frame with its opening fragment, from any state: delivered exactly when nothing was lost. */
  lemma {:induction false} OpenedShipment(s: Assembly, m: Shipment)
    requires m.Valid() && First(m.mask) == 0
    ensures Delivered(s, m.Arrived()) == (if All(m.mask) then [m.payload] else [])
    ensures All(m.mask) ==> m.Leaves(s) == FRESH
  {
    ShipmentTold(s, m);
    OneFrame(s, m.Bodies(), m.mask);
  }

  /** A frame whose opening fragment is lost, from any state: it delivers something if and only if the first fragment to
      arrive is the one awaited and others follow it without a gap to exactly the length still missing; and then it
      delivers what was held and what they carry. */
  lemma {:induction false} HeadlessShipment(s: Assembly, m: Shipment)
    requires m.Valid() && 0 < First(m.mask)
    ensures Delivered(s, m.Arrived()) == [] <==> !m.Spliced(s)
    ensures forall n: nat :: Splices(s, m.Bodies(), m.mask, n) ==>
              Delivered(s, m.Arrived()) == [s.buffer + Concat(m.Bodies()[s.next..n])]
  {
    ShipmentTold(s, m);
    HeadlessExactly(s, m.Bodies(), |m.payload|, m.mask);
  }

  predicate AllValid(shipments: seq<Shipment>) {
    forall i :: 0 <= i < |shipments| ==> shipments[i].Valid()
  }

  /** No shipment splices, each taken up where the ones before it left the reassembler. What is lost and how long the
      payloads are decides it. */
  ghost predicate NoSplice(s: Assembly, shipments: seq<Shipment>)
    requires AllValid(shipments)
    decreases |shipments|
  {
    shipments == [] ||
    (var m := shipments[0];
     assert m.Valid();
     !m.Spliced(s) && NoSplice(m.Leaves(s), shipments[1..]))
  }

  function Arrivals(shipments: seq<Shipment>): seq<bytes>
    requires AllValid(shipments)
  {
    if shipments == [] then []
    else
      var m := shipments[0];
      assert m.Valid();
      m.Arrived() + Arrivals(shipments[1..])
  }

  function Intact(shipments: seq<Shipment>): seq<bytes> {
    if shipments == [] then []
    else (if All(shipments[0].mask) then [shipments[0].payload] else []) + Intact(shipments[1..])
  }

  /** Every payload that arrived whole is delivered, and every splice delivers one more. */
  lemma {:induction false} SplicesAdd(s: Assembly, shipments: seq<Shipment>)
    requires AllValid(shipments)
    ensures var delivered := Delivered(s, Arrivals(shipments));
            if NoSplice(s, shipments) then delivered == Intact(shipments) else |delivered| > |Intact(shipments)|
    ensures |Delivered(s, Arrivals(shipments))| >= |Intact(shipments)|
    decreases |shipments|
  {
    if shipments != [] {
      var m := shipments[0];
      assert m.Valid();
      ShipmentTold(s, m);
      AnyFrame(s, m.Bodies(), m.mask);
      FeedAllAppend(s, m.Arrived(), Arrivals(shipments[1..]));
      SplicesAdd(m.Leaves(s), shipments[1..]);
    }
  }

  /** Over an ordered channel that may lose any fragment at all, from any starting state, exactly the payloads whose
      fragments all arrived are delivered, in the order they were sent, if and only if no frame that lost its opening
      fragment splices. */
  lemma {:induction false} LossyChannel(s: Assembly, shipments: seq<Shipment>)
    requires AllValid(shipments)
    ensures Delivered(s, Arrivals(shipments)) == Intact(shipments) <==> NoSplice(s, shipments)
  {
    SplicesAdd(s, shipments);
  }

  /** In particular when no opening fragment is lost. */
  lemma {:induction false} OpeningsSuffice(s: Assembly, shipments: seq<Shipment>)
    requires AllValid(shipments) && forall i :: 0 <= i < |shipments| ==> First(shipments[i].mask) == 0
    ensures Delivered(s, Arrivals(shipments)) == Intact(shipments)
  {
    NoOpeningLost(s, shipments);
    LossyChannel(s, shipments);
  }

  lemma {:induction false} NoOpeningLost(s: Assembly, shipments: seq<Shipment>)
    requires AllValid(shipments) && forall i :: 0 <= i < |shipments| ==> First(shipments[i].mask) == 0
    ensures NoSplice(s, shipments)
    decreases |shipments|
  {
    if shipments != [] {
      assert shipments[0].Valid();
      NoOpeningLost(shipments[0].Leaves(s), shipments[1..]);
    }
  }

  /** Feeding every fragment, from any state: nothing until the last, then the payload, then a fresh reassembler. */
  lemma {:induction false} FeedSplit(s: Assembly, payload: bytes, version: nat)
    requires Sendable(payload) && version < 16
    ensures var fragments := Split(payload, version);
            && fragments != []
            && FeedResults(s, fragments) == Progress(|fragments|, payload)
            && FeedAll(s, fragments) == FRESH
  {
    var fragments := Split(payload, version);
    var m := Shipment(payload, version, seq(|fragments|, _ => true));
    ShipmentTold(s, m);
    AllSurvive(fragments, m.mask);
    OneFrame(s, m.Bodies(), m.mask);
    ToldResults(s, payload, version, 0, 0);
    ProgressWhole(s, m.Bodies());
  }

  lemma {:induction false} AllSurvive(fragments: seq<bytes>, mask: seq<bool>)
    requires |mask| == |fragments| && All(mask)
    ensures Survivors(fragments, mask) == fragments
  {
    if fragments != [] {
      AllTail(mask);
      AllSurvive(fragments[1..], mask[1..]);
      assert fragments == [fragments[0]] + fragments[1..];
    }
  }

  /** Why splices must be excluded: whenever one frame breaks off after its first k fragments, the next is first heard
      at fragment k, and together they come to the length the first declared, a payload is delivered that nobody sent.
      */
  lemma {:induction false} LostOpeningSplices(s: Assembly, first: Shipment, second: Shipment, k: nat, n: nat)
    requires first.Valid() && second.Valid() && 0 < k && BreaksOff(first.mask, k)
    requires First(second.mask) == k < n <= |second.mask| && All(second.mask[k..n])
    requires |Concat(first.Bodies()[..k]) + Concat(second.Bodies()[k..n])| == |first.payload|
    ensures Delivered(s, Arrivals([first, second]))
         == [Concat(first.Bodies()[..k]) + Concat(second.Bodies()[k..n])]
    ensures Intact([first, second]) == []
  {
    ShipmentTold(s, first);
    BrokenFrame(s, first.Bodies(), first.mask, k);
    var t := first.Leaves(s);
    assert Splices(t, second.Bodies(), second.mask, n);
    HeadlessShipment(t, second);
    TwoArrivals(first, second);
    FeedAllAppend(s, first.Arrived(), second.Arrived());
    assert !first.mask[k] && !second.mask[0];
    assert Intact([second]) == [] && [first, second][1..] == [second];
  }

  lemma {:induction false} TwoArrivals(first: Shipment, second: Shipment)
    requires first.Valid() && second.Valid()
    ensures Arrivals([first, second]) == first.Arrived() + second.Arrived()
  {
    assert [first, second][1..] == [second] && [second][1..] == [];
    assert Arrivals([second]) == second.Arrived() + [];
  }
}

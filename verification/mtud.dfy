/** The search phase of Datagram Packetization Layer Path MTU Discovery
    (RFC 8899, state machine of section 5.2, constants of section 5.1.2):
    probe the next larger size from a fixed table, one probe at a time,
    promote the confirmed size on acknowledgment and give up for good after
    `MAX_PROBES` lost probes. */
module Mtud {
  import opened Wrappers
  import opened Net

  type u16 = x: int | 0 <= x < 0x1_0000
  type u64 = x: int | 0 <= x < 0x1_0000_0000_0000_0000

  datatype Phase = Searching | Complete

  /** Candidate probe sizes, ascending. */
  const LEVELS: seq<u16> := [1_350, 1_400, 1_450, 1_500]
  const MAX_PROBES: nat := 3
  const MAX_PLPMTU: u16 := 0xFFFF
  const BASE_PLPMTU: u16 := 1280

  /** `s` is the smallest table size strictly above `bound`. */
  predicate IsNextLevel(s: int, bound: int) {
    && s in LEVELS
    && s > bound
    && forall x :: x in LEVELS && x > bound ==> s <= x
  }

  /** The per-datagram overhead assumed for the remote's address family. */
  function HeaderSize(remote: SocketAddr): u16 {
    match remote
    case V4(_, _) => 20
    case V6(_, _) => 48
  }

  /** `probeNumber` and `probeSize` describe the probe in flight, if any;
      `probeCount` counts lost probes over the whole search. */
  datatype MtuDiscovery = MtuDiscovery(
    headerSize: u16,
    current: u16,
    probeNumber: Option<u64>,
    probeSize: Option<u16>,
    probeCount: nat,
    phase: Phase)
  {
    /** What every state reachable from `New` satisfies. It makes the
        `unwrap` in `acked` safe (a probe in flight has a size), keeps
        `current + headerSize` within the table and so within `u16`, and
        keeps a selected probe size the next table size above it. */
    predicate Valid() {
      && (headerSize == 20 || headerSize == 48)
      && BASE_PLPMTU <= current
      && current + headerSize <= LEVELS[|LEVELS| - 1]
      && (probeNumber.Some? ==> probeSize.Some?)
      && (probeSize.Some? ==> IsNextLevel(probeSize.value, current + headerSize))
      && probeCount <= MAX_PROBES
      && (phase == Searching ==> probeCount < MAX_PROBES)
      && (phase == Complete ==> probeNumber.None? && probeSize.None?)
    }
  }

  /** `MtuDiscovery::new` */
  function New(remote: SocketAddr): (m: MtuDiscovery)
    ensures m.Valid()
    ensures m.headerSize == (if remote.V4? then 20 else 48)
    ensures m.current == BASE_PLPMTU && m.probeCount == 0 && m.phase == Searching
    ensures m.probeNumber.None? && m.probeSize.None?
  {
    MtuDiscovery(HeaderSize(remote), BASE_PLPMTU, None, None, 0, Searching)
  }

  /** `levels.iter().find(|&&x| x > bound)`: the first entry above `bound`. */
  function FirstAbove(levels: seq<u16>, bound: int): (r: Option<u16>)
    ensures r.None? <==> forall i :: 0 <= i < |levels| ==> levels[i] <= bound
    ensures r.Some? ==>
              exists i :: && 0 <= i < |levels|
                          && levels[i] == r.value
                          && r.value > bound
                          && forall j :: 0 <= j < i ==> levels[j] <= bound
  {
    if |levels| == 0 then None
    else if levels[0] > bound then Some(levels[0])
    else
      var r := FirstAbove(levels[1..], bound);
      if r.Some? then
        var i :| 0 <= i < |levels[1..]| && levels[1..][i] == r.value && r.value > bound
                 && forall j :: 0 <= j < i ==> levels[1..][j] <= bound;
        assert levels[i + 1] == r.value;
        assert forall j :: 0 <= j < i + 1 ==> levels[j] <= bound by {
          forall j | 0 <= j < i + 1
            ensures levels[j] <= bound
          {
            if j > 0 {
              assert levels[j] == levels[1..][j - 1];
            }
          }
        }
        r
      else
        assert forall i :: 0 <= i < |levels| ==> levels[i] <= bound by {
          forall i | 0 <= i < |levels|
            ensures levels[i] <= bound
          {
            if i > 0 {
              assert levels[i] == levels[1..][i - 1];
            }
          }
        }
        r
  }

  /** On the ascending table, the first size above `bound` is the smallest
      one above it. */
  lemma FirstAboveIsNextLevel(bound: int)
    ensures FirstAbove(LEVELS, bound).Some? ==> IsNextLevel(FirstAbove(LEVELS, bound).value, bound)
    ensures FirstAbove(LEVELS, bound).None? <==> forall x :: x in LEVELS ==> x <= bound
  {
  }

  /** `MtuDiscovery::poll_transmit`: the size to pad the packet numbered
      `nextPacketNumber` to, if it is to carry a probe. */
  function PollTransmit(m: MtuDiscovery, nextPacketNumber: u64): (r: (MtuDiscovery, Option<u16>))
    requires m.Valid()
    ensures r.0.Valid()
    ensures r.0.headerSize == m.headerSize && r.0.current == m.current && r.0.probeCount == m.probeCount
    // at most one probe in flight, and nothing once the search is over
    ensures m.probeNumber.Some? || m.phase == Complete ==> r == (m, None)
    // a probe goes out with the next table size above what is confirmed
    ensures r.1.Some? ==>
              && m.probeNumber.None?
              && r.0 == m.(probeNumber := Some(nextPacketNumber), probeSize := r.1)
              && IsNextLevel(r.1.value, m.current + m.headerSize)
    // an idle search without such a size is over
    ensures m.probeNumber.None? && m.phase == Searching && r.1.None? ==>
              && r.0 == m.(phase := Complete)
              && forall x :: x in LEVELS ==> x <= m.current + m.headerSize
  {
    if m.probeNumber.Some? then (m, None)
    else if m.phase == Complete then (m, None)
    else if m.probeSize.None? then
      var bound: u16 := m.current + m.headerSize;
      FirstAboveIsNextLevel(bound);
      match FirstAbove(LEVELS, bound)
      case Some(v) => (m.(probeSize := Some(v), probeNumber := Some(nextPacketNumber)), Some(v))
      case None => (m.(phase := Complete), None)
    else
      (m.(probeNumber := Some(nextPacketNumber)), m.probeSize)
  }

  /** `MtuDiscovery::acked`: packet `number` was acknowledged. */
  function Acked(m: MtuDiscovery, number: u64): (r: MtuDiscovery)
    requires m.Valid()
    ensures r.Valid()
    // only the probe's own packet number counts
    ensures m.probeNumber != Some(number) ==> r == m
    // the probed size, less the header, is confirmed; the loss count and
    // the phase stay (the `MAX_PLPMTU` branch never fires)
    ensures m.probeNumber == Some(number) ==>
              && r.probeNumber.None? && r.probeSize.None?
              && r.current + m.headerSize == m.probeSize.value
              && r.current > m.current
              && r.headerSize == m.headerSize && r.probeCount == m.probeCount && r.phase == m.phase
  {
    match m.probeNumber
    case Some(probed) =>
      if probed == number then
        var size := m.probeSize.value;
        var current: u16 := size - m.headerSize;
        var r := m.(probeNumber := None, probeSize := None, current := current);
        if current == MAX_PLPMTU then r.(phase := Complete) else r
      else m
    case None => m
  }

  /** `MtuDiscovery::lost`: packet `number` was declared lost. */
  function Lost(m: MtuDiscovery, number: u64): (r: MtuDiscovery)
    requires m.Valid()
    ensures r.Valid()
    // only the probe's own packet number counts
    ensures m.probeNumber != Some(number) ==> r == m
    // one more loss; the size is kept for a retry until the limit, where
    // the search ends at the size already confirmed
    ensures m.probeNumber == Some(number) ==>
              && r.probeNumber.None?
              && r.headerSize == m.headerSize && r.current == m.current
              && r.probeCount == m.probeCount + 1
              && (r.phase == Complete <==> r.probeCount == MAX_PROBES)
              && (r.phase == Searching ==> r.probeSize == m.probeSize)
  {
    match m.probeNumber
    case Some(probed) =>
      if probed == number then
        var count := m.probeCount + 1;
        if count == MAX_PROBES then
          m.(probeNumber := None, probeCount := count, probeSize := None, phase := Complete)
        else
          m.(probeNumber := None, probeCount := count)
      else m
    case None => m
  }

  /** What the owning connection reports to MTU discovery. */
  datatype Event = Transmit(nextPacketNumber: u64) | Ack(number: u64) | Loss(number: u64)

  function Step(m: MtuDiscovery, e: Event): (r: (MtuDiscovery, Option<u16>))
    requires m.Valid()
    ensures r.0.Valid()
  {
    match e
    case Transmit(n) => PollTransmit(m, n)
    case Ack(n) => (Acked(m, n), None)
    case Loss(n) => (Lost(m, n), None)
  }

  /** The state after `events`, in order. Whatever the events, the state
      stays valid, the header size is fixed, the confirmed size never
      shrinks, and a finished search stays exactly as it is. */
  function Run(m: MtuDiscovery, events: seq<Event>): (r: MtuDiscovery)
    requires m.Valid()
    ensures r.Valid()
    ensures r.headerSize == m.headerSize
    ensures r.current >= m.current
    ensures r.probeCount >= m.probeCount
    ensures m.phase == Complete ==> r == m
    decreases |events|
  {
    if |events| == 0 then m
    else Run(Step(m, events[0]).0, events[1..])
  }

  /** How many probes `events` cause to be sent. */
  function ProbesSent(m: MtuDiscovery, events: seq<Event>): nat
    requires m.Valid()
    decreases |events|
  {
    if |events| == 0 then 0
    else
      var (m', probe) := Step(m, events[0]);
      (if probe.Some? then 1 else 0) + ProbesSent(m', events[1..])
  }

  /** Table sizes above `bound`. */
  function CountAbove(levels: seq<u16>, bound: int): (n: nat)
    ensures n <= |levels|
  {
    if |levels| == 0 then 0
    else (if levels[0] > bound then 1 else 0) + CountAbove(levels[1..], bound)
  }

  /** `CountAbove` on the table, written out. */
  lemma CountAboveLevels(bound: int)
    ensures CountAbove(LEVELS, bound)
            == (if bound < 1_350 then 4 else if bound < 1_400 then 3
                else if bound < 1_450 then 2 else if bound < 1_500 then 1 else 0)
  {
    var l1, l2, l3 := LEVELS[1..], LEVELS[2..], LEVELS[3..];
    assert l1[1..] == l2 && l2[1..] == l3 && l3[1..] == [];
    assert CountAbove(l3, bound) == (if bound < 1_500 then 1 else 0);
    assert CountAbove(l2, bound) == (if bound < 1_450 then 1 else 0) + CountAbove(l3, bound);
    assert CountAbove(l1, bound) == (if bound < 1_400 then 1 else 0) + CountAbove(l2, bound);
  }

  /** Stepping up to the next table size leaves one size fewer above. */
  lemma CountAboveNextLevel(s: int, bound: int)
    requires IsNextLevel(s, bound)
    ensures CountAbove(LEVELS, s) + 1 == CountAbove(LEVELS, bound)
  {
    CountAboveLevels(s);
    CountAboveLevels(bound);
    assert LEVELS[0] in LEVELS && LEVELS[1] in LEVELS && LEVELS[2] in LEVELS && LEVELS[3] in LEVELS;
  }

  /** How many more probes the search can still send: one per table size
      still above the confirmed size plus the losses still allowed, less
      one (the loss that reaches `MAX_PROBES` ends the search, and so does
      running out of table sizes, so the two never both run out) and less
      the probe already in flight. */
  function Budget(m: MtuDiscovery): nat
    requires m.Valid()
  {
    if m.phase == Complete then 0
    else
      CountAboveLevels(m.current + m.headerSize);
      CountAbove(LEVELS, m.current + m.headerSize) + (MAX_PROBES - m.probeCount) - 1
      - (if m.probeNumber.Some? then 1 else 0)
  }

  /** Every event either sends a probe and spends one unit of budget, or
      sends none and spends none or more. */
  lemma StepBudget(m: MtuDiscovery, e: Event)
    requires m.Valid()
    ensures Budget(Step(m, e).0) + (if Step(m, e).1.Some? then 1 else 0) <= Budget(m)
  {
    match e
    case Transmit(n) =>
    case Ack(n) =>
      if m.probeNumber == Some(n) {
        CountAboveNextLevel(m.probeSize.value, m.current + m.headerSize);
      }
    case Loss(n) =>
  }

  /** The number of probes any sequence of events sends is bounded by the
      budget of the state it starts from. */
  lemma {:induction false} ProbesWithinBudget(m: MtuDiscovery, events: seq<Event>)
    requires m.Valid()
    ensures ProbesSent(m, events) <= Budget(m)
    decreases |events|
  {
    if |events| > 0 {
      StepBudget(m, events[0]);
      ProbesWithinBudget(Step(m, events[0]).0, events[1..]);
    }
  }

  /** Because lost probes are counted over the whole search and never
      reset, a path sends at most six probes in its lifetime: the four
      table sizes and the three losses allowed, less one, since the search
      ends either on the third loss or once every size is confirmed. */
  lemma AtMostSixProbes(remote: SocketAddr, events: seq<Event>)
    ensures ProbesSent(New(remote), events) <= |LEVELS| + MAX_PROBES - 1
  {
    ProbesWithinBudget(New(remote), events);
    CountAboveLevels(New(remote).current + New(remote).headerSize);
  }

  /** Probes sent over two runs of events add up. */
  lemma {:induction false} ProbesSentAppend(m: MtuDiscovery, xs: seq<Event>, ys: seq<Event>)
    requires m.Valid()
    ensures ProbesSent(m, xs + ys) == ProbesSent(m, xs) + ProbesSent(Run(m, xs), ys)
    decreases |xs|
  {
    if |xs| == 0 {
      assert xs + ys == ys;
    } else {
      assert (xs + ys)[0] == xs[0];
      assert (xs + ys)[1..] == xs[1..] + ys;
      ProbesSentAppend(Step(m, xs[0]).0, xs[1..], ys);
    }
  }

  /** An idle search with a size left to try sends one probe when polled. */
  lemma PollSendsOne(m: MtuDiscovery, n: u64)
    requires m.Valid() && m.phase == Searching && m.probeNumber.None?
    requires m.current + m.headerSize < LEVELS[|LEVELS| - 1]
    ensures ProbesSent(m, [Transmit(n)]) == 1
    ensures var r := Run(m, [Transmit(n)]);
            r == m.(probeNumber := Some(n), probeSize := r.probeSize)
            && r.probeSize.Some? && IsNextLevel(r.probeSize.value, m.current + m.headerSize)
  {
  }

  /** A probe that is lost: one probe sent, one more loss counted, the
      size kept for a retry. */
  lemma LostRound(m: MtuDiscovery, n: u64)
    requires m.Valid() && m.phase == Searching && m.probeNumber.None?
    requires m.current + m.headerSize < LEVELS[|LEVELS| - 1]
    requires m.probeCount + 1 < MAX_PROBES
    ensures ProbesSent(m, [Transmit(n), Loss(n)]) == 1
    ensures var r := Run(m, [Transmit(n), Loss(n)]);
            && r.phase == Searching && r.probeNumber.None?
            && r.current == m.current && r.headerSize == m.headerSize
            && r.probeCount == m.probeCount + 1
  {
    PollSendsOne(m, n);
    ProbesSentAppend(m, [Transmit(n)], [Loss(n)]);
    assert [Transmit(n)] + [Loss(n)] == [Transmit(n), Loss(n)];
    assert [Loss(n)][1..] == [];
    RunAppend(m, [Transmit(n)], [Loss(n)]);
  }

  /** A probe that is acknowledged: one probe sent, and the confirmed size
      plus header is now the next table size. */
  lemma AckedRound(m: MtuDiscovery, n: u64)
    requires m.Valid() && m.phase == Searching && m.probeNumber.None?
    requires m.current + m.headerSize < LEVELS[|LEVELS| - 1]
    ensures ProbesSent(m, [Transmit(n), Ack(n)]) == 1
    ensures var r := Run(m, [Transmit(n), Ack(n)]);
            && r.phase == Searching && r.probeNumber.None?
            && IsNextLevel(r.current + r.headerSize, m.current + m.headerSize)
            && r.headerSize == m.headerSize && r.probeCount == m.probeCount
  {
    PollSendsOne(m, n);
    ProbesSentAppend(m, [Transmit(n)], [Ack(n)]);
    assert [Transmit(n)] + [Ack(n)] == [Transmit(n), Ack(n)];
    assert [Ack(n)][1..] == [];
    RunAppend(m, [Transmit(n)], [Ack(n)]);
  }

  /** Running two runs of events is running their concatenation. */
  lemma {:induction false} RunAppend(m: MtuDiscovery, xs: seq<Event>, ys: seq<Event>)
    requires m.Valid()
    ensures Run(m, xs + ys) == Run(Run(m, xs), ys)
    decreases |xs|
  {
    if |xs| == 0 {
      assert xs + ys == ys;
    } else {
      assert (xs + ys)[0] == xs[0];
      assert (xs + ys)[1..] == xs[1..] + ys;
      RunAppend(Step(m, xs[0]).0, xs[1..], ys);
    }
  }

  /** Two lost probes, three acknowledged ones, and a sixth in flight. */
  function SixProbeTrace(): seq<Event> {
    [Transmit(0), Loss(0)] + ([Transmit(1), Loss(1)]
    + ([Transmit(2), Ack(2)] + ([Transmit(3), Ack(3)] + ([Transmit(4), Ack(4)]
    + [Transmit(5)]))))
  }

  /** From an idle search confirmed up to 1350 (header included), two
      acknowledged probes and a third sent make three. */
  lemma LastAcksSendThree(m: MtuDiscovery)
    requires m.Valid() && m.phase == Searching && m.probeNumber.None?
    requires m.current + m.headerSize == 1_350
    ensures ProbesSent(m, [Transmit(3), Ack(3)] + ([Transmit(4), Ack(4)] + [Transmit(5)])) == 3
  {
    assert LEVELS[1] in LEVELS && LEVELS[2] in LEVELS;
    AckedRound(m, 3);
    var m1 := Run(m, [Transmit(3), Ack(3)]);
    assert m1.current + m1.headerSize == 1_400;
    AckedRound(m1, 4);
    var m2 := Run(m1, [Transmit(4), Ack(4)]);
    assert m2.current + m2.headerSize == 1_450;
    PollSendsOne(m2, 5);
    ProbesSentAppend(m1, [Transmit(4), Ack(4)], [Transmit(5)]);
    ProbesSentAppend(m, [Transmit(3), Ack(3)], [Transmit(4), Ack(4)] + [Transmit(5)]);
  }

  /** From an idle search below the first table size, three acknowledged
      probes and a fourth sent make four. */
  lemma AcksSendFour(m: MtuDiscovery)
    requires m.Valid() && m.phase == Searching && m.probeNumber.None?
    requires m.current + m.headerSize < 1_350
    ensures ProbesSent(m, [Transmit(2), Ack(2)] + ([Transmit(3), Ack(3)]
                          + ([Transmit(4), Ack(4)] + [Transmit(5)]))) == 4
  {
    assert LEVELS[0] in LEVELS;
    AckedRound(m, 2);
    var m1 := Run(m, [Transmit(2), Ack(2)]);
    assert m1.current + m1.headerSize == 1_350;
    LastAcksSendThree(m1);
    ProbesSentAppend(m, [Transmit(2), Ack(2)],
                     [Transmit(3), Ack(3)] + ([Transmit(4), Ack(4)] + [Transmit(5)]));
  }

  /** The bound of `AtMostSixProbes` is reached: `SixProbeTrace` sends six
      probes on a new path of either address family. */
  lemma SixProbesReachable(remote: SocketAddr)
    ensures ProbesSent(New(remote), SixProbeTrace()) == 6
  {
    var c1, c2 := [Transmit(0), Loss(0)], [Transmit(1), Loss(1)];
    var r2 := [Transmit(2), Ack(2)] + ([Transmit(3), Ack(3)] + ([Transmit(4), Ack(4)] + [Transmit(5)]));
    var m0 := New(remote);
    LostRound(m0, 0);
    var m1 := Run(m0, c1);
    LostRound(m1, 1);
    var m2 := Run(m1, c2);
    AcksSendFour(m2);
    ProbesSentAppend(m1, c2, r2);
    ProbesSentAppend(m0, c1, c2 + r2);
  }

  /** With a probe in flight, asking again sends nothing and changes nothing. */
  lemma {:induction false} InFlightPollsSendNothing(m: MtuDiscovery, events: seq<Event>)
    requires m.Valid() && m.probeNumber.Some?
    requires forall i :: 0 <= i < |events| ==> events[i].Transmit?
    ensures ProbesSent(m, events) == 0
    ensures Run(m, events) == m
    decreases |events|
  {
    if |events| > 0 {
      InFlightPollsSendNothing(Step(m, events[0]).0, events[1..]);
    }
  }

  /** Polling again and again, with no acknowledgment or loss in between,
      sends at most one probe. */
  lemma {:induction false} RepeatedPollsSendOnce(m: MtuDiscovery, events: seq<Event>)
    requires m.Valid()
    requires forall i :: 0 <= i < |events| ==> events[i].Transmit?
    ensures ProbesSent(m, events) <= 1
    decreases |events|
  {
    if |events| > 0 {
      var (m', probe) := Step(m, events[0]);
      if probe.Some? {
        InFlightPollsSendNothing(m', events[1..]);
      } else {
        RepeatedPollsSendOnce(m', events[1..]);
      }
    }
  }

  /** A finished search sends nothing, whatever happens. */
  lemma {:induction false} CompleteSendsNothing(m: MtuDiscovery, events: seq<Event>)
    requires m.Valid() && m.phase == Complete
    ensures ProbesSent(m, events) == 0
    decreases |events|
  {
    if |events| > 0 {
      CompleteSendsNothing(Step(m, events[0]).0, events[1..]);
    }
  }

  /** Three rounds of probe and loss end an idle search, at the size it had
      already confirmed. */
  lemma ThreeLossesComplete(m: MtuDiscovery, a: u64, b: u64, c: u64)
    requires m.Valid() && m.phase == Searching && m.probeNumber.None?
    ensures var r := Run(m, [Transmit(a), Loss(a), Transmit(b), Loss(b), Transmit(c), Loss(c)]);
            r.phase == Complete && r.current == m.current
  {
    var evs := [Transmit(a), Loss(a), Transmit(b), Loss(b), Transmit(c), Loss(c)];
    var m1 := Step(m, evs[0]).0;
    var m2 := Step(m1, evs[1]).0;
    var m3 := Step(m2, evs[2]).0;
    var m4 := Step(m3, evs[3]).0;
    var m5 := Step(m4, evs[4]).0;
    var m6 := Step(m5, evs[5]).0;
    assert Run(m, evs) == Run(m1, evs[1..]);
    assert Run(m1, evs[1..]) == Run(m2, evs[2..]);
    assert Run(m2, evs[2..]) == Run(m3, evs[3..]);
    assert Run(m3, evs[3..]) == Run(m4, evs[4..]);
    assert Run(m4, evs[4..]) == Run(m5, evs[5..]);
    assert Run(m5, evs[5..]) == Run(m6, evs[6..]);
    assert evs[6..] == [];
  }

  /** An IPv4 path starts at 1280 and probes 1350 (above 1280 + 20); once
      that is acknowledged it confirms 1330 and probes 1400 next. */
  lemma FirstProbesExample(host: bv32, port: bv16)
    ensures var m0 := New(V4(host, port));
            var (m1, p1) := PollTransmit(m0, 0);
            var m2 := Acked(m1, 0);
            var (m3, p2) := PollTransmit(m2, 1);
            p1 == Some(1350) && m2.current == 1330 && p2 == Some(1400)
  {
  }
}

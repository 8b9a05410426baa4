# Path state of a QUIC connection, in Dafny

This project models `quinn-proto/src/connection/paths.rs`, the per-path state of a
QUIC connection in quinn:

- `RttEstimator` (`rtt.dfy`, module `Rtt`) is the round-trip-time estimator. It uses the smoothed
  mean and variance of section 2 of RFC 6298, with alpha = 1/8 and beta = 1/4. The peer's
  reported ack delay is subtracted only when the result stays above the minimum RTT
  (section 5.3 of RFC 9002). It also gives the probe-timeout base `srtt + max(4 * rttvar, G)`.
- `MtuDiscovery` (`mtud.dfy`, module `Mtud`) is the search phase of Datagram Packetization Layer
  Path MTU Discovery (RFC 8899, section 5.2). It probes the sizes 1350, 1400, 1450 and 1500
  one at a time. An acknowledgment confirms a size. The search ends when no larger table size
  is left or after `MAX_PROBES = 3` lost probes.
- `PathData` (`path_data.dfy`, module `Paths`) bundles both with the remote address, the ECN
  flag and a congestion controller. It can be built fresh or carried over to a new remote
  address on migration.

Every `&mut self` method is a pure function that returns the new state. `poll_transmit`
returns the new state paired with its result. Durations are `nat` nanoseconds
(`durations.dfy`). `u16` and `u64` are subset types of `int`. Each `u16` subtraction and
addition in the source is bound to a `u16`-typed variable, so the verifier proves that it
neither wraps nor underflows. `Duration` subtractions are bound to `nat` variables in the same way.

`MtuDiscovery`'s operations require `Valid()`. `New` establishes it and every operation
preserves it. Its fields are private except `current`, and the model assumes no outside
code writes `current`. `Valid()` implies the following:

- A probe in flight has a size, so the `unwrap` in `acked` cannot panic.
- `current + header_size <= 1500`, so the addition in `poll_transmit` cannot overflow and
  the `current == MAX_PLPMTU` branch of `acked` can never fire.
- A selected probe size is the next table size above `current + header_size`, so the
  subtraction in `acked` cannot underflow and `current` strictly grows.
- `probe_count <= 3`, and `probe_count < 3` while searching.
- A finished search has no probe in flight and no probe size selected.

Points where the code's behaviour is easy to misread:

- `acked` does not reset `probe_count`. Losses are counted over the whole search, not per
  size. So a path sends at most six probes in its lifetime (`Mtud.AtMostSixProbes`), even
  though the field's comment describes a per-size count. Six is reached: two lost probes,
  three acknowledged ones, and a sixth in flight (`Mtud.SixProbesReachable`).
- `Duration / u32` divides the seconds and the nanoseconds separately. `Durations.StdDiv`
  models the variant that carries the leftover seconds into the nanoseconds. For the
  divisors 2, 4 and 8 the code uses, this is proved to be exact floor division of the
  total nanoseconds (`Durations.StdDivExact`).
- Take smoothed 100 ms, variance 20 ms and a 140 ms sample with no ack delay. The update
  gives variance 25 ms and smoothed (7 * 100 + 140) / 8 = 105 ms (`Rtt.SecondSampleExample`).
- A first sample makes `latest == min` only when it is at most `u64::MAX` seconds, the
  initial `min`. `Rtt.FirstSample` requires that.

## Model

| member | source | states |
|---|---|---|
| Durations.StdDivExact | quinn-proto/src/connection/paths.rs:76-80 | `Duration / k` computed on seconds and nanoseconds separately equals floor division of the total nanoseconds whenever k divides one second, so the `/ 4`, `/ 8` and `/ 2` of the update lose nothing extra to the split |
| Rtt.New | quinn-proto/src/connection/paths.rs:52-59 | a fresh estimator has no smoothed value, zero latest and variance, and a floor that any sample up to `u64::MAX` seconds lowers to that sample |
| Rtt.Update | quinn-proto/src/connection/paths.rs:61-82 | the floor becomes `min(old floor, rtt)` and never rises; ack delay is subtracted exactly when the result stays strictly above the floor, so both subtractions are safe and `min <= latest <= rtt`; the first sample becomes the smoothed value with variance half of it; later samples follow RFC 6298 with floor rounding (`8*s' <= 7*s + latest < 8*s' + 8`, `4*v' <= 3*v + abs(s - latest) < 4*v' + 4`), and the new smoothed value lies between the old one and the sample |
| Rtt.Get | quinn-proto/src/connection/paths.rs:84-87 | the estimate is the latest sample or the smoothed value, whichever is larger, and is never below either |
| Rtt.PtoBase | quinn-proto/src/connection/paths.rs:89-92 | present exactly when a smoothed value exists; then it is the smoothed value plus the larger of four variances and the timer granularity, so at least smoothed + granularity |
| Rtt.NewValid | quinn-proto/src/connection/paths.rs:52-59 | a fresh estimator satisfies the estimator invariant |
| Rtt.UpdateValid | quinn-proto/src/connection/paths.rs:61-82 | an update keeps the invariant: once sampled, neither latest nor smoothed lies below the floor |
| Rtt.ReplayValid | quinn-proto/src/connection/paths.rs:61-82 | any sequence of updates keeps the invariant |
| Rtt.ReplaySmoothed | quinn-proto/src/connection/paths.rs:52-81 | after a sequence of updates the smoothed value is absent exactly when it was absent before and the sequence is empty |
| Rtt.ReplayMin | quinn-proto/src/connection/paths.rs:57-64 | after a sequence of updates the floor is at most the starting floor and every raw sample, and equals the starting floor or one of the samples |
| Rtt.MinNonIncreasing | quinn-proto/src/connection/paths.rs:64 | extending a sequence of samples never raises the floor |
| Rtt.FirstSample | quinn-proto/src/connection/paths.rs:52-81 | on a fresh estimator the first sample, whatever the ack delay, gives latest = smoothed = min = rtt and variance rtt/2 |
| Rtt.SecondSampleExample | quinn-proto/src/connection/paths.rs:70-77 | smoothed 100 ms, variance 20 ms and a 140 ms sample give variance 25 ms and smoothed 105 ms |
| Mtud.New | quinn-proto/src/connection/paths.rs:111-122 | a new search is valid, uses header size 20 for IPv4 and 48 for IPv6, starts at 1280 with no probe, no losses and phase Searching |
| Mtud.FirstAbove | quinn-proto/src/connection/paths.rs:133-136 | the `find` returns nothing exactly when no entry exceeds the bound, and otherwise an entry above the bound with every earlier entry at or below it |
| Mtud.FirstAboveIsNextLevel | quinn-proto/src/connection/paths.rs:133-136 | on the ascending table the entry found is the smallest table size strictly above the bound |
| Mtud.PollTransmit | quinn-proto/src/connection/paths.rs:125-149 | with a probe in flight or the search complete it returns nothing and changes nothing; a returned size is the smallest table size above `current + header_size` and is recorded with the packet number; an idle search with no such size becomes Complete; the invariant is kept |
| Mtud.Acked | quinn-proto/src/connection/paths.rs:151-163 | an ack for any number other than the probe's changes nothing; a matching ack clears the probe, sets `current` to the probe size less the header, which strictly raises it, and leaves the loss count and the phase alone; the invariant is kept |
| Mtud.Lost | quinn-proto/src/connection/paths.rs:165-177 | a loss for any number other than the probe's changes nothing; a matching loss clears the probe number and counts one more loss, keeping `current`; the phase becomes Complete exactly when the count reaches 3, otherwise the size is kept for a retry; the invariant is kept |
| Mtud.Run | quinn-proto/src/connection/paths.rs:125-177 | over any sequence of polls, acks and losses the state stays valid, the header size is fixed, `current` and the loss count never decrease, and a Complete state never changes |
| Mtud.StepBudget | quinn-proto/src/connection/paths.rs:125-177 | each event sends at most one probe, and a sent probe costs one unit of the search's remaining budget (table sizes left above `current` plus losses still allowed, less the probe in flight) |
| Mtud.ProbesWithinBudget | quinn-proto/src/connection/paths.rs:125-177 | over any sequence of events the number of probes sent is at most the starting budget |
| Mtud.AtMostSixProbes | quinn-proto/src/connection/paths.rs:151-177 | from a new search, any sequence of events sends at most 4 + 3 - 1 probes, because the loss count is never reset and the search ends either on the third loss or once every table size is confirmed |
| Mtud.SixProbesReachable | quinn-proto/src/connection/paths.rs:125-177 | on a new path of either family, two lost probes, three acknowledged ones and one more poll send exactly six probes, so the bound of six is tight |
| Mtud.PollSendsOne | quinn-proto/src/connection/paths.rs:132-148 | an idle search with a table size left above `current + header_size` sends one probe, of the next table size, tagged with the packet number |
| Mtud.LostRound | quinn-proto/src/connection/paths.rs:165-177 | a probe sent and lost, below the loss limit, costs one probe, keeps `current` and the search, and counts one more loss |
| Mtud.AckedRound | quinn-proto/src/connection/paths.rs:151-163 | a probe sent and acknowledged costs one probe and raises `current + header_size` to the next table size, keeping the loss count |
| Mtud.InFlightPollsSendNothing | quinn-proto/src/connection/paths.rs:126-127 | with a probe in flight, any number of polls sends nothing and leaves the state as it was |
| Mtud.RepeatedPollsSendOnce | quinn-proto/src/connection/paths.rs:125-148 | polls without an intervening ack or loss send at most one probe |
| Mtud.CompleteSendsNothing | quinn-proto/src/connection/paths.rs:128-129 | once Complete, no sequence of events sends a probe |
| Mtud.ThreeLossesComplete | quinn-proto/src/connection/paths.rs:165-177 | from an idle search, three rounds of probe and loss make the search Complete with `current` unchanged |
| Mtud.FirstProbesExample | quinn-proto/src/connection/paths.rs:111-163 | on IPv4 the first probe is 1350; once acknowledged `current` is 1330 and the next probe is 1400 |
| Paths.New | quinn-proto/src/connection/paths.rs:18-26 | a new path is valid, keeps the given remote and controller, has ECN on, a fresh RTT estimator (so no smoothed RTT and no PTO base) and `MtuDiscovery::new` for the remote |
| Paths.FromPrevious | quinn-proto/src/connection/paths.rs:28-36 | a migrated path has the new remote, the old RTT estimator field for field, the cloned controller, ECN on and a fresh MTU search for the new remote, and is valid when the old path was |
| Paths.FromPreviousIsNewWithHistory | quinn-proto/src/connection/paths.rs:18-36 | migrating equals building a new path for the new remote over the cloned controller and then putting back the old RTT estimator |
| Paths.MigrationsKeepRtt | quinn-proto/src/connection/paths.rs:28-36 | after any chain of migrations the path is valid, its RTT estimator is the original one, and MTU discovery and ECN are those of a fresh path for the last remote |

`Mtud.HeaderSize` (the address-family match in `MtuDiscovery::new`) is covered by the
`Mtud.New` row. `Durations.StdDiv` (`Duration / u32`) is covered by the
`Durations.StdDivExact` row.

## Left out

- The congestion controller is a type parameter `C`, and `clone_box` is a function
  parameter. Its code is not part of this model. Nothing is claimed about the clone's
  independence from the original.
- `SocketAddr` is reduced to its family, IPv4 or IPv6, plus a host and a port. The IPv6
  flow info and scope id are omitted because nothing here reads them.
- `TIMER_GRANULARITY` is defined outside this file. `Rtt.PtoBase` takes it as the
  parameter `granularity`.
- Duration overflow panics are not modelled, because durations are unbounded. This covers
  `3 * var`, `7 * smoothed` and `4 * var`, the sum in `pto_base`, and a sample above the
  `u64::MAX`-second initial minimum.
- `probe_count` is a `usize`. The model uses `nat`, and `Valid()` bounds it by 3.
- MTU discovery has no timers, no packet I/O, no retry at smaller sizes and no per-path
  switch to turn it off, because the code has none.
- Mtud.PollTransmit, Mtud.Acked, Mtud.Lost: these require `Valid()`. The code needs no
  precondition, because its states only arise from `new` and these operations.
  `Valid()` is what makes the `unwrap` and the `u16` arithmetic safe.

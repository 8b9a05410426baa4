/** The state of one network path: the remote endpoint, its RTT estimator,
    its MTU discovery, whether ECN is used, and a congestion controller of
    type `C` that this module only stores and duplicates. */
module Paths {
  import opened Net
  import Rtt
  import Mtud

  datatype PathData<C> = PathData(
    remote: SocketAddr,
    rtt: Rtt.RttEstimator,
    sendingEcn: bool,
    congestion: C,
    mtud: Mtud.MtuDiscovery)
  {
    /** Both sub-states are valid, and MTU discovery is sized for the
        remote's address family. */
    predicate Valid() {
      && Rtt.Valid(rtt)
      && mtud.Valid()
      && mtud.headerSize == Mtud.HeaderSize(remote)
    }
  }

  /** `PathData::new`: a path with no RTT history, ECN on, MTU discovery
      starting its search for `remote`, and the given controller. */
  function New<C>(remote: SocketAddr, congestion: C): (p: PathData<C>)
    ensures p.Valid()
    ensures p.remote == remote && p.congestion == congestion && p.sendingEcn
    ensures p.rtt == Rtt.New() && p.mtud == Mtud.New(remote)
    ensures p.rtt.smoothed.None? && Rtt.PtoBase(p.rtt, 0).None?
    ensures p.mtud.phase == Mtud.Searching && p.mtud.current == Mtud.BASE_PLPMTU
    ensures p.mtud.probeNumber.None? && p.mtud.probeCount == 0
  {
    PathData(remote, Rtt.New(), true, congestion, Mtud.New(remote))
  }

  /** `PathData::from_previous`: migrating to `remote` copies the RTT
      estimator field for field, duplicates the controller with
      `cloneBox` (the controller's `clone_box`), re-enables ECN and
      restarts MTU discovery for the new remote. `prev` is a value and is
      left as it was. */
  function FromPrevious<C>(remote: SocketAddr, prev: PathData<C>, cloneBox: C -> C): (p: PathData<C>)
    ensures prev.Valid() ==> p.Valid()
    ensures p.remote == remote && p.sendingEcn
    ensures p.rtt == prev.rtt
    ensures p.congestion == cloneBox(prev.congestion)
    ensures p.mtud == Mtud.New(remote)
  {
    PathData(remote, prev.rtt, true, cloneBox(prev.congestion), Mtud.New(remote))
  }

  /** A migrated path is a fresh path for the new remote over the cloned
      controller, except that it keeps the old RTT history. */
  lemma FromPreviousIsNewWithHistory<C>(remote: SocketAddr, prev: PathData<C>, cloneBox: C -> C)
    ensures FromPrevious(remote, prev, cloneBox)
            == New(remote, cloneBox(prev.congestion)).(rtt := prev.rtt)
  {
  }

  /** RTT history survives any number of migrations, while MTU discovery
      and ECN are always those of a fresh path for the last remote. */
  lemma {:induction false} MigrationsKeepRtt<C>(p: PathData<C>, remotes: seq<SocketAddr>, cloneBox: C -> C)
    requires p.Valid()
    ensures var q := Migrate(p, remotes, cloneBox);
            && q.Valid()
            && q.rtt == p.rtt
            && (|remotes| > 0 ==> q.mtud == Mtud.New(remotes[|remotes| - 1]) && q.sendingEcn)
    decreases |remotes|
  {
    if |remotes| > 0 {
      MigrationsKeepRtt(FromPrevious(remotes[0], p, cloneBox), remotes[1..], cloneBox);
      if |remotes| > 1 {
        assert remotes[1..][|remotes[1..]| - 1] == remotes[|remotes| - 1];
      }
    }
  }

  /** The path after migrating through `remotes` in order. */
  function Migrate<C>(p: PathData<C>, remotes: seq<SocketAddr>, cloneBox: C -> C): PathData<C>
    decreases |remotes|
  {
    if |remotes| == 0 then p
    else Migrate(FromPrevious(remotes[0], p, cloneBox), remotes[1..], cloneBox)
  }
}

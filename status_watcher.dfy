/** The edge-triggered server watcher (`checkServer`): every tick probes the
    Minecraft server, always refreshes the bot's presence, and posts an alert
    only when the observed status differs from the last one. */
module StatusWatcher {
  import opened Wrappers

  /** `lastStatus`: `null`, "online" or "offline". */
  datatype Status = Unknown | Online | Offline

  /** What the status probe returned: players online, the player cap and the
      version name, or a failure of any kind. */
  datatype Probe = Reachable(playersOnline: nat, playersMax: nat, version: string) | Unreachable

  /** The alert posted in the alert channel: "SERVER ĐÃ ONLINE" with the
      player count and version, or "SERVER ĐÃ OFFLINE". */
  datatype Alert = ServerOnline(playersOnline: nat, playersMax: nat, version: string) | ServerOffline

  /** The bot's presence: "YumMC Server" set when the client becomes ready,
      "Online: n/m" while reachable, "Server OFFLINE" otherwise. */
  datatype Activity = WatchingServerName | PlayingCount(playersOnline: nat, playersMax: nat) | WatchingOffline

  /** One timer tick: either the alert channel could not be fetched, and the
      tick stops at once, or the probe ran and returned `probe`. */
  datatype TickInput = ChannelMissing | Probed(probe: Probe)

  function Observed(p: Probe): Status
  {
    if p.Reachable? then Online else Offline
  }

  function AlertStatus(a: Alert): Status
  {
    if a.ServerOnline? then Online else Offline
  }

  function AlertFor(p: Probe): (a: Alert)
    ensures AlertStatus(a) == Observed(p)
  {
    match p
    case Reachable(n, cap, v) => ServerOnline(n, cap, v)
    case Unreachable => ServerOffline
  }

  /** The alerts one tick emits when the last status was `last`. */
  function StepAlerts(last: Status, t: TickInput): (r: seq<Alert>)
    ensures |r| <= 1
    ensures r != [] <==> t.Probed? && Observed(t.probe) != last
    ensures r != [] ==> r[0] == AlertFor(t.probe)
  {
    if t.Probed? && Observed(t.probe) != last then [AlertFor(t.probe)] else []
  }

  function NextStatus(last: Status, t: TickInput): Status
  {
    if t.Probed? then Observed(t.probe) else last
  }

  /** The status after a run of ticks starting from `last`. */
  function FinalStatus(last: Status, ts: seq<TickInput>): Status
    decreases ts
  {
    if ts == [] then last else FinalStatus(NextStatus(last, ts[0]), ts[1..])
  }

  /** The alerts a run of ticks emits, in order, starting from `last`. */
  function Emitted(last: Status, ts: seq<TickInput>): seq<Alert>
    decreases ts
  {
    if ts == [] then [] else StepAlerts(last, ts[0]) + Emitted(NextStatus(last, ts[0]), ts[1..])
  }

  /** A run extended by one tick: the new tick sees the run's final status. */
  lemma {:induction false} RunSnoc(last: Status, ts: seq<TickInput>, t: TickInput)
    ensures FinalStatus(last, ts + [t]) == NextStatus(FinalStatus(last, ts), t)
    ensures Emitted(last, ts + [t]) == Emitted(last, ts) + StepAlerts(FinalStatus(last, ts), t)
    decreases ts
  {
    if ts != [] {
      assert (ts + [t])[1..] == ts[1..] + [t];
      RunSnoc(NextStatus(last, ts[0]), ts[1..], t);
    }
  }

  /** Alerts strictly alternate between online and offline; the first one
      differs from the starting status; the last one is the final status, and
      with no alert the status never moved. */
  lemma {:induction false} EmittedAlternate(last: Status, ts: seq<TickInput>)
    ensures var e := Emitted(last, ts);
      && (forall k :: 0 <= k < |e| - 1 ==> AlertStatus(e[k]) != AlertStatus(e[k + 1]))
      && (e != [] ==> AlertStatus(e[0]) != last)
      && (e != [] ==> AlertStatus(e[|e| - 1]) == FinalStatus(last, ts))
      && (e == [] ==> FinalStatus(last, ts) == last)
    decreases ts
  {
    if ts != [] {
      var next := NextStatus(last, ts[0]);
      EmittedAlternate(next, ts[1..]);
      var head, tail := StepAlerts(last, ts[0]), Emitted(next, ts[1..]);
      assert Emitted(last, ts) == head + tail;
      assert head == [] ==> next == last;
      assert head != [] ==> AlertStatus(head[0]) == next;
    }
  }

  /** A tick can emit at most once, so there are never more alerts than
      ticks. */
  lemma {:induction false} EmittedAtMostOnePerTick(last: Status, ts: seq<TickInput>)
    ensures |Emitted(last, ts)| <= |ts|
    decreases ts
  {
    if ts != [] {
      EmittedAtMostOnePerTick(NextStatus(last, ts[0]), ts[1..]);
    }
  }

  /** The ticks that reached the probe, in order: every probed tick is kept
      as often as it occurs, and nothing else. */
  function ProbedOnly(ts: seq<TickInput>): (r: seq<TickInput>)
    ensures forall i :: 0 <= i < |r| ==> r[i].Probed?
    ensures forall t: TickInput :: t.Probed? ==> multiset(r)[t] == multiset(ts)[t]
    ensures (forall i :: 0 <= i < |ts| ==> ts[i].Probed?) ==> r == ts
    ensures |r| <= |ts|
    decreases ts
  {
    if ts == [] then []
    else
      assert ts == [ts[0]] + ts[1..];
      if ts[0].Probed? then [ts[0]] + ProbedOnly(ts[1..])
      else ProbedOnly(ts[1..])
  }

  lemma {:induction false} ChannelMissingIsTransparent(last: Status, ts: seq<TickInput>)
    ensures Emitted(last, ts) == Emitted(last, ProbedOnly(ts))
    ensures FinalStatus(last, ts) == FinalStatus(last, ProbedOnly(ts))
    decreases ts
  {
    if ts != [] {
      ChannelMissingIsTransparent(NextStatus(last, ts[0]), ts[1..]);
      if ts[0].Probed? {
        assert ([ts[0]] + ProbedOnly(ts[1..]))[1..] == ProbedOnly(ts[1..]);
      }
    }
  }

  /** Repeating the observation the watcher already holds emits nothing. */
  lemma {:induction false} SteadyObservationIsSilent(last: Status, ts: seq<TickInput>)
    requires forall i :: 0 <= i < |ts| ==> ts[i].Probed? && Observed(ts[i].probe) == last
    ensures Emitted(last, ts) == []
    ensures FinalStatus(last, ts) == last
  {
    if ts != [] {
      SteadyObservationIsSilent(last, ts[1..]);
    }
  }

  /** The first probed tick after start-up always alerts (null is neither
      status); n successful probes in a row emit exactly that one alert. */
  lemma FirstProbeAlwaysAlerts(p: Probe, ts: seq<TickInput>)
    requires forall i :: 0 <= i < |ts| ==> ts[i].Probed? && Observed(ts[i].probe) == Observed(p)
    ensures Emitted(Unknown, [Probed(p)] + ts) == [AlertFor(p)]
  {
    SteadyObservationIsSilent(Observed(p), ts);
    assert ([Probed(p)] + ts)[1..] == ts;
  }

  /** success, success, failure, failure, success: alerts online, offline,
      online, at the first, third and fifth tick. */
  lemma EdgeTriggeredExample(a: Probe, b: Probe, c: Probe)
    requires a.Reachable? && b.Reachable? && c.Reachable?
    ensures var ts := [Probed(a), Probed(b), Probed(Unreachable), Probed(Unreachable), Probed(c)];
      && Emitted(Unknown, ts) == [AlertFor(a), ServerOffline, AlertFor(c)]
      && StepAlerts(Unknown, ts[0]) != []
      && StepAlerts(FinalStatus(Unknown, ts[..1]), ts[1]) == []
      && StepAlerts(FinalStatus(Unknown, ts[..2]), ts[2]) != []
      && StepAlerts(FinalStatus(Unknown, ts[..3]), ts[3]) == []
      && StepAlerts(FinalStatus(Unknown, ts[..4]), ts[4]) != []
  {
    var ts := [Probed(a), Probed(b), Probed(Unreachable), Probed(Unreachable), Probed(c)];
    assert ts[1..][1..][1..][1..] == [Probed(c)];
    assert Emitted(Offline, ts[1..][1..][1..][1..]) == [AlertFor(c)];
    assert Emitted(Offline, ts[1..][1..][1..]) == [AlertFor(c)];
    assert Emitted(Online, ts[1..][1..]) == [ServerOffline, AlertFor(c)];
    assert Emitted(Online, ts[1..]) == [ServerOffline, AlertFor(c)];
    assert ts[..1] == [Probed(a)];
    assert ts[..2] == [Probed(a), Probed(b)];
    assert ts[..3] == [Probed(a), Probed(b), Probed(Unreachable)];
    assert ts[..4] == [Probed(a), Probed(b), Probed(Unreachable), Probed(Unreachable)];
    assert ts[..3] == ts[..2] + [ts[2]] && ts[..4] == ts[..3] + [ts[3]];
    RunSnoc(Unknown, ts[..2], ts[2]);
    RunSnoc(Unknown, ts[..3], ts[3]);
  }

  /** The presence a probed tick sets: the player count while reachable,
      "Server OFFLINE" otherwise; never the ready-time presence. */
  function ActivityFor(p: Probe): (a: Activity)
    ensures a != WatchingServerName
    ensures a.PlayingCount? <==> Observed(p) == Online
    ensures a.PlayingCount? ==> a.playersOnline == p.playersOnline && a.playersMax == p.playersMax
  {
    match p
    case Reachable(n, cap, _) => PlayingCount(n, cap)
    case Unreachable => WatchingOffline
  }

  /** The watcher's state: the module-level `lastStatus`, the presence it
      last set, and (as ghost records of the sends) the alerts posted and the
      ticks seen since start-up. */
  class Watcher {
    var lastStatus: Status
    var activity: Activity
    ghost var sent: seq<Alert>
    ghost var ticks: seq<TickInput>

    /** The state is what running the recorded ticks from start-up yields. */
    ghost predicate Valid()
      reads this
    {
      lastStatus == FinalStatus(Unknown, ticks) && sent == Emitted(Unknown, ticks)
    }

    /** Process start: `lastStatus = null`; the ready handler sets the
        presence before the first tick. */
    constructor ()
      ensures Valid()
      ensures lastStatus == Unknown && activity == WatchingServerName
      ensures sent == [] && ticks == []
    {
      lastStatus := Unknown;
      activity := WatchingServerName;
      sent := [];
      ticks := [];
    }

    /** `checkServer` once: `channelOk` is whether the alert channel was
        fetched, `probe` what the status probe would return. */
    method Tick(channelOk: bool, probe: Probe) returns (alert: Option<Alert>)
      requires Valid()
      modifies this
      ensures Valid()
      ensures ticks == old(ticks) + [if channelOk then Probed(probe) else ChannelMissing]
      // an unresolved channel stops the tick before the probe: nothing changes
      ensures !channelOk ==>
        alert == None && lastStatus == old(lastStatus) && activity == old(activity) && sent == old(sent)
      // otherwise the presence always follows the probe, and the status is the observed one
      ensures channelOk ==> activity == ActivityFor(probe) && lastStatus == Observed(probe)
      // an alert only on a change of status, describing the new status
      ensures alert.Some? <==> channelOk && Observed(probe) != old(lastStatus)
      ensures alert.Some? ==> alert.value == AlertFor(probe)
      ensures sent == old(sent) + ToSeq(alert)
    {
      ghost var t := if channelOk then Probed(probe) else ChannelMissing;
      RunSnoc(Unknown, ticks, t);
      ticks := ticks + [t];
      alert := None;
      if !channelOk {
        return;
      }
      match probe {
        case Reachable(n, cap, version) =>
          activity := PlayingCount(n, cap);
          if lastStatus != Online {
            lastStatus := Online;
            alert := Some(ServerOnline(n, cap, version));
          }
        case Unreachable =>
          activity := WatchingOffline;
          if lastStatus != Offline {
            lastStatus := Offline;
            alert := Some(ServerOffline);
          }
      }
      sent := sent + ToSeq(alert);
    }
  }
}

/** Which address network/network.go tracks for a node: region by region, and over whole runs. */
module PeerAddresses {
  import opened Options
  import opened PeerProtocol

  /** The address and the backoff delay that a node is tracked with. */
  function Entry(net: Net, node: NodeId): Option<(UnsignedIp, int)>
    requires WfNet(net)
  {
    if node in net.tracked then Some((TrackedFor(net, node).ip, TrackedFor(net, node).delay)) else None
  }

  /** Every other node is tracked as before, and goroutines are only added. */
  ghost predicate OthersSame(net: Net, net': Net, node: NodeId) {
    && (forall n :: n != node ==> (n in net'.tracked <==> n in net.tracked))
    && (forall n :: n != node && n in net.tracked ==> net'.tracked[n] == net.tracked[n])
    && (forall n :: n != node && n in net.tracked && net.tracked[n] in net.trackers ==>
          net.tracked[n] in net'.trackers && net'.trackers[net.tracked[n]] == net.trackers[net.tracked[n]])
    && net.dialers <= net'.dialers && net'.closing == net.closing
  }

  /** A goroutine of its own has been started for the node, and the one before it told to stop. */
  ghost predicate Redialled(net: Net, net': Net, node: NodeId) {
    && Dialled(net', node) && net'.tracked[node] !in net.dialers
    && (node in net.tracked ==> net.tracked[node] in net'.trackers && net'.trackers[net.tracked[node]].stopped)
  }

  // ---- region by region ---------------------------------------------------------------------

  /** Track answers true exactly for a node that is not connected and is tracked with an older timestamp, or is
      untracked and wanted. Then the claimed address is tracked, with the delay carried over; otherwise nothing
      changes. */
  lemma TrackTracks(net: Net, vdrs: set<NodeId>, node: NodeId, ip: UnsignedIp)
    requires NetInv(net)
    ensures var (net', yes) := TrackRegion(net, vdrs, node, ip);
            && NetInv(net')
            && (yes <==> node !in net.connected &&
                         if node in net.tracked then TrackedFor(net, node).ip.timestamp < ip.timestamp else node in vdrs || node in net.manual)
            && (!yes ==> net' == net)
            && (yes ==> && Entry(net', node) == Some((ip, if node in net.tracked then TrackedFor(net, node).delay else 0))
                        && Redialled(net, net', node) && OthersSame(net, net', node) && net'.manual == net.manual)
  {
    TrackKeeps(net, vdrs, node, ip);
  }

  /** ManuallyTrack makes the node wanted; if it was neither connected nor tracked, it is tracked at the given
      address, as the oldest claim there is. */
  lemma ManuallyTrackTracks(net: Net, node: NodeId, address: nat)
    requires NetInv(net)
    ensures var net' := ManuallyTrackRegion(net, node, address);
            && NetInv(net') && net'.manual == net.manual + {node} && OthersSame(net, net', node)
            && Entry(net', node) == (if node in net.connected || node in net.tracked then Entry(net, node) else Some((UnsignedIp(address, 0), 0)))
            && (node !in net.connected && node !in net.tracked ==> Redialled(net, net', node))
  {
    ManuallyTrackKeeps(net, node, address);
  }

  /** A peer that leaves before its handshake is over: a wanted node stays tracked at the same address with the same
      delay, an unwanted one does not. */
  lemma FromConnectingTracks(net: Net, vdrs: set<NodeId>, node: NodeId)
    requires NetInv(net)
    ensures var net' := DisconnectedFromConnecting(net, vdrs, node);
            && NetInv(net') && OthersSame(net, net', node) && net'.manual == net.manual
            && Entry(net', node) == (if node in vdrs || node in net.manual then Entry(net, node) else None)
            && (node in net'.tracked ==> Redialled(net, net', node))
  {
    FromConnectingKeeps(net, vdrs, node);
    if node in net.tracked {
      var net1 := net.(connecting := net.connecting - {node});
      if node in vdrs || node in net.manual {
        RetrackTracks(net1, node, TrackedFor(net, node).ip);
      } else {
        UntrackTracks(net1, node);
      }
    }
  }

  lemma RetrackTracks(net: Net, node: NodeId, ip: UnsignedIp)
    requires NetInv(net) && node in net.tracked
    ensures var net' := Retrack(net, node, ip);
            && NetInv(net') && Entry(net', node) == Some((ip, TrackedFor(net, node).delay))
            && Redialled(net, net', node) && OthersSame(net, net', node)
  {
    RetrackKeeps(net, node, ip);
  }

  lemma UntrackTracks(net: Net, node: NodeId)
    requires NetInv(net)
    ensures NetInv(Untrack(net, node)) && Entry(Untrack(net, node), node) == None && OthersSame(net, Untrack(net, node), node)
  {
    UntrackKeeps(net, node);
  }

  /** A peer that leaves afterwards: a wanted node is tracked at the address that the peer had. */
  lemma FromConnectedTracks(net: Net, vdrs: set<NodeId>, node: NodeId, ip: UnsignedIp)
    requires NetInv(net) && node in net.connected
    ensures var net' := DisconnectedFromConnected(net, vdrs, node, ip);
            && NetInv(net') && OthersSame(net, net', node) && net'.manual == net.manual
            && Entry(net', node) == (if node in vdrs || node in net.manual then Some((ip, 0)) else None)
            && (node in net'.tracked ==> Redialled(net, net', node))
  {
    FromConnectedKeeps(net, vdrs, node, ip);
  }

  /** A round of the dial loop is the last one exactly if the node is unwanted, connecting or connected; an unwanted
      node is no longer tracked, and otherwise nothing changes. */
  lemma DialRoundEnds(net: Net, vdrs: set<NodeId>, node: NodeId)
    requires NetInv(net)
    ensures var (net', exit) := DialRegion(net, vdrs, node);
            && NetInv(net') && (exit <==> (node !in vdrs && node !in net.manual) || node in net.connecting || node in net.connected)
            && (node in vdrs || node in net.manual ==> net' == net)
            && (node !in vdrs && node !in net.manual ==> Entry(net', node) == None && OthersSame(net, net', node) && net'.manual == net.manual)
  {
    UntrackKeeps(net, node);
  }

  /** The end of a handshake: the peer moves from connecting to connected, and its node is no longer tracked. */
  lemma ConnectedMoves(net: Net, node: NodeId)
    requires NetInv(net)
    ensures var (net', peer) := ConnectedRegion(net, node);
            && NetInv(net') && OthersSame(net, net', node) && net'.manual == net.manual
            && (peer.Some? <==> node in net.connecting) && (peer.None? ==> net' == net)
            && (peer.Some? ==> && peer.value == net.connecting[node] && Entry(net', node) == None
                               && net'.connecting == net.connecting - {node} && net'.connected == net.connected[node := peer.value])
  {
    ConnectedKeeps(net, node);
  }

  // ---- over whole runs ----------------------------------------------------------------------

  /** The newest of an address and the later claims for the node; of equally new ones, the first. */
  function Newest(ip: UnsignedIp, steps: seq<Step>, node: NodeId): UnsignedIp {
    if steps == [] then ip
    else
      var before, step := Newest(ip, steps[..|steps| - 1], node), steps[|steps| - 1];
      if step.Track? && step.node == node && step.ip.timestamp > before.timestamp then step.ip else before
  }

  /** The address that comes with a step that begins to track a node. */
  function ClaimOf(s: State, step: Step): UnsignedIp
    requires step.DisconnectedLock? ==> step.peer in s.peers
  {
    match step
    case Track(_, ip) => ip
    case ManuallyTrack(_, address) => UnsignedIp(address, 0)
    case DisconnectedLock(p) => s.peers[p].ip
    case _ => UnsignedIp(0, 0)
  }

  lemma EntryKept(net: Net, net': Net, m: NodeId, node: NodeId)
    requires WfNet(net) && WfNet(net') && OthersSame(net, net', m) && node in net.tracked && node in net'.tracked
    requires node == m ==> Entry(net', m) == Entry(net, m)
    ensures TrackedFor(net', node).ip == TrackedFor(net, node).ip
  {
  }

  lemma TrackedOnLeaving(s: State, p: PeerId, node: NodeId)
    requires Inv(s) && Enabled(s, DisconnectedLock(p)) && node in s.net.tracked
    ensures WfNet(ApplyPeer(s, DisconnectedLock(p)).net) && node in ApplyPeer(s, DisconnectedLock(p)).net.tracked
    ensures TrackedFor(ApplyPeer(s, DisconnectedLock(p)).net, node).ip == TrackedFor(s.net, node).ip
  {
    var m := s.peers[p].node;
    assert PeerOk(s.net, p, s.peers[p]);
    FromConnectedTracks(s.net, s.vdrs, m, s.peers[s.peers[p].pc.peer].ip);
    EntryKept(s.net, ApplyPeer(s, DisconnectedLock(p)).net, m, node);
  }

  lemma TrackedOnPeer(s: State, step: Step, node: NodeId)
    requires NetInv(s.net) && Enabled(s, step) && PeerStep(step) && node in s.net.tracked && !step.DisconnectedLock?
    ensures WfNet(ApplyPeer(s, step).net)
    ensures node in ApplyPeer(s, step).net.tracked ==> TrackedFor(ApplyPeer(s, step).net, node).ip == TrackedFor(s.net, node).ip
  {
    var m, net' := s.peers[step.peer].node, ApplyPeer(s, step).net;
    if step.DisconnectedConnecting? {
      FromConnectingTracks(s.net, s.vdrs, m);
    } else if step.ConnectedLock? {
      ConnectedMoves(s.net, m);
    } else {
      assert net' == s.net;
    }
    if node in net'.tracked { EntryKept(s.net, net', m, node); }
  }

  /** All steps that are not taken for a peer, but Track. */
  lemma TrackedOnNet(s: State, step: Step, node: NodeId)
    requires NetInv(s.net) && Enabled(s, step) && !PeerStep(step) && !step.Track? && node in s.net.tracked
    ensures WfNet(ApplyNet(s, step))
    ensures node in ApplyNet(s, step).tracked ==> TrackedFor(ApplyNet(s, step), node).ip == TrackedFor(s.net, node).ip
  {
    if step.ManuallyTrack? {
      ManuallyTrackTracks(s.net, step.node, step.address);
      EntryKept(s.net, ApplyNet(s, step), step.node, node);
    } else if step.DialRound? {
      DialRoundEnds(s.net, s.vdrs, s.net.trackers[step.tracker].node);
    } else if step.DialBackoff? {
      BackoffAges(s, step, node);
    }
  }

  lemma TrackedOnTrack(s: State, m: NodeId, ip: UnsignedIp, node: NodeId)
    requires NetInv(s.net) && node in s.net.tracked
    ensures WfNet(ApplyNet(s, Track(m, ip))) && node in ApplyNet(s, Track(m, ip)).tracked
    ensures TrackedFor(ApplyNet(s, Track(m, ip)), node).ip ==
              if m == node && ip.timestamp > TrackedFor(s.net, node).ip.timestamp then ip else TrackedFor(s.net, node).ip
  {
    TrackTracks(s.net, s.vdrs, m, ip);
  }

  /** While a node stays tracked, a step changes its address only to a newer claim. */
  lemma TrackedOn(s: State, step: Step, node: NodeId)
    requires Inv(s) && Enabled(s, step) && node in s.net.tracked
    ensures WfNet(Apply(s, step).net)
    ensures node in Apply(s, step).net.tracked ==>
              TrackedFor(Apply(s, step).net, node).ip == Newest(TrackedFor(s.net, node).ip, [step], node)
  {
    assert [step][..0] == [];
    assert Newest(TrackedFor(s.net, node).ip, [], node) == TrackedFor(s.net, node).ip;
    if step.DisconnectedLock? {
      TrackedOnLeaving(s, step.peer, node);
    } else if PeerStep(step) {
      TrackedOnPeer(s, step, node);
    } else if step.Track? {
      TrackedOnTrack(s, step.node, step.ip, node);
    } else {
      TrackedOnNet(s, step, node);
    }
  }

  /** A node that begins to be tracked is tracked at the address that came with the step. */
  lemma TrackedFirst(s: State, step: Step, node: NodeId)
    requires Inv(s) && Enabled(s, step) && node !in s.net.tracked && node in Apply(s, step).net.tracked
    ensures WfNet(Apply(s, step).net) && BeginsTracking(s, step, node)
    ensures Entry(Apply(s, step).net, node) == Some((ClaimOf(s, step), 0))
  {
    TrackedAgain(s, step, node);
    match step
    case Track(_, ip) => TrackTracks(s.net, s.vdrs, node, ip);
    case ManuallyTrack(_, address) => ManuallyTrackTracks(s.net, node, address);
    case DisconnectedLock(p) => LeftTracked(s, p, node);
  }

  /** Disconnected finds its own peer, so the address is that of the peer that left. */
  lemma LeftTracked(s: State, p: PeerId, node: NodeId)
    requires Inv(s) && Enabled(s, DisconnectedLock(p)) && s.peers[p].node == node && Wants(s.net, s.vdrs, node)
    ensures WfNet(ApplyPeer(s, DisconnectedLock(p)).net)
    ensures Entry(ApplyPeer(s, DisconnectedLock(p)).net, node) == Some((s.peers[p].ip, 0))
  {
    assert PeerOk(s.net, p, s.peers[p]);
    FromConnectedTracks(s.net, s.vdrs, node, s.peers[p].ip);
  }

  lemma NewestOn(ip: UnsignedIp, steps: seq<Step>, step: Step, node: NodeId)
    ensures Newest(ip, steps + [step], node) == Newest(Newest(ip, steps, node), [step], node)
  {
    assert (steps + [step])[..|steps|] == steps && [step][..0] == [];
  }

  /** The node began to be tracked at step i, has been tracked ever since, and is tracked at the newest address
      claimed for it from that step on. */
  ghost predicate TrackedSince(run: seq<State>, steps: seq<Step>, i: nat, j: nat, node: NodeId) {
    && i < j <= |steps| < |run| && BeginsTracking(run[i], steps[i], node) && (forall k :: i < k <= j ==> node in run[k].net.tracked)
    && WfNet(run[j].net) && (steps[i].DisconnectedLock? ==> steps[i].peer in run[i].peers)
    && TrackedFor(run[j].net, node).ip == Newest(ClaimOf(run[i], steps[i]), steps[i + 1..j], node)
  }

  lemma TrackingBegins(run: seq<State>, steps: seq<Step>, i: nat, node: NodeId)
    requires IsRun(run, steps) && i < |steps| && node !in run[i].net.tracked && node in run[i + 1].net.tracked
    ensures TrackedSince(run, steps, i, i + 1, node)
  {
    Reachable(run, steps, i);
    assert Next(run[i], run[i + 1], steps[i]);
    TrackedFirst(run[i], steps[i], node);
    assert steps[i + 1..i + 1] == [];
  }

  lemma TrackingGoesOn(run: seq<State>, steps: seq<Step>, i: nat, j: nat, node: NodeId)
    requires IsRun(run, steps) && j < |steps| && TrackedSince(run, steps, i, j, node) && node in run[j + 1].net.tracked
    ensures TrackedSince(run, steps, i, j + 1, node)
  {
    Reachable(run, steps, j);
    assert Next(run[j], run[j + 1], steps[j]);
    TrackedOn(run[j], steps[j], node);
    assert steps[i + 1..j + 1] == steps[i + 1..j] + [steps[j]];
    NewestOn(ClaimOf(run[i], steps[i]), steps[i + 1..j], steps[j], node);
  }

  /** In every run, a tracked node is tracked at the newest address claimed since it began to be tracked. */
  lemma {:induction false} NewestClaimIsTracked(run: seq<State>, steps: seq<Step>, j: nat, node: NodeId) returns (i: nat)
    requires IsRun(run, steps) && j < |run| && node in run[j].net.tracked
    ensures TrackedSince(run, steps, i, j, node)
  {
    if node in run[j - 1].net.tracked {
      i := NewestClaimIsTracked(run, steps, j - 1, node);
      TrackingGoesOn(run, steps, i, j - 1, node);
    } else {
      i := j - 1;
      TrackingBegins(run, steps, i, node);
    }
  }
}

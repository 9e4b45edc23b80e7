/** network/network.go as an object: each method performs one lock region in place, leaves the object in
the state that the region of the protocol prescribes, and keeps what every state of the protocol has:
the collections are disjoint, a connected node is not tracked, and a tracked IP is stopped exactly when
it has left the map. */
module Network {
  import opened Options
  import opened PeerProtocol
  import opened PeerAddresses

  class Network {
    var trackedIPs: map<NodeId, TrackId>
    var trackers: map<TrackId, TrackedIp>
    var nextTracker: TrackId
    var dialers: set<TrackId>
    var manuallyTrackedIDs: set<NodeId>
    var connectingPeers: map<NodeId, PeerId>
    var connectedPeers: map<NodeId, PeerId>
    var closing: bool

    ghost function View(): Net
      reads this
    {
      Net(trackedIPs, trackers, nextTracker, dialers, manuallyTrackedIDs, connectingPeers, connectedPeers, closing)
    }

    ghost predicate Valid()
      reads this
    {
      NetInv(View())
    }

    constructor ()
      ensures Valid() && View() == EmptyNet
    {
      trackedIPs, trackers, nextTracker, dialers := map[], map[], 0, {};
      manuallyTrackedIDs, connectingPeers, connectedPeers, closing := {}, map[], map[], false;
    }

    method StopTrackingIp(t: TrackId)
      requires t in trackers
      modifies this`trackers
      ensures View() == StopTracking(old(View()), t)
    {
      var ip := trackers[t];
      if !ip.stopped {
        trackers := trackers[t := ip.(stopped := true)];
      } else {
        assert trackers == trackers[t := ip.(stopped := true)];
      }
    }

    /** newTrackedIP, the map update and dial. */
    method StartDialing(node: NodeId, ip: UnsignedIp, delay: int)
      modifies this
      ensures View() == TrackAndDial(old(View()), node, ip, delay)
    {
      var t := nextTracker;
      nextTracker := t + 1;
      trackers := trackers[t := TrackedIp(node, ip, delay, false)];
      trackedIPs := trackedIPs[node := t];
      dialers := dialers + {t};
    }

    /** Stop the IP tracked for the node, if there is one, and forget it. */
    method Forget(node: NodeId)
      requires Valid()
      modifies this`trackers, this`trackedIPs
      ensures Valid() && View() == Untrack(old(View()), node)
    {
      UntrackKeeps(View(), node);
      if node in trackedIPs {
        StopTrackingIp(trackedIPs[node]);
        trackedIPs := trackedIPs - {node};
      }
    }

    method Connected(node: NodeId) returns (peer: Option<PeerId>)
      requires Valid()
      modifies this
      ensures Valid() && (View(), peer) == ConnectedRegion(old(View()), node)
    {
      ConnectedKeeps(View(), node);
      if node !in connectingPeers {
        return None;
      }
      var p := connectingPeers[node];
      Forget(node);
      connectingPeers := connectingPeers - {node};
      connectedPeers := connectedPeers[node := p];
      return Some(p);
    }

    /** Before the signature is looked at: exactly whether the locked part would track the address. */
    method ShouldTrack(vdrs: set<NodeId>, node: NodeId, ip: UnsignedIp, allowed: bool) returns (should: bool)
      requires Valid()
      ensures should <==> allowed && TrackRegion(View(), vdrs, node, ip).1
    {
      if !allowed || node in connectedPeers {
        return false;
      }
      if node in trackedIPs {
        return trackers[trackedIPs[node]].ip.timestamp < ip.timestamp;
      }
      return node in vdrs || node in manuallyTrackedIDs;
    }

    /** `allowed`: the address is not private, or private ones are accepted; `signed`: its signature is
        valid. With both, Track is its region; otherwise nothing happens. */
    method Track(vdrs: set<NodeId>, node: NodeId, ip: UnsignedIp, allowed: bool, signed: bool) returns (tracking: bool)
      requires Valid()
      modifies this
      ensures Valid()
      ensures (View(), tracking) == if allowed && signed then TrackRegion(old(View()), vdrs, node, ip) else (old(View()), false)
      ensures tracking <==>
                && allowed && signed && node !in old(connectedPeers)
                && (if node in old(trackedIPs) then old(trackers[trackedIPs[node]].ip.timestamp) < ip.timestamp
                    else node in vdrs || node in old(manuallyTrackedIDs))
      ensures tracking ==> Entry(View(), node).Some? && Entry(View(), node).value.0 == ip
      ensures !tracking ==> View() == old(View())
    {
      TrackTracks(View(), vdrs, node, ip);
      var should := ShouldTrack(vdrs, node, ip, allowed);
      if !should || !signed {
        return false;
      }
      tracking := TrackLocked(vdrs, node, ip);
    }

    method TrackLocked(vdrs: set<NodeId>, node: NodeId, ip: UnsignedIp) returns (tracking: bool)
      requires Valid()
      modifies this
      ensures Valid() && (View(), tracking) == TrackRegion(old(View()), vdrs, node, ip)
    {
      TrackKeeps(View(), vdrs, node, ip);
      if node in connectedPeers {
        return false;
      }
      if node in trackedIPs {
        var t := trackedIPs[node];
        if trackers[t].ip.timestamp >= ip.timestamp {
          return false;
        }
        var delay := trackers[t].delay;
        StopTrackingIp(t);
        StartDialing(node, ip, delay);
        return true;
      } else if node in vdrs || node in manuallyTrackedIDs {
        StartDialing(node, ip, 0);
        return true;
      }
      return false;
    }

    method ManuallyTrack(node: NodeId, address: nat)
      requires Valid()
      modifies this
      ensures Valid() && View() == ManuallyTrackRegion(old(View()), node, address)
      ensures manuallyTrackedIDs == old(manuallyTrackedIDs) + {node}
      ensures node !in old(connectedPeers) && node !in old(trackedIPs) ==> Entry(View(), node) == Some((UnsignedIp(address, 0), 0))
    {
      ManuallyTrackTracks(View(), node, address);
      ManuallyTrackKeeps(View(), node, address);
      manuallyTrackedIDs := manuallyTrackedIDs + {node};
      if node in connectedPeers {
        return;
      }
      if node !in trackedIPs {
        StartDialing(node, UnsignedIp(address, 0), 0);
      }
    }

    method FromConnecting(vdrs: set<NodeId>, node: NodeId)
      requires Valid()
      modifies this
      ensures Valid() && View() == DisconnectedFromConnecting(old(View()), vdrs, node)
      ensures Entry(View(), node) == if node in vdrs || node in old(manuallyTrackedIDs) then Entry(old(View()), node) else None
    {
      FromConnectingTracks(View(), vdrs, node);
      FromConnectingKeeps(View(), vdrs, node);
      connectingPeers := connectingPeers - {node};
      if node in trackedIPs {
        var t := trackedIPs[node];
        if node in vdrs || node in manuallyTrackedIDs {
          var ip, delay := trackers[t].ip, trackers[t].delay;
          StopTrackingIp(t);
          StartDialing(node, ip, delay);
        } else {
          StopTrackingIp(t);
          trackedIPs := trackedIPs - {node};
        }
      }
    }

    /** Called for a node that is connected: it overwrites the tracked entry without stopping it, which is
        safe only because a connected node has none. */
    method FromConnected(vdrs: set<NodeId>, node: NodeId, ip: UnsignedIp)
      requires Valid() && node in connectedPeers
      modifies this
      ensures Valid() && View() == DisconnectedFromConnected(old(View()), vdrs, node, ip)
      ensures Entry(View(), node) == if node in vdrs || node in old(manuallyTrackedIDs) then Some((ip, 0)) else None
    {
      FromConnectedTracks(View(), vdrs, node, ip);
      FromConnectedKeeps(View(), vdrs, node, ip);
      connectedPeers := connectedPeers - {node};
      if node in vdrs || node in manuallyTrackedIDs {
        StartDialing(node, ip, 0);
      } else {
        trackedIPs := trackedIPs - {node};
      }
    }

    method DialRound(vdrs: set<NodeId>, node: NodeId) returns (exit: bool)
      requires Valid()
      modifies this
      ensures Valid() && (View(), exit) == DialRegion(old(View()), vdrs, node)
      ensures exit <==> (node !in vdrs && node !in manuallyTrackedIDs) || node in connectingPeers || node in connectedPeers
    {
      if !(node in vdrs || node in manuallyTrackedIDs) {
        Forget(node);
        return true;
      }
      return node in connectingPeers || node in connectedPeers;
    }

    method Upgrade(node: NodeId, p: PeerId) returns (started: bool)
      requires Valid()
      modifies this`connectingPeers
      ensures Valid() && (View(), started) == UpgradeRegion(old(View()), node, p)
      ensures started <==> !closing && node !in old(connectingPeers) && node !in connectedPeers
      ensures connectingPeers == if started then old(connectingPeers)[node := p] else old(connectingPeers)
    {
      ChangeRestKeeps(View(), UpgradeRegion(View(), node, p).0);
      if closing || node in connectingPeers || node in connectedPeers {
        return false;
      }
      connectingPeers := connectingPeers[node := p];
      return true;
    }

    /** Runs at most once (closeOnce). `toClose` are the peers told to close. */
    method StartClose() returns (toClose: set<PeerId>)
      requires Valid()
      modifies this
      ensures Valid() && View() == if old(closing) then old(View()) else StartCloseRegion(old(View()))
      ensures closing && (!old(closing) ==> trackedIPs == map[])
      ensures toClose == if old(closing) then {} else old(connectingPeers.Values + connectedPeers.Values)
    {
      StartCloseKeeps(View());
      if closing {
        return {};
      }
      closing := true;
      trackers := StopEach(trackedIPs, trackers);
      trackedIPs := map[];
      toClose := connectingPeers.Values + connectedPeers.Values;
    }
  }

  /** The loop of StartClose over the tracked IPs, in whatever order the map yields them. */
  method StopEach(tracked: map<NodeId, TrackId>, trackers: map<TrackId, TrackedIp>)
    returns (r: map<TrackId, TrackedIp>)
    requires forall n :: n in tracked ==> tracked[n] in trackers
    ensures r == StopAll(trackers, tracked.Values)
  {
    r := trackers;
    var left := tracked;
    ghost var stopped: set<TrackId> := {};
    while left.Keys != {}
      invariant forall n :: n in left ==> left[n] in trackers
      invariant stopped + left.Values == tracked.Values
      invariant r == StopAll(trackers, stopped)
      decreases |left.Keys|
    {
      var node :| node in left.Keys;
      var t := left[node];
      ValuesWithout(left, node);
      r := r[t := r[t].(stopped := true)];
      stopped := stopped + {t};
      left := left - {node};
    }
  }

  lemma ValuesWithout(m: map<NodeId, TrackId>, node: NodeId)
    requires node in m
    ensures {m[node]} + (m - {node}).Values == m.Values
  {
    forall t | t in m.Values
      ensures t in {m[node]} + (m - {node}).Values
    {
      var n :| n in m && m[n] == t;
      assert n != node ==> n in m - {node} && (m - {node})[n] == t;
    }
  }
}

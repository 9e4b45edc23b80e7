/** The peer connection protocol of network/network.go, as a transition system. */
module PeerProtocol {
  import opened Options

  /** Connected, Disconnected, Connected, and so on; true is Connected. */
  predicate Alternating(s: seq<bool>) {
    forall i :: 0 <= i < |s| ==> (s[i] <==> i % 2 == 0)
  }

  /* Node IDs move between three collections guarded by one lock: `tracked` (addresses being
  dialled), `connecting` (peers in the handshake) and `connected` (peers that finished it).
  Every lock region of the source is a function on `Net`; the class `Network` performs the same
  regions in place. Goroutines interleave between regions, and the two router callbacks run
  outside the lock, so a whole execution is a run of the transition system `Next`.

  Objects that the source reaches through pointers (peers, tracked IPs) are named by handles. */

  type NodeId = nat
  type PeerId = nat
  type TrackId = nat

  datatype UnsignedIp = UnsignedIp(address: nat, timestamp: nat)

  /** A tracked IP, with the node ID that its dial goroutine works for. */
  datatype TrackedIp = TrackedIp(node: NodeId, ip: UnsignedIp, delay: int, stopped: bool)

  /** What `peersLock` guards, together with the tracked IP objects and the dial goroutines. */
  datatype Net = Net(
    tracked: map<NodeId, TrackId>,
    trackers: map<TrackId, TrackedIp>,
    nextTracker: TrackId,
    dialers: set<TrackId>,
    manual: set<NodeId>,
    connecting: map<NodeId, PeerId>,
    connected: map<NodeId, PeerId>,
    closing: bool)

  const EmptyNet := Net(map[], map[], 0, {}, {}, map[], map[], false)

  // ---- lock regions -------------------------------------------------------------------------

  predicate Wants(net: Net, vdrs: set<NodeId>, node: NodeId) {
    node in vdrs || node in net.manual
  }

  function StopTracking(net: Net, t: TrackId): (r: Net)
    ensures r.connecting == net.connecting && r.connected == net.connected
  {
    if t in net.trackers then net.(trackers := net.trackers[t := net.trackers[t].(stopped := true)]) else net
  }

  /** A new tracked IP with its own dial goroutine, recorded as the one tracked for `node`. */
  function TrackAndDial(net: Net, node: NodeId, ip: UnsignedIp, delay: int): (r: Net)
    ensures r.connecting == net.connecting && r.connected == net.connected
  {
    var t := net.nextTracker;
    net.(tracked := net.tracked[node := t],
         trackers := net.trackers[t := TrackedIp(node, ip, delay, false)],
         nextTracker := t + 1,
         dialers := net.dialers + {t})
  }

  /** trackNewIP followed by the map update and the dial: the delay carries over. */
  function Retrack(net: Net, node: NodeId, ip: UnsignedIp): (r: Net)
    requires node in net.tracked && net.tracked[node] in net.trackers
    ensures r.connecting == net.connecting && r.connected == net.connected
  {
    var t := net.tracked[node];
    TrackAndDial(StopTracking(net, t), node, ip, net.trackers[t].delay)
  }

  function Untrack(net: Net, node: NodeId): (r: Net)
    ensures r.connecting == net.connecting && r.connected == net.connected
  {
    if node in net.tracked
    then StopTracking(net, net.tracked[node]).(tracked := net.tracked - {node})
    else net
  }

  /** The locked part of Connected; None is the "unexpectedly connected" branch. */
  function ConnectedRegion(net: Net, node: NodeId): (Net, Option<PeerId>) {
    if node !in net.connecting then (net, None)
    else
      var p := net.connecting[node];
      (Untrack(net, node).(connecting := net.connecting - {node}, connected := net.connected[node := p]), Some(p))
  }

  function TrackRegion(net: Net, vdrs: set<NodeId>, node: NodeId, ip: UnsignedIp): (r: (Net, bool))
    requires node in net.tracked ==> net.tracked[node] in net.trackers
    ensures r.0.connecting == net.connecting && r.0.connected == net.connected
  {
    if node in net.connected then (net, false)
    else if node in net.tracked then
      if net.trackers[net.tracked[node]].ip.timestamp >= ip.timestamp then (net, false)
      else (Retrack(net, node, ip), true)
    else if Wants(net, vdrs, node) then (TrackAndDial(net, node, ip, 0), true)
    else (net, false)
  }

  function ManuallyTrackRegion(net: Net, node: NodeId, address: nat): (r: Net)
    ensures r.connecting == net.connecting && r.connected == net.connected
  {
    var net1 := net.(manual := net.manual + {node});
    if node in net.connected || node in net.tracked then net1
    else TrackAndDial(net1, node, UnsignedIp(address, 0), 0)
  }

  function DisconnectedFromConnecting(net: Net, vdrs: set<NodeId>, node: NodeId): (r: Net)
    requires node in net.tracked ==> net.tracked[node] in net.trackers
    ensures r.connecting == net.connecting - {node} && r.connected == net.connected
  {
    var net1 := net.(connecting := net.connecting - {node});
    if node !in net.tracked then net1
    else if Wants(net, vdrs, node) then Retrack(net1, node, net.trackers[net.tracked[node]].ip)
    else Untrack(net1, node)
  }

  /** Unlike every other region this one overwrites or deletes the entry without stopping it. */
  function DisconnectedFromConnected(net: Net, vdrs: set<NodeId>, node: NodeId, ip: UnsignedIp): (r: Net)
    ensures r.connecting == net.connecting && r.connected == net.connected - {node}
  {
    var net1 := net.(connected := net.connected - {node});
    if Wants(net, vdrs, node) then TrackAndDial(net1, node, ip, 0)
    else net1.(tracked := net.tracked - {node})
  }

  /** The locked part of one round of the dial loop; true means the goroutine exits. */
  function DialRegion(net: Net, vdrs: set<NodeId>, node: NodeId): (r: (Net, bool))
    ensures r.0.connecting == net.connecting && r.0.connected == net.connected
  {
    if !Wants(net, vdrs, node) then (Untrack(net, node), true)
    else (net, node in net.connecting || node in net.connected)
  }

  /** The locked part of upgrade; true means a peer was started. */
  function UpgradeRegion(net: Net, node: NodeId, p: PeerId): (Net, bool) {
    if net.closing || node in net.connecting || node in net.connected then (net, false)
    else (net.(connecting := net.connecting[node := p]), true)
  }

  function StopAll(trackers: map<TrackId, TrackedIp>, stop: set<TrackId>): map<TrackId, TrackedIp> {
    map t | t in trackers :: if t in stop then trackers[t].(stopped := true) else trackers[t]
  }

  function StartCloseRegion(net: Net): Net {
    net.(closing := true, tracked := map[], trackers := StopAll(net.trackers, net.tracked.Values))
  }

  // ---- the whole system ---------------------------------------------------------------------

  /** Where a peer object's goroutines are with respect to the network. A peer is Handshaking or Ready
      until Disconnected takes the read lock. */
  datatype Pc =
    | Handshaking
    | Announcing                                                 // in Connected, router.Connected pending
    | Ready
    | Leaving(wasConnecting: bool, wasConnected: Option<PeerId>) // in Disconnected, flags read
    | Notified(peer: PeerId)                                     // router.Disconnected returned
    | Closed

  /** A peer object: its reader goroutine, the number of goroutines still running, its address. */
  datatype Peer = Peer(node: NodeId, ip: UnsignedIp, executing: nat, reading: bool, pc: Pc)

  datatype Event = Up(node: NodeId) | Down(node: NodeId)

  datatype State = State(net: Net, peers: map<PeerId, Peer>, vdrs: set<NodeId>, log: seq<Event>, unexpected: bool)

  datatype Step =
    | SetValidators(vdrs: set<NodeId>)
    | Track(node: NodeId, ip: UnsignedIp)
    | ManuallyTrack(node: NodeId, address: nat)
    | DialRound(tracker: TrackId)
    | DialBackoff(tracker: TrackId, delay: int)
    | DialExit(tracker: TrackId)
    | Upgrade(peer: PeerId, node: NodeId, ip: UnsignedIp)
    | ConnectedLock(peer: PeerId)
    | ConnectedCallback(peer: PeerId)
    | GoroutineExit(peer: PeerId, reader: bool)
    | DisconnectedRead(peer: PeerId)
    | DisconnectedConnecting(peer: PeerId)
    | DisconnectedCallback(peer: PeerId)
    | DisconnectedLock(peer: PeerId)
    | StartClose

  const Init := State(EmptyNet, map[], {}, [], false)

  /** Pointers held by the map are never nil. */
  predicate WfNet(net: Net) {
    forall n :: n in net.tracked ==> net.tracked[n] in net.trackers
  }

  function SetPc(s: State, p: PeerId, pc: Pc): State
    requires p in s.peers
  {
    s.(peers := s.peers[p := s.peers[p].(pc := pc)])
  }

  /** When a goroutine may take the step. The peer steps follow network/peer/peer.go: Connected is
      called by the reader, which exits only between messages, and Disconnected by the last of the
      three goroutines to exit. */
  predicate Enabled(s: State, step: Step) {
    match step
    case DialRound(t) => t in s.net.dialers && t in s.net.trackers
    case DialBackoff(t, _) => t in s.net.dialers && t in s.net.trackers
    case DialExit(t) => t in s.net.dialers
    case Upgrade(p, _, _) => p !in s.peers
    case ConnectedLock(p) => p in s.peers && s.peers[p].reading && s.peers[p].pc == Handshaking
    case ConnectedCallback(p) => p in s.peers && s.peers[p].pc == Announcing
    case GoroutineExit(p, reader) =>
      p in s.peers && (if reader then s.peers[p].reading && s.peers[p].pc != Announcing && s.peers[p].executing > 0
                       else s.peers[p].executing > if s.peers[p].reading then 1 else 0)
    case DisconnectedRead(p) =>
      p in s.peers && s.peers[p].executing == 0 && (s.peers[p].pc == Handshaking || s.peers[p].pc == Ready)
    case DisconnectedConnecting(p) => p in s.peers && s.peers[p].pc.Leaving? && s.peers[p].pc.wasConnecting
    case DisconnectedCallback(p) =>
      p in s.peers && s.peers[p].pc.Leaving? && !s.peers[p].pc.wasConnecting && s.peers[p].pc.wasConnected.Some?
    case DisconnectedLock(p) => p in s.peers && s.peers[p].pc.Notified? && s.peers[p].pc.peer in s.peers
    case _ => true
  }

  function Lookup<K, V>(m: map<K, V>, k: K): Option<V> {
    if k in m then Some(m[k]) else None
  }

  /** The steps taken on behalf of an existing peer object. */
  predicate PeerStep(step: Step) {
    step.ConnectedLock? || step.ConnectedCallback? || step.GoroutineExit? || step.DisconnectedRead? ||
    step.DisconnectedConnecting? || step.DisconnectedCallback? || step.DisconnectedLock?
  }

  function ApplyPeer(s: State, step: Step): State
    requires WfNet(s.net) && Enabled(s, step) && PeerStep(step)
  {
    var p := step.peer;
    var peer := s.peers[p];
    match step
    case ConnectedLock(_) =>
      var (net, moved) := ConnectedRegion(s.net, peer.node);
      if moved.None? then SetPc(s, p, Ready).(unexpected := true)
      else SetPc(s, p, Announcing).(net := net)
    case ConnectedCallback(_) => SetPc(s, p, Ready).(log := s.log + [Up(peer.node)])
    case GoroutineExit(_, reader) =>
      s.(peers := s.peers[p := peer.(executing := peer.executing - 1, reading := peer.reading && !reader)])
    case DisconnectedRead(_) =>
      SetPc(s, p, Leaving(peer.node in s.net.connecting, Lookup(s.net.connected, peer.node)))
    case DisconnectedConnecting(_) =>
      SetPc(s, p, if peer.pc.wasConnected.Some? then Leaving(false, peer.pc.wasConnected) else Closed)
        .(net := DisconnectedFromConnecting(s.net, s.vdrs, peer.node))
    case DisconnectedCallback(_) =>
      SetPc(s, p, Notified(peer.pc.wasConnected.value)).(log := s.log + [Down(peer.node)])
    case DisconnectedLock(_) =>
      SetPc(s, p, Closed).(net := DisconnectedFromConnected(s.net, s.vdrs, peer.node, s.peers[peer.pc.peer].ip))
  }

  function ApplyNet(s: State, step: Step): Net
    requires WfNet(s.net) && Enabled(s, step) && !PeerStep(step)
  {
    match step
    case SetValidators(_) => s.net
    case Track(node, ip) => TrackRegion(s.net, s.vdrs, node, ip).0
    case ManuallyTrack(node, address) => ManuallyTrackRegion(s.net, node, address)
    case DialRound(t) =>
      var (net, exit) := DialRegion(s.net, s.vdrs, s.net.trackers[t].node);
      if exit then net.(dialers := net.dialers - {t}) else net
    case DialBackoff(t, delay) =>
      s.net.(trackers := s.net.trackers[t := s.net.trackers[t].(delay := delay)])
    case DialExit(t) => s.net.(dialers := s.net.dialers - {t})
    case Upgrade(p, node, _) => UpgradeRegion(s.net, node, p).0
    case StartClose => if s.net.closing then s.net else StartCloseRegion(s.net)
  }

  function Apply(s: State, step: Step): State
    requires WfNet(s.net) && Enabled(s, step)
  {
    if PeerStep(step) then ApplyPeer(s, step)
    else
      var s1 := s.(net := ApplyNet(s, step));
      if step.SetValidators? then s1.(vdrs := step.vdrs)
      else if step.Upgrade? && UpgradeRegion(s.net, step.node, step.peer).1
      then s1.(peers := s.peers[step.peer := Peer(step.node, step.ip, 3, true, Handshaking)])
      else s1
  }

  predicate Next(s: State, s': State, step: Step) {
    WfNet(s.net) && Enabled(s, step) && s' == Apply(s, step)
  }

  /** `run` visits the states of an execution, `steps` being the steps between them. */
  ghost predicate IsRun(run: seq<State>, steps: seq<Step>) {
    && |run| == |steps| + 1
    && run[0] == Init
    && forall i :: 0 <= i < |steps| ==> Next(run[i], run[i + 1], steps[i])
  }

  // ---- what every step keeps ----------------------------------------------------------------

  predicate Tracks(net: Net, t: TrackId) {
    t in net.trackers && net.trackers[t].node in net.tracked && net.tracked[net.trackers[t].node] == t
  }

  ghost predicate NetInv(net: Net) {
    && (forall n :: n in net.tracked ==> net.tracked[n] in net.trackers && net.trackers[net.tracked[n]].node == n)
    && (forall t :: t in net.trackers ==> t < net.nextTracker && (net.trackers[t].stopped <==> !Tracks(net, t)))
    && net.dialers <= net.trackers.Keys
    && net.connecting.Keys !! net.connected.Keys
    && net.connected.Keys !! net.tracked.Keys
  }

  predicate InConnecting(pc: Pc) {
    pc == Handshaking || pc == Leaving(true, None)
  }

  predicate InConnected(pc: Pc, p: PeerId) {
    pc == Announcing || pc == Ready || pc == Leaving(false, Some(p)) || pc == Notified(p)
  }

  /** The router has been told Connected and not yet Disconnected. */
  predicate RouterUp(pc: Pc) {
    pc == Ready || pc.Leaving?
  }

  ghost predicate PeerOk(net: Net, p: PeerId, peer: Peer) {
    && (InConnecting(peer.pc) ==> peer.node in net.connecting && net.connecting[peer.node] == p)
    && (InConnected(peer.pc, p) ==> peer.node in net.connected && net.connected[peer.node] == p)
    && (InConnecting(peer.pc) || InConnected(peer.pc, p) || peer.pc == Closed)
    && (peer.reading ==> peer.executing > 0)
    && (peer.pc == Announcing ==> peer.reading)
    && (peer.pc.Leaving? || peer.pc.Notified? || peer.pc.Closed? ==> peer.executing == 0)
  }

  ghost predicate ConnectingOk(connecting: map<NodeId, PeerId>, peers: map<PeerId, Peer>) {
    forall n :: n in connecting ==>
      connecting[n] in peers && peers[connecting[n]].node == n && InConnecting(peers[connecting[n]].pc)
  }

  ghost predicate ConnectedOk(connected: map<NodeId, PeerId>, peers: map<PeerId, Peer>) {
    forall n :: n in connected ==>
      connected[n] in peers && peers[connected[n]].node == n && InConnected(peers[connected[n]].pc, connected[n])
  }

  ghost predicate PeersInv(s: State) {
    && (forall p :: p in s.peers ==> PeerOk(s.net, p, s.peers[p]))
    && ConnectingOk(s.net.connecting, s.peers)
    && ConnectedOk(s.net.connected, s.peers)
  }

  /** The events of one node; true is Connected. */
  function Project(log: seq<Event>, node: NodeId): seq<bool> {
    if log == [] then []
    else
      var e := log[|log| - 1];
      Project(log[..|log| - 1], node) + if e.node == node then [e.Up?] else []
  }

  ghost predicate LogInv(s: State) {
    forall n :: Alternating(Project(s.log, n)) &&
      (|Project(s.log, n)| % 2 == 1 <==>
         n in s.net.connected && s.net.connected[n] in s.peers && RouterUp(s.peers[s.net.connected[n]].pc))
  }

  ghost predicate Inv(s: State) {
    NetInv(s.net) && PeersInv(s) && LogInv(s) && !s.unexpected
  }

  lemma UntrackKeeps(net: Net, node: NodeId)
    requires NetInv(net)
    ensures NetInv(Untrack(net, node)) && Untrack(net, node).nextTracker == net.nextTracker
  {
  }

  lemma TrackAndDialKeeps(net: Net, node: NodeId, ip: UnsignedIp, delay: int)
    requires NetInv(net) && node !in net.tracked && node !in net.connected
    ensures NetInv(TrackAndDial(net, node, ip, delay))
  {
  }

  lemma RetrackKeeps(net: Net, node: NodeId, ip: UnsignedIp)
    requires NetInv(net) && node in net.tracked
    ensures NetInv(Retrack(net, node, ip))
  {
  }

  lemma StartCloseKeeps(net: Net)
    requires NetInv(net)
    ensures NetInv(StartCloseRegion(net))
  {
    forall t | t in net.trackers && Tracks(net, t)
      ensures t in net.tracked.Values
    {
      assert net.trackers[t].node in net.tracked;
    }
  }

  /** Only `tracked`, `trackers` and the stop flags matter to the tracking part of the invariant. */
  lemma ChangeRestKeeps(net: Net, net': Net)
    requires NetInv(net)
    requires net'.tracked == net.tracked && net'.nextTracker == net.nextTracker
    requires net'.trackers.Keys == net.trackers.Keys && net'.dialers <= net.dialers
    requires forall t :: t in net.trackers ==>
               net'.trackers[t].stopped == net.trackers[t].stopped && net'.trackers[t].node == net.trackers[t].node
    requires net'.connecting.Keys !! net'.connected.Keys && net'.connected.Keys !! net.tracked.Keys
    ensures NetInv(net')
  {
  }

  lemma TrackKeeps(net: Net, vdrs: set<NodeId>, node: NodeId, ip: UnsignedIp)
    requires NetInv(net)
    ensures NetInv(TrackRegion(net, vdrs, node, ip).0)
  {
    if node !in net.connected {
      if node in net.tracked { RetrackKeeps(net, node, ip); } else { TrackAndDialKeeps(net, node, ip, 0); }
    }
  }

  lemma ManuallyTrackKeeps(net: Net, node: NodeId, address: nat)
    requires NetInv(net)
    ensures NetInv(ManuallyTrackRegion(net, node, address))
  {
    var net1 := net.(manual := net.manual + {node});
    ChangeRestKeeps(net, net1);
    if node !in net.connected && node !in net.tracked { TrackAndDialKeeps(net1, node, UnsignedIp(address, 0), 0); }
  }

  lemma ConnectedKeeps(net: Net, node: NodeId)
    requires NetInv(net)
    ensures NetInv(ConnectedRegion(net, node).0)
  {
    if node in net.connecting {
      UntrackKeeps(net, node);
      ChangeRestKeeps(Untrack(net, node), ConnectedRegion(net, node).0);
    }
  }

  lemma FromConnectingKeeps(net: Net, vdrs: set<NodeId>, node: NodeId)
    requires NetInv(net)
    ensures NetInv(DisconnectedFromConnecting(net, vdrs, node))
  {
    var net1 := net.(connecting := net.connecting - {node});
    ChangeRestKeeps(net, net1);
    if node in net.tracked {
      if Wants(net, vdrs, node) { RetrackKeeps(net1, node, net.trackers[net.tracked[node]].ip); }
      else { UntrackKeeps(net1, node); }
    }
  }

  /** Safe without stopTracking only because a connected node is not tracked. */
  lemma FromConnectedKeeps(net: Net, vdrs: set<NodeId>, node: NodeId, ip: UnsignedIp)
    requires NetInv(net) && node in net.connected
    ensures NetInv(DisconnectedFromConnected(net, vdrs, node, ip))
  {
    var net1 := net.(connected := net.connected - {node});
    ChangeRestKeeps(net, net1);
    if Wants(net, vdrs, node) { TrackAndDialKeeps(net1, node, ip, 0); }
    else { assert net.tracked - {node} == net.tracked; }
  }

  lemma ApplyNetKeeps(s: State, step: Step)
    requires NetInv(s.net) && Enabled(s, step) && !PeerStep(step)
    ensures NetInv(ApplyNet(s, step))
  {
    var net, net' := s.net, ApplyNet(s, step);
    match step
    case SetValidators(_) =>
    case Track(node, ip) => TrackKeeps(net, s.vdrs, node, ip);
    case ManuallyTrack(node, address) => ManuallyTrackKeeps(net, node, address);
    case DialRound(t) =>
      var node := net.trackers[t].node;
      UntrackKeeps(net, node);
      ChangeRestKeeps(DialRegion(net, s.vdrs, node).0, net');
    case DialBackoff(_, _) => ChangeRestKeeps(net, net');
    case DialExit(_) => ChangeRestKeeps(net, net');
    case Upgrade(_, _, _) => ChangeRestKeeps(net, net');
    case StartClose => StartCloseKeeps(net);
  }

  lemma ApplyPeerKeepsNet(s: State, step: Step)
    requires NetInv(s.net) && Enabled(s, step) && PeerStep(step)
    requires step.DisconnectedLock? ==> s.peers[step.peer].node in s.net.connected
    ensures NetInv(ApplyPeer(s, step).net)
  {
    var net, peer := s.net, s.peers[step.peer];
    match step
    case ConnectedLock(_) => ConnectedKeeps(net, peer.node);
    case DisconnectedConnecting(_) => FromConnectingKeeps(net, s.vdrs, peer.node);
    case DisconnectedLock(_) => FromConnectedKeeps(net, s.vdrs, peer.node, s.peers[peer.pc.peer].ip);
    case _ =>
  }

  lemma NetKept(s: State, step: Step)
    requires NetInv(s.net) && Enabled(s, step)
    requires step.DisconnectedLock? ==> s.peers[step.peer].node in s.net.connected
    ensures NetInv(Apply(s, step).net)
  {
    if PeerStep(step) { ApplyPeerKeepsNet(s, step); } else { ApplyNetKeeps(s, step); }
  }

  // ---- peers ----

  ghost predicate SameElsewhere(a: map<NodeId, PeerId>, b: map<NodeId, PeerId>, node: NodeId) {
    forall m :: m != node ==> (m in a <==> m in b) && (m in a && m in b ==> a[m] == b[m])
  }

  /** Two peers of one node are never both outside Closed. */
  lemma OthersOk(s: State, s': State, p: PeerId, q: PeerId)
    requires p in s'.peers && q != p && q in s.peers
    requires PeerOk(s.net, q, s.peers[q])
    requires SameElsewhere(s.net.connecting, s'.net.connecting, s'.peers[p].node)
    requires SameElsewhere(s.net.connected, s'.net.connected, s'.peers[p].node)
    requires s'.peers[p].node in s.net.connecting ==> s.net.connecting[s'.peers[p].node] == p
    requires s'.peers[p].node in s.net.connected ==> s.net.connected[s'.peers[p].node] == p
    ensures PeerOk(s'.net, q, s.peers[q])
  {
  }

  lemma ConnectingMoved(a: map<NodeId, PeerId>, b: map<NodeId, PeerId>, peers: map<PeerId, Peer>, p: PeerId, peer': Peer)
    requires ConnectingOk(a, peers) && SameElsewhere(a, b, peer'.node)
    requires p in peers ==> peers[p].node == peer'.node
    requires peer'.node in b ==> b[peer'.node] == p && InConnecting(peer'.pc)
    ensures ConnectingOk(b, peers[p := peer'])
  {
    forall n | n in b
      ensures var peers' := peers[p := peer'];
              b[n] in peers' && peers'[b[n]].node == n && InConnecting(peers'[b[n]].pc)
    {
      if n != peer'.node { assert a[n] in peers && peers[a[n]].node == n && InConnecting(peers[a[n]].pc); }
    }
  }

  lemma ConnectedMoved(a: map<NodeId, PeerId>, b: map<NodeId, PeerId>, peers: map<PeerId, Peer>, p: PeerId, peer': Peer)
    requires ConnectedOk(a, peers) && SameElsewhere(a, b, peer'.node)
    requires p in peers ==> peers[p].node == peer'.node
    requires peer'.node in b ==> b[peer'.node] == p && InConnected(peer'.pc, p)
    ensures ConnectedOk(b, peers[p := peer'])
  {
    forall n | n in b
      ensures var peers' := peers[p := peer'];
              b[n] in peers' && peers'[b[n]].node == n && InConnected(peers'[b[n]].pc, b[n])
    {
      if n != peer'.node { assert a[n] in peers && peers[a[n]].node == n && InConnected(peers[a[n]].pc, a[n]); }
    }
  }

  /** Peer `p` moved and nothing else did. */
  lemma PeerMoved(s: State, s': State, p: PeerId, peer': Peer)
    requires PeersInv(s) && s.net.connecting.Keys !! s.net.connected.Keys
    requires s'.peers == s.peers[p := peer']
    requires SameElsewhere(s.net.connecting, s'.net.connecting, peer'.node)
    requires SameElsewhere(s.net.connected, s'.net.connected, peer'.node)
    requires if p in s.peers then s.peers[p].node == peer'.node && s.peers[p].pc != Closed
             else peer'.node !in s.net.connecting && peer'.node !in s.net.connected
    requires PeerOk(s'.net, p, peer')
    requires peer'.node in s'.net.connecting ==> InConnecting(peer'.pc)
    requires peer'.node in s'.net.connected ==> InConnected(peer'.pc, p)
    ensures PeersInv(s')
  {
    assert p in s.peers ==> PeerOk(s.net, p, s.peers[p]);
    forall q | q in s'.peers
      ensures PeerOk(s'.net, q, s'.peers[q])
    {
      if q != p { OthersOk(s, s', p, q); }
    }
    ConnectingMoved(s.net.connecting, s'.net.connecting, s.peers, p, peer');
    ConnectedMoved(s.net.connected, s'.net.connected, s.peers, p, peer');
  }

  lemma PeersSame(s: State, s': State)
    requires PeersInv(s)
    requires s'.peers == s.peers && s'.net.connecting == s.net.connecting && s'.net.connected == s.net.connected
    ensures PeersInv(s')
  {
    forall q | q in s'.peers
      ensures PeerOk(s'.net, q, s'.peers[q])
    {
      assert PeerOk(s.net, q, s.peers[q]);
    }
  }

  /** Peer `p`, and only it, stands for its node in whichever collection its position says. */
  ghost predicate Moved(s: State, s': State, p: PeerId)
    requires p in s.peers
  {
    var n := s.peers[p].node;
    && s.peers[p].pc != Closed && p in s'.peers
    && s'.peers == s.peers[p := s'.peers[p]] && s'.peers[p].node == n
    && PeerOk(s'.net, p, s'.peers[p])
    && (n in s'.net.connecting <==> InConnecting(s'.peers[p].pc))
    && (n in s'.net.connected <==> InConnected(s'.peers[p].pc, p))
    && SameElsewhere(s.net.connecting, s'.net.connecting, n)
    && SameElsewhere(s.net.connected, s'.net.connected, n)
    && s'.unexpected == s.unexpected
  }

  lemma LeavingMoves(s: State, step: Step)
    requires step.DisconnectedRead? || step.DisconnectedConnecting? || step.DisconnectedCallback? || step.DisconnectedLock?
    requires WfNet(s.net) && Enabled(s, step) && s.net.connecting.Keys !! s.net.connected.Keys
    requires PeerOk(s.net, step.peer, s.peers[step.peer])
    ensures Moved(s, Apply(s, step), step.peer)
  {
  }

  /** Connected finds its own peer in `connecting`; the branch that logs an error is dead. */
  lemma JoiningMoves(s: State, step: Step)
    requires step.ConnectedLock? || step.ConnectedCallback? || step.GoroutineExit?
    requires WfNet(s.net) && Enabled(s, step) && s.net.connecting.Keys !! s.net.connected.Keys
    requires PeerOk(s.net, step.peer, s.peers[step.peer])
    ensures Moved(s, Apply(s, step), step.peer)
  {
  }

  lemma StepMoves(s: State, step: Step)
    requires NetInv(s.net) && PeersInv(s) && PeerStep(step) && Enabled(s, step)
    ensures Moved(s, Apply(s, step), step.peer)
  {
    assert PeerOk(s.net, step.peer, s.peers[step.peer]);
    if step.ConnectedLock? || step.ConnectedCallback? || step.GoroutineExit? { JoiningMoves(s, step); }
    else { LeavingMoves(s, step); }
  }

  lemma PeersKept(s: State, step: Step)
    requires NetInv(s.net) && PeersInv(s) && Enabled(s, step)
    ensures PeersInv(Apply(s, step)) && Apply(s, step).unexpected == s.unexpected
  {
    var s' := Apply(s, step);
    if PeerStep(step) {
      StepMoves(s, step);
      PeerMoved(s, s', step.peer, s'.peers[step.peer]);
    } else if step.Upgrade? && UpgradeRegion(s.net, step.node, step.peer).1 {
      PeerMoved(s, s', step.peer, s'.peers[step.peer]);
    } else {
      PeersSame(s, s');
    }
  }

  // ---- the router's log ----

  ghost predicate IsUp(s: State, n: NodeId) {
    n in s.net.connected && s.net.connected[n] in s.peers && RouterUp(s.peers[s.net.connected[n]].pc)
  }

  lemma LogSame(s: State, s': State)
    requires LogInv(s) && s'.log == s.log && forall n :: IsUp(s, n) <==> IsUp(s', n)
    ensures LogInv(s')
  {
    forall n
      ensures Alternating(Project(s'.log, n)) && (|Project(s'.log, n)| % 2 == 1 <==> IsUp(s', n))
    {
      assert Alternating(Project(s.log, n)) && (|Project(s.log, n)| % 2 == 1 <==> IsUp(s, n));
    }
  }

  lemma LogGrows(s: State, s': State, e: Event)
    requires LogInv(s) && s'.log == s.log + [e]
    requires IsUp(s, e.node) != IsUp(s', e.node) && (IsUp(s', e.node) <==> e.Up?)
    requires forall n :: n != e.node ==> (IsUp(s, n) <==> IsUp(s', n))
    ensures LogInv(s')
  {
    forall n
      ensures Alternating(Project(s'.log, n)) && (|Project(s'.log, n)| % 2 == 1 <==> IsUp(s', n))
    {
      assert s'.log[..|s.log|] == s.log;
      assert Alternating(Project(s.log, n)) && (|Project(s.log, n)| % 2 == 1 <==> IsUp(s, n));
    }
  }

  lemma UpElsewhere(s: State, step: Step, n: NodeId)
    requires NetInv(s.net) && PeersInv(s) && PeerStep(step) && Enabled(s, step) && n != s.peers[step.peer].node
    ensures IsUp(s, n) <==> IsUp(Apply(s, step), n)
  {
    StepMoves(s, step);
    if n in s.net.connected { assert s.net.connected[n] != step.peer; }
  }

  lemma LogKept(s: State, step: Step)
    requires Inv(s) && Enabled(s, step)
    ensures LogInv(Apply(s, step))
  {
    var s' := Apply(s, step);
    if PeerStep(step) {
      var p := step.peer;
      var n := s.peers[p].node;
      StepMoves(s, step);
      forall m | m != n
        ensures IsUp(s, m) <==> IsUp(s', m)
      {
        UpElsewhere(s, step, m);
      }
      UpHere(s, step);
      if step.ConnectedCallback? {
        LogGrows(s, s', Up(n));
      } else if step.DisconnectedCallback? {
        LogGrows(s, s', Down(n));
      } else {
        LogSame(s, s');
      }
    } else {
      LogSame(s, s');
    }
  }

  lemma UpHere(s: State, step: Step)
    requires NetInv(s.net) && PeersInv(s) && PeerStep(step) && Enabled(s, step)
    ensures var n := s.peers[step.peer].node;
            IsUp(Apply(s, step), n) <==>
              if step.ConnectedCallback? then true else if step.DisconnectedCallback? then false else IsUp(s, n)
    ensures step.ConnectedCallback? ==> !IsUp(s, s.peers[step.peer].node)
    ensures step.DisconnectedCallback? ==> IsUp(s, s.peers[step.peer].node)
  {
    StepMoves(s, step);
  }

  lemma InvKept(s: State, step: Step)
    requires Inv(s) && Enabled(s, step)
    ensures Inv(Apply(s, step))
  {
    if PeerStep(step) { StepMoves(s, step); }
    NetKept(s, step);
    PeersKept(s, step);
    LogKept(s, step);
  }

  // ---- results over whole runs --------------------------------------------------------------

  lemma {:induction false} Reachable(run: seq<State>, steps: seq<Step>, i: nat)
    requires IsRun(run, steps) && i < |run|
    ensures Inv(run[i])
  {
    if i > 0 {
      Reachable(run, steps, i - 1);
      assert Next(run[i - 1], run[i], steps[i - 1]);
      InvKept(run[i - 1], steps[i - 1]);
    }
  }

  /** The router sees Connected, Disconnected, Connected, ... for every node ID. */
  lemma RouterSeesAlternation(run: seq<State>, steps: seq<Step>, i: nat, node: NodeId)
    requires IsRun(run, steps) && i < |run|
    ensures Alternating(Project(run[i].log, node))
  {
    Reachable(run, steps, i);
  }

  /** A peer whose messages reach HandleInbound (handshake finished, reader running) is up for the router. */
  lemma InboundOnlyWhileUp(run: seq<State>, steps: seq<Step>, i: nat, p: PeerId)
    requires IsRun(run, steps) && i < |run|
    requires p in run[i].peers && run[i].peers[p].reading && run[i].peers[p].pc == Ready
    ensures |Project(run[i].log, run[i].peers[p].node)| % 2 == 1
  {
    Reachable(run, steps, i);
    assert PeerOk(run[i].net, p, run[i].peers[p]);
    assert IsUp(run[i], run[i].peers[p].node);
  }

  /** connecting, connected and tracked stay apart, and Connected never meets an unknown node. */
  lemma CollectionsStayApart(run: seq<State>, steps: seq<Step>, i: nat)
    requires IsRun(run, steps) && i < |run|
    ensures run[i].net.connecting.Keys !! run[i].net.connected.Keys
    ensures run[i].net.connected.Keys !! run[i].net.tracked.Keys
    ensures !run[i].unexpected
  {
    Reachable(run, steps, i);
  }

  lemma TrackersPersist(s: State, step: Step)
    requires WfNet(s.net) && Enabled(s, step)
    ensures s.net.trackers.Keys <= Apply(s, step).net.trackers.Keys
  {
    if PeerStep(step) {
      assert s.net.trackers.Keys <= ApplyPeer(s, step).net.trackers.Keys;
    } else {
      assert s.net.trackers.Keys <= ApplyNet(s, step).trackers.Keys;
    }
  }

  lemma {:induction false} TrackersPersistInRun(run: seq<State>, steps: seq<Step>, i: nat, j: nat)
    requires IsRun(run, steps) && i <= j < |run|
    ensures run[i].net.trackers.Keys <= run[j].net.trackers.Keys
  {
    if i < j {
      TrackersPersistInRun(run, steps, i, j - 1);
      assert Next(run[j - 1], run[j], steps[j - 1]);
      TrackersPersist(run[j - 1], steps[j - 1]);
    }
  }

  /** A tracked IP that has left the map has been told to stop; one that is in it has not. */
  lemma LeftTrackersAreStopped(run: seq<State>, steps: seq<Step>, i: nat, j: nat, node: NodeId)
    requires IsRun(run, steps) && i <= j < |run| && node in run[i].net.tracked
    ensures var t := run[i].net.tracked[node];
            t in run[j].net.trackers && (run[j].net.trackers[t].stopped <==> !Tracks(run[j].net, t))
  {
    Reachable(run, steps, i);
    Reachable(run, steps, j);
    TrackersPersistInRun(run, steps, i, j);
  }

  /** No node is dialled by two goroutines that both still want to. */
  lemma OneLiveDialer(run: seq<State>, steps: seq<Step>, i: nat, t: TrackId, u: TrackId)
    requires IsRun(run, steps) && i < |run|
    requires t in run[i].net.dialers && u in run[i].net.dialers
    ensures t in run[i].net.trackers && u in run[i].net.trackers
    ensures run[i].net.trackers[t].node == run[i].net.trackers[u].node ==>
              t == u || run[i].net.trackers[t].stopped || run[i].net.trackers[u].stopped
  {
    Reachable(run, steps, i);
  }

  function TrackedFor(net: Net, node: NodeId): TrackedIp
    requires WfNet(net) && node in net.tracked
  {
    net.trackers[net.tracked[node]]
  }

  /** If `node` is still tracked then its timestamp did not go back and its backoff delay survived. */
  ghost predicate Ages(net: Net, net': Net, node: NodeId)
    requires WfNet(net) && WfNet(net') && node in net.tracked
  {
    node in net'.tracked ==>
      && TrackedFor(net, node).ip.timestamp <= TrackedFor(net', node).ip.timestamp
      && TrackedFor(net, node).delay == TrackedFor(net', node).delay
  }

  lemma TrackAges(net: Net, vdrs: set<NodeId>, m: NodeId, ip: UnsignedIp, node: NodeId)
    requires WfNet(net) && node in net.tracked && net.tracked[node] < net.nextTracker
    requires WfNet(TrackRegion(net, vdrs, m, ip).0)
    ensures Ages(net, TrackRegion(net, vdrs, m, ip).0, node)
  {
  }

  lemma FromConnectingAges(net: Net, vdrs: set<NodeId>, m: NodeId, node: NodeId)
    requires WfNet(net) && node in net.tracked && net.tracked[node] < net.nextTracker
    requires WfNet(DisconnectedFromConnecting(net, vdrs, m))
    ensures Ages(net, DisconnectedFromConnecting(net, vdrs, m), node)
  {
  }

  lemma PeerStepAges(s: State, step: Step, node: NodeId)
    requires WfNet(s.net) && Enabled(s, step) && PeerStep(step) && WfNet(ApplyPeer(s, step).net)
    requires node in s.net.tracked && s.net.tracked[node] < s.net.nextTracker
    requires step.DisconnectedLock? ==> s.peers[step.peer].node != node
    ensures Ages(s.net, ApplyPeer(s, step).net, node)
  {
    if step.DisconnectedConnecting? { FromConnectingAges(s.net, s.vdrs, s.peers[step.peer].node, node); }
  }

  lemma StepAges(s: State, step: Step, node: NodeId)
    requires WfNet(s.net) && Enabled(s, step) && !PeerStep(step) && WfNet(ApplyNet(s, step)) && !step.DialBackoff?
    requires node in s.net.tracked && s.net.tracked[node] < s.net.nextTracker
    ensures Ages(s.net, ApplyNet(s, step), node)
  {
    if step.Track? { TrackAges(s.net, s.vdrs, step.node, step.ip, node); }
  }

  lemma BackoffAges(s: State, step: Step, node: NodeId)
    requires WfNet(s.net) && Enabled(s, step) && step.DialBackoff? && node in s.net.tracked
    ensures node in Apply(s, step).net.tracked && WfNet(Apply(s, step).net)
    ensures TrackedFor(s.net, node).ip == TrackedFor(Apply(s, step).net, node).ip
  {
  }

  /** In the step of a peer that leaves connected, its node is not tracked. */
  lemma LeavesOther(s: State, step: Step, node: NodeId)
    requires Inv(s) && Enabled(s, step) && node in s.net.tracked && step.DisconnectedLock?
    ensures s.peers[step.peer].node != node
  {
    assert PeerOk(s.net, step.peer, s.peers[step.peer]);
  }

  lemma InvGivesAges(s: State, step: Step, node: NodeId)
    requires Inv(s) && Enabled(s, step) && node in s.net.tracked
    ensures WfNet(Apply(s, step).net)
    ensures !step.DialBackoff? ==> Ages(s.net, Apply(s, step).net, node)
    ensures node in Apply(s, step).net.tracked ==>
              TrackedFor(s.net, node).ip.timestamp <= TrackedFor(Apply(s, step).net, node).ip.timestamp
  {
    NetKept(s, step);
    if PeerStep(step) {
      if step.DisconnectedLock? { LeavesOther(s, step, node); }
      PeerStepAges(s, step, node);
    } else if step.DialBackoff? {
      BackoffAges(s, step, node);
    } else {
      StepAges(s, step, node);
    }
  }

  ghost predicate NotOlder(net: Net, net': Net, node: NodeId) {
    && WfNet(net) && WfNet(net') && node in net.tracked && node in net'.tracked
    && TrackedFor(net, node).ip.timestamp <= TrackedFor(net', node).ip.timestamp
  }

  lemma TimestampsInOneStep(run: seq<State>, steps: seq<Step>, k: nat, node: NodeId)
    requires IsRun(run, steps) && k + 1 < |run| && node in run[k].net.tracked && node in run[k + 1].net.tracked
    ensures NotOlder(run[k].net, run[k + 1].net, node)
  {
    Reachable(run, steps, k);
    assert Next(run[k], run[k + 1], steps[k]);
    InvGivesAges(run[k], steps[k], node);
  }

  /** While a node stays tracked its timestamp never decreases. */
  lemma {:induction false} TimestampsNeverDecrease(run: seq<State>, steps: seq<Step>, i: nat, j: nat, node: NodeId)
    requires IsRun(run, steps) && i <= j < |run|
    requires forall k :: i <= k <= j ==> node in run[k].net.tracked
    ensures NotOlder(run[i].net, run[j].net, node)
  {
    if i == j {
      Reachable(run, steps, i);
    } else {
      TimestampsNeverDecrease(run, steps, i, j - 1, node);
      TimestampsInOneStep(run, steps, j - 1, node);
    }
  }

  function Members(net: Net): set<NodeId> {
    net.connecting.Keys + net.connected.Keys
  }

  lemma ClosedGainsNothing(s: State, step: Step)
    requires WfNet(s.net) && Enabled(s, step) && s.net.closing
    ensures Apply(s, step).net.closing && Members(Apply(s, step).net) <= Members(s.net)
  {
  }

  /** Once closing, no node joins connecting or connected. */
  lemma {:induction false} ShutdownAdmitsNobody(run: seq<State>, steps: seq<Step>, i: nat, j: nat)
    requires IsRun(run, steps) && i <= j < |run| && run[i].net.closing
    ensures run[j].net.closing && Members(run[j].net) <= Members(run[i].net)
  {
    if i < j {
      ShutdownAdmitsNobody(run, steps, i, j - 1);
      assert Next(run[j - 1], run[j], steps[j - 1]);
      ClosedGainsNothing(run[j - 1], steps[j - 1]);
    }
  }

  /** The steps that begin to track a node, none of which looks at `closing`. */
  predicate BeginsTracking(s: State, step: Step, node: NodeId) {
    match step
    case Track(n, _) => n == node && node !in s.net.connected && Wants(s.net, s.vdrs, node)
    case ManuallyTrack(n, _) => n == node && node !in s.net.connected
    case DisconnectedLock(p) => p in s.peers && s.peers[p].node == node && Wants(s.net, s.vdrs, node)
    case _ => false
  }

  /** The node is tracked under an address that has not been stopped and has a dial goroutine. */
  predicate Dialled(net: Net, node: NodeId) {
    && node in net.tracked && net.tracked[node] in net.trackers && net.tracked[node] in net.dialers
    && !net.trackers[net.tracked[node]].stopped
  }

  /** Closing or not, exactly these steps put an untracked node among the tracked ones, each time with an
      address that has not been stopped and a new dial goroutine. */
  lemma TrackedAgain(s: State, step: Step, node: NodeId)
    requires WfNet(s.net) && Enabled(s, step) && node !in s.net.tracked
    ensures var net := Apply(s, step).net;
            && (node in net.tracked <==> BeginsTracking(s, step, node))
            && (node in net.tracked ==> Dialled(net, node))
  {
    if PeerStep(step) { LeavingTracks(s, step, node); } else { NetTracks(s, step, node); }
  }

  lemma LeavingTracks(s: State, step: Step, node: NodeId)
    requires WfNet(s.net) && Enabled(s, step) && node !in s.net.tracked && PeerStep(step)
    ensures Dialled(ApplyPeer(s, step).net, node) <==> BeginsTracking(s, step, node)
    ensures node in ApplyPeer(s, step).net.tracked ==> Dialled(ApplyPeer(s, step).net, node)
  {
  }

  lemma NetTracks(s: State, step: Step, node: NodeId)
    requires WfNet(s.net) && Enabled(s, step) && node !in s.net.tracked && !PeerStep(step)
    ensures Dialled(ApplyNet(s, step), node) <==> BeginsTracking(s, step, node)
    ensures node in ApplyNet(s, step).tracked ==> Dialled(ApplyNet(s, step), node)
  {
  }

  // ---- a run in which a node comes back -----------------------------------------------------

  function Last(run: seq<State>): State
    requires run != []
  {
    run[|run| - 1]
  }

  lemma Extend(run: seq<State>, steps: seq<Step>, step: Step) returns (run': seq<State>, steps': seq<Step>)
    requires IsRun(run, steps) && WfNet(Last(run).net) && Enabled(Last(run), step)
    ensures IsRun(run', steps') && Last(run') == Apply(Last(run), step) && run <= run' && |run'| == |run| + 1
  {
    run', steps' := run + [Apply(Last(run), step)], steps + [step];
    forall i | 0 <= i < |steps'|
      ensures Next(run'[i], run'[i + 1], steps'[i])
    {
      if i < |steps| { assert Next(run[i], run[i + 1], steps[i]); }
    }
  }

  /** The node is wanted, and peer p, the newest one, stands at this point of its life. */
  ghost predicate At(s: State, p: PeerId, node: NodeId, executing: nat, reading: bool, pc: Pc, log: seq<Event>) {
    && Inv(s) && s.log == log && node in s.net.manual && !s.net.closing && (forall q :: q in s.peers ==> q <= p)
    && p in s.peers && s.peers[p] == Peer(node, UnsignedIp(1, 1), executing, reading, pc)
  }

  /** The node is wanted and nowhere; every peer so far is below p. */
  ghost predicate Away(s: State, p: PeerId, node: NodeId, log: seq<Event>) {
    && Inv(s) && s.log == log && node in s.net.manual && !s.net.closing && (forall q :: q in s.peers ==> q < p)
    && node !in s.net.connecting && node !in s.net.connected
  }

  lemma Arrive(run: seq<State>, steps: seq<Step>, p: PeerId, node: NodeId, log: seq<Event>)
    returns (run': seq<State>, steps': seq<Step>)
    requires IsRun(run, steps) && Away(Last(run), p, node, log)
    ensures IsRun(run', steps') && At(Last(run'), p, node, 3, true, Handshaking, log)
  {
    var step := Upgrade(p, node, UnsignedIp(1, 1));
    InvKept(Last(run), step);
    run', steps' := Extend(run, steps, step);
  }

  /** The handshake ends and the router is told. */
  lemma Join(run: seq<State>, steps: seq<Step>, p: PeerId, node: NodeId, log: seq<Event>)
    returns (run': seq<State>, steps': seq<Step>)
    requires IsRun(run, steps) && At(Last(run), p, node, 3, true, Handshaking, log)
    ensures IsRun(run', steps') && At(Last(run'), p, node, 3, true, Ready, log + [Up(node)])
  {
    run', steps' := Connect(run, steps, p, node, log);
    InvKept(Last(run'), ConnectedCallback(p));
    run', steps' := Extend(run', steps', ConnectedCallback(p));
  }

  lemma Connect(run: seq<State>, steps: seq<Step>, p: PeerId, node: NodeId, log: seq<Event>)
    returns (run': seq<State>, steps': seq<Step>)
    requires IsRun(run, steps) && At(Last(run), p, node, 3, true, Handshaking, log)
    ensures IsRun(run', steps') && At(Last(run'), p, node, 3, true, Announcing, log)
  {
    InvKept(Last(run), ConnectedLock(p));
    JoiningMoves(Last(run), ConnectedLock(p));
    run', steps' := Extend(run, steps, ConnectedLock(p));
  }

  /** One goroutine of the peer exits. */
  lemma ExitOne(run: seq<State>, steps: seq<Step>, p: PeerId, node: NodeId, executing: nat, reading: bool, log: seq<Event>)
    returns (run': seq<State>, steps': seq<Step>)
    requires IsRun(run, steps) && At(Last(run), p, node, executing, reading, Ready, log) && executing > 0
    ensures IsRun(run', steps') && At(Last(run'), p, node, executing - 1, false, Ready, log)
  {
    InvKept(Last(run), GoroutineExit(p, reading));
    run', steps' := Extend(run, steps, GoroutineExit(p, reading));
  }

  /** The last goroutine is gone: Disconnected runs. */
  lemma Depart(run: seq<State>, steps: seq<Step>, p: PeerId, node: NodeId, log: seq<Event>)
    returns (run': seq<State>, steps': seq<Step>)
    requires IsRun(run, steps) && At(Last(run), p, node, 0, false, Ready, log)
    ensures IsRun(run', steps') && At(Last(run'), p, node, 0, false, Notified(p), log + [Down(node)])
  {
    assert PeerOk(Last(run).net, p, Last(run).peers[p]);
    InvKept(Last(run), DisconnectedRead(p));
    run', steps' := Extend(run, steps, DisconnectedRead(p));
    InvKept(Last(run'), DisconnectedCallback(p));
    run', steps' := Extend(run', steps', DisconnectedCallback(p));
  }

  lemma Forget(run: seq<State>, steps: seq<Step>, p: PeerId, node: NodeId, log: seq<Event>)
    returns (run': seq<State>, steps': seq<Step>)
    requires IsRun(run, steps) && At(Last(run), p, node, 0, false, Notified(p), log)
    ensures IsRun(run', steps') && Away(Last(run'), p + 1, node, log)
  {
    assert PeerOk(Last(run).net, p, Last(run).peers[p]);
    InvKept(Last(run), DisconnectedLock(p));
    run', steps' := Extend(run, steps, DisconnectedLock(p));
  }

  /** A wanted node that is away can connect and disconnect once more. */
  lemma OneMoreVisit(run: seq<State>, steps: seq<Step>, p: PeerId, node: NodeId, log: seq<Event>)
    returns (run': seq<State>, steps': seq<Step>)
    requires IsRun(run, steps) && Away(Last(run), p, node, log)
    ensures IsRun(run', steps') && Away(Last(run'), p + 1, node, log + [Up(node)] + [Down(node)])
  {
    run', steps' := Arrive(run, steps, p, node, log);
    run', steps' := Join(run', steps', p, node, log);
    run', steps' := ExitOne(run', steps', p, node, 3, true, log + [Up(node)]);
    run', steps' := ExitOne(run', steps', p, node, 2, false, log + [Up(node)]);
    run', steps' := ExitOne(run', steps', p, node, 1, false, log + [Up(node)]);
    run', steps' := Depart(run', steps', p, node, log + [Up(node)]);
    run', steps' := Forget(run', steps', p, node, log + [Up(node)] + [Down(node)]);
  }

  /** The alternation is not for want of events: there are runs in which a node comes and goes any
      number of times, each time as a new peer object. */
  lemma {:induction false} AnyNumberOfVisits(node: NodeId, visits: nat)
    returns (run: seq<State>, steps: seq<Step>, log: seq<Event>)
    ensures IsRun(run, steps) && Away(Last(run), visits, node, log) && |Project(log, node)| == 2 * visits
  {
    if visits == 0 {
      assert IsRun([Init], []);
      InvKept(Init, ManuallyTrack(node, 0));
      run, steps := Extend([Init], [], ManuallyTrack(node, 0));
      log := [];
    } else {
      run, steps, log := AnyNumberOfVisits(node, visits - 1);
      run, steps := OneMoreVisit(run, steps, visits - 1, node, log);
      var log' := log + [Up(node)] + [Down(node)];
      assert log'[..|log'| - 1] == log + [Up(node)] && (log + [Up(node)])[..|log|] == log;
      log := log';
    }
  }

  lemma Leave(node: NodeId) returns (run: seq<State>, steps: seq<Step>, log: seq<Event>)
    ensures IsRun(run, steps) && At(Last(run), 0, node, 0, false, Notified(0), log)
  {
    run, steps, log := AnyNumberOfVisits(node, 0);
    run, steps := Arrive(run, steps, 0, node, log);
    run, steps := Join(run, steps, 0, node, log);
    log := log + [Up(node)];
    run, steps := ExitOne(run, steps, 0, node, 3, true, log);
    run, steps := ExitOne(run, steps, 0, node, 2, false, log);
    run, steps := ExitOne(run, steps, 0, node, 1, false, log);
    run, steps := Depart(run, steps, 0, node, log);
    log := log + [Down(node)];
  }

  /** A wanted node can be tracked again after StartClose: when its peer is on its way out by then. */
  lemma TrackedAfterClosing(node: NodeId) returns (run: seq<State>, steps: seq<Step>)
    ensures IsRun(run, steps) && |run| > 1
    ensures run[|run| - 2].net.closing && run[|run| - 2].net.tracked == map[] && Dialled(Last(run).net, node)
  {
    var log;
    run, steps, log := Leave(node);
    run, steps := Extend(run, steps, StartClose);
    var before := run;
    TrackedAgain(Last(run), DisconnectedLock(0), node);
    run, steps := Extend(run, steps, DisconnectedLock(0));
    assert run[|before| - 1] == Last(before);
  }
}

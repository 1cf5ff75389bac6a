/**
 The controller's shared mutable objects: servers with their release functions, the server
 manager (protocube/server/manager.go), the node manager (protocube/node/manager.go), and the
 request handlers that combine them. Every handler is proved to take the step of module Cluster.
 */
module Controller {
  import opened Wrappers
  import opened PortAllocator
  import opened Nodes
  import Balancer
  import C = Cluster

  /** The release closure of a server's allocation, by what it captured. */
  datatype Release = Unset | ViaNode(node: Node) | ViaAllocator(allocator: Allocator)

  class Server {
    const id: string
    const nodeId: string
    const slot: Slot
    var nodeName: string
    var client: Option<NodeClient>
    var release: Release

    constructor (id: string, nodeId: string, nodeName: string, slot: Slot, client: Option<NodeClient>, release: Release)
      ensures this.id == id && this.nodeId == nodeId && this.slot == slot
      ensures this.nodeName == nodeName && this.client == client && this.release == release
    {
      this.id, this.nodeId, this.nodeName, this.slot := id, nodeId, nodeName, slot;
      this.client, this.release := client, release;
    }

    ghost function View(): C.ServerView
      reads this
    {
      C.ServerView(nodeId, nodeName, slot, client,
                   match release
                   case Unset => C.Unset
                   case ViaNode(_) => C.ThroughNode
                   case ViaAllocator(_) => C.ThroughAllocator)
    }
  }

  /** The slots that the servers of a node hold inside the node's ranges. */
  ghost function SlotsOf(servers: set<Server>, nodeId: string, ranges: Ranges): set<Slot> {
    set s | s in servers && s.nodeId == nodeId && InRange(ranges, s.slot) :: s.slot
  }

  lemma SlotsOfIsLive(servers: map<string, Server>, views: map<string, C.ServerView>, nodeId: string, ranges: Ranges)
    requires servers.Keys == views.Keys
    requires forall id :: id in servers ==> views[id].node == servers[id].nodeId && views[id].slot == servers[id].slot
    ensures SlotsOf(servers.Values, nodeId, ranges) == C.LiveSlots(views, nodeId, ranges)
  {
    var held, live := SlotsOf(servers.Values, nodeId, ranges), C.LiveSlots(views, nodeId, ranges);
    forall x | x in live ensures x in held {
      var id :| id in views && views[id].node == nodeId && InRange(ranges, views[id].slot) && views[id].slot == x;
      assert servers[id] in servers.Values;
    }
    forall x | x in held ensures x in live {
      var s :| s in servers.Values && s.nodeId == nodeId && InRange(ranges, s.slot) && s.slot == x;
      var id :| id in servers && servers[id] == s;
      assert id in views;
    }
  }

  ghost function WithClaimed(b: Book, slots: set<Slot>): Book {
    b.(taken := b.taken + slots)
  }

  ghost predicate BoundTo(s: Server, node: Node)
    reads s
  {
    s.client == Some(node.client) && s.release == ViaNode(node) && s.nodeName == node.name
  }

  class ServerManager {
    var servers: map<string, Server>

    ghost predicate Valid()
      reads this
    {
      forall id :: id in servers ==> servers[id].id == id
    }

    constructor ()
      ensures servers == map[]
    {
      servers := map[];
    }

    ghost function View(): map<string, C.ServerView>
      reads this, servers.Values
    {
      map id | id in servers :: servers[id].View()
    }

    method Add(s: Server)
      requires Valid()
      modifies this
      ensures Valid() && servers == old(servers)[s.id := s]
    {
      servers := servers[s.id := s];
    }

    method Remove(id: string)
      requires Valid()
      modifies this
      ensures Valid() && servers == old(servers) - {id}
    {
      servers := servers - {id};
    }

    /** The servers of a node, in no particular order. */
    method ServersByNode(nodeId: string) returns (r: seq<Server>)
      requires Valid()
      ensures forall s :: s in r <==> s in servers.Values && s.nodeId == nodeId
    {
      r := [];
      var todo := servers.Keys;
      while todo != {}
        invariant todo <= servers.Keys
        invariant forall s :: s in r <==> s.id in servers && s.id !in todo && servers[s.id] == s && s.nodeId == nodeId
      {
        var id :| id in todo;
        var s := servers[id];
        if s.nodeId == nodeId {
          r := r + [s];
        }
        todo := todo - {id};
      }
    }

    static method AttachOne(s: Server, node: Node)
      requires node.allocator != null
      modifies s, node.allocator
      ensures BoundTo(s, node)
      ensures node.allocator.Contents() == ClaimIn(old(node.allocator.Contents()), s.slot)
    {
      s.client := Some(node.client);
      s.nodeName := node.name;
      node.allocator.Claim(s.slot.ip, s.slot.port);
      s.release := ViaNode(node);
    }

    /** Binds the node's servers to its current client, claims their ports and points their
        release functions at the node. */
    method AttachNodeClientToServers(nodeId: string, node: Node)
      requires Valid() && node.allocator != null
      modifies servers.Values, node.allocator
      ensures forall id :: id in servers && servers[id].nodeId == nodeId ==> BoundTo(servers[id], node)
      ensures forall id :: id in servers && servers[id].nodeId != nodeId ==> unchanged(servers[id])
      ensures node.allocator.Contents()
              == WithClaimed(old(node.allocator.Contents()), SlotsOf(servers.Values, nodeId, node.allocator.Allocations))
    {
      var list := ServersByNode(nodeId);
      ghost var start := node.allocator.Contents();
      ghost var ranges := node.allocator.Allocations;
      var i := 0;
      while i < |list|
        invariant 0 <= i <= |list|
        invariant forall s :: s in list[..i] ==> BoundTo(s, node)
        invariant forall s :: s in servers.Values && s !in list[..i] ==> unchanged(s)
        invariant node.allocator.Contents()
                  == WithClaimed(start, set s | s in list[..i] && InRange(ranges, s.slot) :: s.slot)
      {
        var s := list[i];
        assert s in servers.Values;
        AttachOne(s, node);
        assert list[..i + 1] == list[..i] + [s];
        i := i + 1;
      }
      assert list[..i] == list;
      assert (set s | s in list && InRange(ranges, s.slot) :: s.slot) == SlotsOf(servers.Values, nodeId, ranges);
    }

    method DetachNodeClientFromServers(nodeId: string)
      requires Valid()
      modifies servers.Values
      ensures forall id :: id in servers && servers[id].nodeId == nodeId
                           ==> servers[id].client == None && servers[id].release == Unset
                               && servers[id].nodeName == old(servers[id].nodeName)
      ensures forall id :: id in servers && servers[id].nodeId != nodeId ==> unchanged(servers[id])
    {
      var list := ServersByNode(nodeId);
      var i := 0;
      while i < |list|
        invariant 0 <= i <= |list|
        invariant forall s :: s in list[..i] ==> s.client == None && s.release == Unset
        invariant forall s :: s in servers.Values ==> old(allocated(s)) && s.nodeName == old(s.nodeName)
        invariant forall s :: s in servers.Values && s !in list[..i] ==> unchanged(s)
      {
        var s := list[i];
        assert s in servers.Values;
        s.client := None;
        s.release := Unset;
        assert list[..i + 1] == list[..i] + [s];
        i := i + 1;
      }
      assert list[..i] == list;
    }

    /** Allocates a port on the node, builds the server and asks the node to create it. `outcome` says
        which of the later steps fails, if any; the deferred rollback removes the server again but
        does not give the port back. */
    method CreateServer(node: Node, serverId: string, order: seq<string>, outcome: C.Outcome)
      returns (r: Option<Server>)
      requires Valid() && serverId !in servers
      requires node.allocator != null ==> node.allocator.Valid() && IsShuffle(order, node.allocator.Allocations)
      modifies this, node.allocator
      ensures Valid()
      ensures r.Some? ==> fresh(r.value)
      ensures node.allocator == null ==> r == None && servers == old(servers)
      ensures node.allocator != null ==>
                match PickSlot(old(node.allocator.Contents()), order)
                case None => r == None && servers == old(servers) && node.allocator.Contents() == old(node.allocator.Contents())
                case Some(slot) =>
                  && node.allocator.Contents() == ClaimIn(old(node.allocator.Contents()), slot)
                  && if outcome == C.Created then
                       && r.Some? && servers == old(servers)[serverId := r.value] && r.value.id == serverId
                       && r.value.View() == C.ServerView(node.id, node.name, slot, Some(node.client), C.ThroughAllocator)
                       && r.value.release == ViaAllocator(node.allocator)
                     else
                       r == None && servers == old(servers)
    {
      if node.allocator == null {
        return None;
      }
      var allocator: Allocator := node.allocator;
      var alloc := allocator.NewAllocation(order);
      if alloc.Failure? {
        return None;
      }
      var s := new Server(serverId, node.id, node.name, alloc.value, Some(node.client), ViaAllocator(allocator));
      if outcome == C.BuildFails {
        Remove(serverId);
        assert servers == old(servers);
        return None;
      }
      Add(s);
      if outcome == C.StoreFails || outcome == C.RemoteFails {
        Remove(serverId);
        assert servers == old(servers);
        return None;
      }
      return Some(s);
    }

    /** Releases the server's port and forgets the server. A release through a node that has no
        allocator is a nil dereference, and everything after it is skipped. */
    method CleanupForDestroy(s: Server) returns (panicked: bool)
      requires Valid()
      modifies this, match s.release case Unset => {} case ViaNode(n) => {n.allocator} case ViaAllocator(a) => {a}
      ensures Valid()
      ensures panicked <==> s.release.ViaNode? && s.release.node.allocator == null
      ensures servers == if panicked then old(servers) else old(servers) - {s.id}
      ensures s.release.ViaNode? && !panicked ==>
                s.release.node.allocator.Contents() == ReleaseIn(old(s.release.node.allocator.Contents()), s.slot)
      ensures s.release.ViaAllocator? ==>
                s.release.allocator.Contents() == ReleaseIn(old(s.release.allocator.Contents()), s.slot)
    {
      match s.release {
        case Unset =>
        case ViaNode(n) =>
          if n.allocator == null {
            return true;
          }
          n.allocator.Release(s.slot.ip, s.slot.port);
        case ViaAllocator(a) =>
          a.Release(s.slot.ip, s.slot.port);
      }
      Remove(s.id);
      return false;
    }
  }

  class NodeManager {
    const lb: Balancer.RoundRobin
    /** The receiver of the registration and disconnection callbacks. */
    const serverManager: ServerManager
    var nodes: map<string, Node>

    constructor (lb: Balancer.RoundRobin, serverManager: ServerManager)
      ensures this.lb == lb && this.serverManager == serverManager && nodes == map[]
    {
      this.lb, this.serverManager, nodes := lb, serverManager, map[];
    }

    ghost function Allocators(): set<object>
      reads this, nodes.Values
    {
      set n | n in nodes.Values && n.allocator != null :: n.allocator
    }

    /** Every node other than `id` stands as it did. */
    twostate predicate OthersUntouched(new id: string)
      reads this, nodes.Values, Allocators()
    {
      forall i :: i in nodes && i != id ==>
        && i in old(nodes) && old(allocated(nodes[i])) && nodes[i] == old(nodes[i]) && unchanged(nodes[i])
        && (nodes[i].allocator != null ==> old(allocated(nodes[i].allocator)) && unchanged(nodes[i].allocator))
    }

    twostate lemma OthersStand(new id: string)
      requires forall i :: i in nodes && i != id ==> i in old(nodes) && nodes[i] == old(nodes)[i]
      requires forall i :: i in old(nodes) ==> unchanged(old(nodes[i]))
      requires forall i :: i in old(nodes) && old(nodes[i].allocator) != null ==> unchanged(old(nodes[i].allocator))
      ensures OthersUntouched(id)
    {
    }

    /** `node` is registered under its id and its servers are bound to it; nothing else changed. */
    twostate predicate Attached(new node: Node)
      reads this, nodes.Values, Allocators(), serverManager, serverManager.servers.Values
    {
      && nodes == old(nodes)[node.id := node] && serverManager.servers == old(serverManager.servers)
      && OthersUntouched(node.id)
      && forall id :: id in serverManager.servers ==>
           && old(allocated(serverManager.servers[id]))
           && if serverManager.servers[id].nodeId == node.id then BoundTo(serverManager.servers[id], node)
              else unchanged(serverManager.servers[id])
    }

    twostate predicate Detached(new id: string)
      reads this, nodes.Values, Allocators(), serverManager, serverManager.servers.Values
    {
      && nodes == old(nodes) - {id} && serverManager.servers == old(serverManager.servers)
      && OthersUntouched(id)
      && forall i :: i in serverManager.servers ==>
           && old(allocated(serverManager.servers[i]))
           && if serverManager.servers[i].nodeId == id
              then serverManager.servers[i].client == None && serverManager.servers[i].release == Unset
                   && serverManager.servers[i].nodeName == old(serverManager.servers[i].nodeName)
              else unchanged(serverManager.servers[i])
    }

    /** Creates the node and makes it known to the balancer and the manager. */
    method Add(id: string, name: string, client: NodeClient, drained: bool, alloc: Allocator) returns (n: Node)
      requires lb.Valid()
      modifies this, lb
      ensures fresh(n) && n.id == id && n.name == name && n.client == client && n.drained == drained && n.allocator == alloc
      ensures nodes == old(nodes)[id := n]
      ensures lb.Valid() && lb.index == old(lb.index) && lb.nodeMap.Keys == old(lb.nodeMap).Keys + {id}
      ensures lb.nodes == if id in old(lb.nodeMap) then old(lb.nodes)[old(lb.nodeMap)[id] := n] else old(lb.nodes) + [n]
    {
      n := new Node(id, name, client, drained, alloc);
      lb.AddNode(n);
      nodes := nodes[id := n];
    }

    /** Creates the node and makes it known, then binds the servers it already has. */
    method Register(id: string, name: string, client: NodeClient, drained: bool, alloc: Allocator) returns (n: Node)
      requires lb.Valid() && serverManager.Valid() && alloc !in Allocators()
      modifies this, lb, serverManager.servers.Values, alloc
      ensures fresh(n) && n.id == id && n.name == name && n.client == client && n.drained == drained && n.allocator == alloc
      ensures Attached(n)
      ensures lb.Valid() && lb.index == old(lb.index) && lb.nodeMap.Keys == old(lb.nodeMap).Keys + {id}
      ensures lb.nodes == if id in old(lb.nodeMap) then old(lb.nodes)[old(lb.nodeMap)[id] := n] else old(lb.nodes) + [n]
      ensures alloc.Contents()
              == WithClaimed(old(alloc.Contents()), SlotsOf(serverManager.servers.Values, id, alloc.Allocations))
    {
      n := Add(id, name, client, drained, alloc);
      label known:
      serverManager.AttachNodeClientToServers(id, n);
      assert unchanged@known(lb, this);
      forall i | i in old(nodes) && old(nodes[i].allocator) != null ensures unchanged(old(nodes[i].allocator)) {
        assert old(nodes[i].allocator) in old(Allocators());
      }
      OthersStand(id);
    }

    method Disconnect(node: Node)
      requires lb.Valid() && serverManager.Valid()
      modifies this, lb, serverManager.servers.Values
      ensures Detached(node.id)
      ensures lb.Valid() && lb.nodeMap.Keys == old(lb.nodeMap).Keys - {node.id}
      ensures forall i :: 0 <= i < |lb.nodes| ==> lb.nodes[i] in old(lb.nodes)
      ensures lb.SwapRemoved(node.id)
    {
      lb.RemoveNode(node);
      serverManager.DetachNodeClientFromServers(node.id);
      nodes := nodes - {node.id};
      OthersStand(node.id);
    }
  }

  class Router {
    const lb: Balancer.RoundRobin
    const sm: ServerManager
    const nm: NodeManager

    ghost predicate ReleaseMatches(s: Server)
      reads s, nm, nm.nodes.Values
    {
      match s.release
      case Unset => true
      case ViaNode(n) => n.id == s.nodeId && n.id in nm.nodes && nm.nodes[n.id] == n
      case ViaAllocator(a) => a.owner == s.nodeId && s.nodeId in nm.nodes && nm.nodes[s.nodeId].allocator in {null, a}
    }

    ghost predicate ServersMatch(v: C.View)
      reads sm, sm.servers.Values, nm, nm.nodes.Values
    {
      && sm.servers.Keys == v.servers.Keys
      && forall id :: id in sm.servers ==> sm.servers[id].id == id && v.servers[id] == sm.servers[id].View()
                                           && ReleaseMatches(sm.servers[id])
    }

    ghost predicate IsAbout(n: Node, nv: C.NodeView)
      reads n
    {
      nv.name == n.name && nv.client == n.client && nv.drained == n.drained
    }

    ghost predicate NodeMatches(n: Node, nv: C.NodeView)
      reads n, n.allocator
    {
      && IsAbout(n, nv)
      && match n.allocator
         case null => nv.book == None
         case a => a.owner == n.id && a.Valid() && nv.book == Some(a.Contents())
    }

    ghost predicate NodesMatch(v: C.View)
      reads nm, nm.nodes.Values, nm.Allocators()
    {
      && nm.nodes.Keys == v.nodes.Keys
      && forall id :: id in nm.nodes ==> nm.nodes[id].id == id && NodeMatches(nm.nodes[id], v.nodes[id])
    }

    ghost predicate BalancerMatches(v: C.View)
      reads lb, nm
    {
      && lb.Valid() && lb.nodeMap.Keys == v.balanced == nm.nodes.Keys
      && forall i :: 0 <= i < |lb.nodes| ==> nm.nodes[lb.nodes[i].id] == lb.nodes[i]
    }

    ghost predicate Owned(repr: set<object>)
      reads sm, sm.servers.Values, nm, nm.nodes.Values
    {
      && {lb, sm, nm} <= repr
      && nm.lb == lb && nm.serverManager == sm
      && (forall id :: id in sm.servers ==> sm.servers[id] in repr)
      && (forall id :: id in sm.servers && sm.servers[id].release.ViaAllocator? ==> sm.servers[id].release.allocator in repr)
      && (forall id :: id in nm.nodes ==> nm.nodes[id] in repr)
      && (forall id :: id in nm.nodes && nm.nodes[id].allocator != null ==> nm.nodes[id].allocator in repr)
    }

    /** The objects, all within `repr`, amount to `v`, and every release function leads to the
        allocator it should. */
    ghost predicate Matches(v: C.View, repr: set<object>)
      reads sm, sm.servers.Values, nm, nm.nodes.Values, nm.Allocators(), lb
    {
      Owned(repr) && ServersMatch(v) && NodesMatch(v) && BalancerMatches(v)
    }

    constructor ()
      ensures fresh(lb) && fresh(sm) && fresh(nm)
      ensures Matches(C.View(map[], map[], {}), {lb, sm, nm})
    {
      var lb' := new Balancer.RoundRobin();
      var sm' := new ServerManager();
      var nm' := new NodeManager(lb', sm');
      lb, sm, nm := lb', sm', nm';
    }

    /** A registered node is where the balancer looks, and is as drained as the state machine says; so a round of
        picks returns it exactly if it is not drained. */
    lemma RegisteredIsBalanced(v: C.View, repr: set<object>, id: string)
      requires Matches(v, repr) && id in v.nodes
      ensures id in nm.nodes && IsAbout(nm.nodes[id], v.nodes[id]) && nm.nodes[id] in lb.nodes
      ensures id in lb.nodeMap && lb.nodeMap[id] < |lb.nodes| && lb.nodes[lb.nodeMap[id]] == nm.nodes[id]
      ensures lb.nodeMap[id] in Balancer.Undrained(lb.Flags()) <==> !v.nodes[id].drained
    {
      var i := lb.nodeMap[id];
      assert nm.nodes[lb.nodes[i].id] == lb.nodes[i];
      assert NodeMatches(nm.nodes[id], v.nodes[id]);
      assert lb.Flags()[i] == lb.nodes[i].drained;
    }

    /** Only the balancer's cursor moved. */
    twostate lemma CursorMovedMatches(new v: C.View, repr: set<object>)
      requires old(Matches(v, repr)) && unchanged(nm) && unchanged(lb`nodes, lb`nodeMap) && lb.Valid()
      requires unchanged(sm) && forall id :: id in sm.servers ==> unchanged(sm.servers[id])
      requires forall id :: id in nm.nodes ==>
                 unchanged(nm.nodes[id]) && (nm.nodes[id].allocator != null ==> unchanged(nm.nodes[id].allocator))
      ensures Matches(v, repr)
    {
      forall id | id in nm.nodes ensures NodeMatches(nm.nodes[id], v.nodes[id]) {
        assert old(NodeMatches(nm.nodes[id], v.nodes[id]));
      }
      forall id | id in sm.servers ensures ReleaseMatches(sm.servers[id]) {
        assert old(ReleaseMatches(sm.servers[id]));
      }
    }

    /** The node a new server goes to: the one that was asked for, or the balancer's next. */
    method ChooseNode(nodeId: string, ghost v: C.View, ghost repr: set<object>) returns (n: Node?)
      requires Matches(v, repr)
      modifies lb`index
      ensures Matches(v, repr)
      ensures n != null ==> n.id in nm.nodes && nm.nodes[n.id] == n
      ensures nodeId != "" ==> if nodeId in v.nodes then n == nm.nodes[nodeId] else n == null
      ensures nodeId == "" ==> if n == null then forall id :: id in v.nodes ==> v.nodes[id].drained else !v.nodes[n.id].drained
      ensures nodeId == "" && n != null ==> Balancer.Pick(lb.Flags(), old(lb.index), |lb.nodes|) == Some(lb.nodeMap[n.id])
      ensures nodeId != "" ==> lb.index == old(lb.index)
    {
      if nodeId != "" {
        return if nodeId in nm.nodes then nm.nodes[nodeId] else null;
      }
      n := lb.PickNode();
      CursorMovedMatches(v, repr);
      if lb.nodes != [] {
        Balancer.PickFailsExactlyWhenAllDrained(lb.Flags(), old(lb.index));
      }
      if n != null {
        RegisteredIsBalanced(v, repr, n.id);
      }
      forall id | n == null && id in v.nodes ensures v.nodes[id].drained {
        RegisteredIsBalanced(v, repr, id);
      }
    }

    // -------------------------------------------------------------------------
    // Registration
    // -------------------------------------------------------------------------

    twostate lemma AttachedServersMatch(new v: C.View, new v': C.View, new node: Node)
      requires old(ServersMatch(v)) && nm.serverManager == sm && nm.Attached(node)
      requires v'.servers == C.Attached(v.servers, node.id, node.name, node.client)
      ensures ServersMatch(v')
    {
      forall id | id in sm.servers ensures v'.servers[id] == sm.servers[id].View() && ReleaseMatches(sm.servers[id]) {
        var s := sm.servers[id];
        assert old(ReleaseMatches(s));
        if s.nodeId != node.id {
          assert s.release == old(s.release);
          if s.release.ViaNode? { assert s.release.node.id in nm.nodes; }
        }
      }
    }

    twostate lemma AttachedNodesMatch(new v: C.View, new node: Node, new raw: seq<RawAllocation>)
      requires old(NodesMatch(v)) && old(sm.servers).Keys == v.servers.Keys && nm.serverManager == sm
      requires forall id :: id in old(sm.servers) ==>
                 v.servers[id].node == old(sm.servers)[id].nodeId && v.servers[id].slot == old(sm.servers)[id].slot
      requires nm.Attached(node) && Parses(raw)
      requires node.id in v.nodes ==> IsAbout(node, v.nodes[node.id])
      requires node.allocator != null && node.allocator.Valid() && node.allocator.owner == node.id
      requires node.allocator.Contents()
               == WithClaimed(Book(Grouped(raw), {}), SlotsOf(sm.servers.Values, node.id, Grouped(raw)))
      ensures NodesMatch(C.RegisterStep(v, node.id, node.name, node.client, node.drained, raw))
    {
      var v' := C.RegisterStep(v, node.id, node.name, node.client, node.drained, raw);
      SlotsOfIsLive(sm.servers, v.servers, node.id, Grouped(raw));
      assert node.allocator.Contents() == Book(Grouped(raw), C.LiveSlots(v.servers, node.id, Grouped(raw)));
      forall id | id in nm.nodes ensures nm.nodes[id].id == id && NodeMatches(nm.nodes[id], v'.nodes[id]) {
        if id != node.id {
          assert old(NodeMatches(nm.nodes[id], v.nodes[id]));
        }
      }
    }

    twostate lemma AttachedOwned(new v: C.View, new node: Node, repr: set<object>, new repr': set<object>)
      requires old(Owned(repr)) && nm.Attached(node)
      requires repr <= repr' && node in repr' && (node.allocator != null ==> node.allocator in repr')
      ensures Owned(repr')
    {
    }

    twostate lemma AddedBalancerMatches(new v: C.View, new v': C.View, new node: Node)
      requires old(BalancerMatches(v)) && node.id !in old(nm.nodes)
      requires nm.nodes == old(nm.nodes)[node.id := node]
      requires lb.Valid() && lb.nodes == old(lb.nodes) + [node] && lb.nodeMap.Keys == old(lb.nodeMap).Keys + {node.id}
      requires v'.balanced == v.balanced + {node.id}
      ensures BalancerMatches(v')
    {
    }

    twostate lemma ReattachedBalancerMatches(new v: C.View, new v': C.View, new node: Node)
      requires old(BalancerMatches(v)) && node.id in old(nm.nodes) && old(nm.nodes)[node.id] == node
      requires unchanged(lb) && nm.nodes == old(nm.nodes)[node.id := node] && v'.balanced == v.balanced
      ensures BalancerMatches(v')
    {
      assert nm.nodes == old(nm.nodes);
    }

    /** A node that has been registered, for the first time or again, with what becomes of the balancer. */
    twostate lemma AttachedMatches(new v: C.View, new node: Node, new raw: seq<RawAllocation>,
                                   repr: set<object>, new repr': set<object>)
      requires old(Owned(repr) && ServersMatch(v) && NodesMatch(v)) && nm.Attached(node) && Parses(raw)
      requires node.id in v.nodes ==> IsAbout(node, v.nodes[node.id])
      requires node.allocator != null && node.allocator.Valid() && node.allocator.owner == node.id
      requires node.allocator.Contents()
               == WithClaimed(Book(Grouped(raw), {}), SlotsOf(sm.servers.Values, node.id, Grouped(raw)))
      requires BalancerMatches(C.RegisterStep(v, node.id, node.name, node.client, node.drained, raw))
      requires repr <= repr' && node in repr' && node.allocator in repr'
      ensures Matches(C.RegisterStep(v, node.id, node.name, node.client, node.drained, raw), repr')
    {
      AttachedServersMatch(v, C.RegisterStep(v, node.id, node.name, node.client, node.drained, raw), node);
      AttachedNodesMatch(v, node, raw);
      AttachedOwned(v, node, repr, repr');
    }

    twostate lemma ReattachedMatches(new v: C.View, new node: Node, new raw: seq<RawAllocation>,
                                     repr: set<object>, new repr': set<object>)
      requires old(Matches(v, repr)) && nm.Attached(node) && Parses(raw) && unchanged(lb)
      requires node.id in old(nm.nodes) && old(nm.nodes)[node.id] == node && IsAbout(node, v.nodes[node.id])
      requires node.allocator != null && node.allocator.Valid() && node.allocator.owner == node.id
      requires node.allocator.Contents()
               == WithClaimed(Book(Grouped(raw), {}), SlotsOf(sm.servers.Values, node.id, Grouped(raw)))
      requires repr <= repr' && node in repr' && node.allocator in repr'
      ensures Matches(C.RegisterStep(v, node.id, node.name, node.client, node.drained, raw), repr')
    {
      ReattachedBalancerMatches(v, C.RegisterStep(v, node.id, node.name, node.client, node.drained, raw), node);
      AttachedMatches(v, node, raw, repr, repr');
    }

    twostate lemma BalancerStands(new v: C.View, new v': C.View)
      requires old(BalancerMatches(v)) && unchanged(lb) && unchanged(nm) && v'.balanced == v.balanced
      ensures BalancerMatches(v')
    {
    }

    /** The allocator of a registered node is gone, and nothing else. */
    twostate predicate Dropped(new node: Node)
      reads nm, nm.nodes.Values, nm.Allocators(), lb, node, sm, sm.servers.Values
    {
      && node.id in old(nm.nodes) && old(nm.nodes)[node.id] == node && node.allocator == null && node.drained == old(node.drained)
      && unchanged(nm) && unchanged(sm) && unchanged(lb) && nm.OthersUntouched(node.id)
      && forall id :: id in sm.servers ==> old(allocated(sm.servers[id])) && unchanged(sm.servers[id])
    }

    twostate lemma DroppedNodesMatch(new v: C.View, new v': C.View, new node: Node)
      requires old(NodesMatch(v)) && Dropped(node)
      requires v'.nodes == v.nodes[node.id := v.nodes[node.id].(book := None)]
      requires IsAbout(node, v.nodes[node.id])
      ensures NodesMatch(v')
    {
      forall id | id in nm.nodes ensures nm.nodes[id].id == id && NodeMatches(nm.nodes[id], v'.nodes[id]) {
        if id != node.id {
          assert old(NodeMatches(nm.nodes[id], v.nodes[id]));
        }
      }
    }

    twostate lemma DroppedServersMatch(new v: C.View, new v': C.View, new node: Node)
      requires old(ServersMatch(v)) && Dropped(node) && v'.servers == v.servers
      ensures ServersMatch(v')
    {
      forall id | id in sm.servers ensures v'.servers[id] == sm.servers[id].View() && ReleaseMatches(sm.servers[id]) {
        assert old(ReleaseMatches(sm.servers[id]));
      }
    }

    twostate lemma DroppedOwned(new node: Node, repr: set<object>)
      requires old(Owned(repr)) && Dropped(node)
      ensures Owned(repr)
    {
    }

    /** A registered node whose new ranges do not parse is left without an allocator. */
    twostate lemma DroppedAllocatorMatches(new v: C.View, new v': C.View, new node: Node, repr: set<object>)
      requires old(Matches(v, repr)) && Dropped(node)
      requires v' == v.(nodes := v.nodes[node.id := v.nodes[node.id].(book := None)])
      ensures Matches(v', repr)
    {
      assert old(NodeMatches(node, v.nodes[node.id]));
      DroppedNodesMatch(v, v', node);
      DroppedServersMatch(v, v', node);
      DroppedOwned(node, repr);
      BalancerStands(v, v');
    }

    /** The node keeps its client; its allocator is replaced, by nothing when the ranges do not parse. */
    method Reregister(node: Node, raw: seq<RawAllocation>) returns (ok: bool)
      requires sm.Valid() && nm.serverManager == sm && node.id in nm.nodes && nm.nodes[node.id] == node
      requires forall id :: id in nm.nodes ==> nm.nodes[id].id == id
      modifies node`allocator, sm.servers.Values
      ensures ok <==> Parses(raw)
      ensures !ok ==>
                && node.allocator == null && nm.OthersUntouched(node.id)
                && forall id :: id in sm.servers ==> unchanged(sm.servers[id])
      ensures ok ==>
                && nm.Attached(node) && node.allocator != null && fresh(node.allocator)
                && node.allocator.Valid() && node.allocator.owner == node.id
                && node.allocator.Contents()
                   == WithClaimed(Book(Grouped(raw), {}), SlotsOf(sm.servers.Values, node.id, Grouped(raw)))
    {
      var made := NewAllocator(node.id, raw);
      if made == None {
        node.allocator := null;
        return false;
      }
      node.allocator := made.value;
      sm.AttachNodeClientToServers(node.id, node);
      return true;
    }

    /** The branch of the registration handler for a node that is already registered. */
    method RegisterKnown(node: Node, raw: seq<RawAllocation>, ghost v: C.View, ghost repr: set<object>)
      returns (ok: bool, ghost repr': set<object>)
      requires Matches(v, repr) && node.id in nm.nodes && nm.nodes[node.id] == node
      modifies repr
      ensures Matches(C.RegisterStep(v, node.id, node.name, node.client, node.drained, raw), repr') && fresh(repr' - repr)
      ensures ok <==> Parses(raw)
    {
      ok := Reregister(node, raw);
      ghost var v' := C.RegisterStep(v, node.id, node.name, node.client, node.drained, raw);
      if !ok {
        DroppedAllocatorMatches(v, v', node, repr);
        return false, repr;
      }
      repr' := repr + {node.allocator};
      ReattachedMatches(v, node, raw, repr, repr');
    }

    /** The branch for a node that is not registered yet. */
    method RegisterNew(id: string, name: string, client: NodeClient, drained: bool, alloc: Allocator,
                       ghost raw: seq<RawAllocation>, ghost v: C.View, ghost repr: set<object>)
      returns (ghost repr': set<object>)
      requires Matches(v, repr) && id !in nm.nodes && alloc !in repr
      requires Parses(raw) && alloc.Valid() && alloc.owner == id && alloc.Contents() == Book(Grouped(raw), {})
      modifies repr, alloc
      ensures Matches(C.RegisterStep(v, id, name, client, drained, raw), repr') && fresh(repr' - repr - {alloc})
    {
      var n := nm.Register(id, name, client, drained, alloc);
      repr' := repr + {alloc, n};
      AddedBalancerMatches(v, C.RegisterStep(v, id, name, client, drained, raw), n);
      AttachedMatches(v, n, raw, repr, repr');
    }

    /** The handler of a node's registration request; answers with the token of the connection. */
    method PostNodeRegister(id: string, name: string, client: NodeClient, drained: bool, raw: seq<RawAllocation>,
                            ghost v: C.View, ghost repr: set<object>)
      returns (token: Option<NodeClient>, ghost repr': set<object>)
      requires Matches(v, repr)
      modifies repr
      ensures Matches(C.Step(v, C.Register(id, name, client, drained, raw)), repr') && fresh(repr' - repr)
      ensures token == if Parses(raw) then Some(C.Step(v, C.Register(id, name, client, drained, raw)).nodes[id].client) else None
    {
      if id in nm.nodes {
        var node := nm.nodes[id];
        var ok;
        ok, repr' := RegisterKnown(node, raw, v, repr);
        return if ok then Some(node.client) else None, repr';
      }
      var alloc := NewAllocator(id, raw);
      if alloc == None {
        return None, repr;
      }
      repr' := RegisterNew(id, name, client, drained, alloc.value, raw, v, repr);
      return Some(client), repr';
    }

    // -------------------------------------------------------------------------
    // Disconnection, creation and cleanup
    // -------------------------------------------------------------------------

    twostate lemma DetachedBalancerMatches(new v: C.View, new id: string)
      requires old(BalancerMatches(v)) && nm.nodes == old(nm.nodes) - {id}
      requires lb.Valid() && lb.nodeMap.Keys == old(lb.nodeMap).Keys - {id}
      requires forall i :: 0 <= i < |lb.nodes| ==> lb.nodes[i] in old(lb.nodes)
      requires id in v.nodes
      ensures BalancerMatches(C.DisconnectStep(v, id))
    {
      forall i | 0 <= i < |lb.nodes| ensures lb.nodes[i].id in nm.nodes && nm.nodes[lb.nodes[i].id] == lb.nodes[i] {
        assert lb.nodes[i].id in lb.nodeMap;
      }
    }

    twostate lemma DetachedServersMatch(new v: C.View, new id: string)
      requires old(ServersMatch(v)) && nm.serverManager == sm && nm.Detached(id) && id in v.nodes
      ensures ServersMatch(C.DisconnectStep(v, id))
    {
      var v' := C.DisconnectStep(v, id);
      forall i | i in sm.servers ensures v'.servers[i] == sm.servers[i].View() && ReleaseMatches(sm.servers[i]) {
        assert old(ReleaseMatches(sm.servers[i]));
      }
    }

    twostate lemma DetachedNodesMatch(new v: C.View, new id: string)
      requires old(NodesMatch(v)) && nm.Detached(id) && id in v.nodes
      ensures NodesMatch(C.DisconnectStep(v, id))
    {
      var v' := C.DisconnectStep(v, id);
      forall i | i in nm.nodes ensures nm.nodes[i].id == i && NodeMatches(nm.nodes[i], v'.nodes[i]) {
        assert old(NodeMatches(nm.nodes[i], v.nodes[i]));
      }
    }

    twostate lemma DetachedOwned(new id: string, repr: set<object>)
      requires old(Owned(repr)) && nm.Detached(id)
      ensures Owned(repr)
    {
    }

    twostate lemma DetachedMatches(new v: C.View, new node: Node, repr: set<object>)
      requires old(Matches(v, repr)) && node.id in old(nm.nodes) && old(nm.nodes)[node.id] == node
      requires nm.Detached(node.id)
      requires lb.Valid() && lb.nodeMap.Keys == old(lb.nodeMap).Keys - {node.id}
      requires forall i :: 0 <= i < |lb.nodes| ==> lb.nodes[i] in old(lb.nodes)
      ensures Matches(C.DisconnectStep(v, node.id), repr)
    {
      DetachedOwned(node.id, repr);
      DetachedServersMatch(v, node.id);
      DetachedNodesMatch(v, node.id);
      DetachedBalancerMatches(v, node.id);
    }

    method PostNodeDisconnect(node: Node, ghost v: C.View, ghost repr: set<object>)
      requires Matches(v, repr) && node.id in nm.nodes && nm.nodes[node.id] == node
      modifies repr
      ensures Matches(C.Step(v, C.Disconnect(node.id)), repr)
    {
      nm.Disconnect(node);
      DetachedMatches(v, node, repr);
    }

    /** Of all nodes only the allocator of `node` changed. */
    twostate predicate OnlyPortsChanged(new node: Node)
      reads nm, nm.nodes.Values, nm.Allocators(), lb, node
    {
      && node.id in old(nm.nodes) && old(nm.nodes)[node.id] == node
      && unchanged(nm) && unchanged(lb) && unchanged(node) && nm.OthersUntouched(node.id)
    }

    twostate lemma PortsChangedNodesMatch(new v: C.View, new v': C.View, new node: Node)
      requires old(NodesMatch(v)) && OnlyPortsChanged(node)
      requires node.id in v.nodes && v'.nodes.Keys == v.nodes.Keys && C.SameNode(v'.nodes[node.id], v.nodes[node.id])
      requires forall id :: id in v.nodes && id != node.id ==> v'.nodes[id] == v.nodes[id]
      requires old(node.allocator) != null
      requires v'.nodes[node.id].book == Some(node.allocator.Contents())
      ensures NodesMatch(v')
    {
      forall id | id in nm.nodes ensures nm.nodes[id].id == id && NodeMatches(nm.nodes[id], v'.nodes[id]) {
        assert old(NodeMatches(nm.nodes[id], v.nodes[id]));
      }
    }

    /** Apart from `id`, which may have been added or removed, the servers stand as they did. */
    twostate predicate ServersStand(new id: string)
      reads sm, sm.servers.Values
    {
      forall i :: i in sm.servers && i != id ==>
        && i in old(sm.servers) && old(allocated(sm.servers[i])) && sm.servers[i] == old(sm.servers[i]) && unchanged(sm.servers[i])
    }

    twostate lemma ServersStandMatch(new v: C.View, new v': C.View, new id: string)
      requires old(ServersMatch(v)) && unchanged(nm) && ServersStand(id)
      requires forall i :: i in nm.nodes ==> old(allocated(nm.nodes[i])) && unchanged(nm.nodes[i])
      requires sm.servers.Keys == v'.servers.Keys
      requires forall i :: i in v'.servers && i != id ==> i in v.servers && v'.servers[i] == v.servers[i]
      requires id in sm.servers ==>
                 && sm.servers[id].id == id && v'.servers[id] == sm.servers[id].View() && ReleaseMatches(sm.servers[id])
      ensures ServersMatch(v')
    {
      forall i | i in sm.servers && i != id ensures v'.servers[i] == sm.servers[i].View() && ReleaseMatches(sm.servers[i]) {
        assert old(ReleaseMatches(sm.servers[i]));
      }
    }

    twostate lemma PortsStepOwned(new node: Node, new serverId: string, repr: set<object>, new added: set<Server>)
      requires old(Owned(repr)) && OnlyPortsChanged(node) && ServersStand(serverId)
      requires serverId in sm.servers ==>
                 && node.allocator != null
                 && sm.servers[serverId] in added && sm.servers[serverId].release == ViaAllocator(node.allocator)
      ensures Owned(repr + added)
    {
    }

    /** The ports of `node` changed as in `v'`, and at most the server `serverId` came or went. */
    twostate predicate PortsStep(new v: C.View, new v': C.View, new node: Node, new serverId: string, new added: set<Server>)
      reads nm, nm.nodes.Values, nm.Allocators(), lb, node, sm, sm.servers.Values, node.allocator
    {
      && OnlyPortsChanged(node) && ServersStand(serverId) && C.OnlyPortsOf(v, v', node.id, serverId)
      && node.allocator != null && v'.nodes[node.id].book == Some(node.allocator.Contents())
      && sm.servers.Keys == v'.servers.Keys
      && (serverId in sm.servers ==>
            var s := sm.servers[serverId];
            && s.id == serverId && s in added && v'.servers[serverId] == s.View()
            && s.release == ViaAllocator(node.allocator) && s.nodeId == node.id && node.allocator.owner == node.id)
    }

    twostate lemma PortsStepServersMatch(new v: C.View, new v': C.View, new node: Node, new serverId: string,
                                         new added: set<Server>)
      requires old(ServersMatch(v)) && PortsStep(v, v', node, serverId, added)
      ensures ServersMatch(v')
    {
      ServersStandMatch(v, v', serverId);
    }

    twostate lemma PortsStepMatches(new v: C.View, new v': C.View, new node: Node, new serverId: string,
                                    repr: set<object>, new added: set<Server>)
      requires old(Matches(v, repr)) && PortsStep(v, v', node, serverId, added)
      ensures Matches(v', repr + added)
    {
      PortsStepOwned(node, serverId, repr, added);
      PortsChangedNodesMatch(v, v', node);
      PortsStepServersMatch(v, v', node, serverId, added);
      BalancerStands(v, v');
    }

    method CreateOn(node: Node, serverId: string, order: seq<string>, outcome: C.Outcome, ghost v: C.View)
      returns (r: Option<Server>, ghost added: set<Server>)
      requires sm.Valid() && v.servers.Keys == sm.servers.Keys && serverId !in sm.servers
      requires node.id in nm.nodes && nm.nodes[node.id] == node && node.id in v.nodes && NodeMatches(node, v.nodes[node.id])
      requires node.allocator != null && IsShuffle(order, node.allocator.Allocations)
      requires forall id :: id in nm.nodes && nm.nodes[id].allocator != null ==> nm.nodes[id].allocator.owner == id
      modifies sm, node.allocator
      ensures PortsStep(v, C.CreateStep(v, node.id, serverId, order, outcome), node, serverId, added)
      ensures fresh(added) && (r.Some? <==> serverId in sm.servers)
      ensures r.Some? ==> sm.servers[serverId] == r.value
    {
      C.CreateChangesOnlyPorts(v, node.id, serverId, order, outcome);
      r := sm.CreateServer(node, serverId, order, outcome);
      added := if r.Some? then {r.value} else {};
    }

    method CreateWithPorts(node: Node, serverId: string, order: seq<string>, outcome: C.Outcome,
                           ghost v: C.View, ghost repr: set<object>)
      returns (r: Option<Server>, ghost added: set<Server>)
      requires Matches(v, repr) && node.id in nm.nodes && nm.nodes[node.id] == node && serverId !in sm.servers
      requires node.allocator != null && IsShuffle(order, node.allocator.Allocations)
      modifies sm, node.allocator
      ensures Matches(C.CreateStep(v, node.id, serverId, order, outcome), repr + added) && fresh(added)
      ensures r.Some? <==> serverId in sm.servers
      ensures r.Some? ==> sm.servers[serverId] == r.value
    {
      assert NodeMatches(node, v.nodes[node.id]);
      r, added := CreateOn(node, serverId, order, outcome, v);
      PortsStepMatches(v, C.CreateStep(v, node.id, serverId, order, outcome), node, serverId, repr, added);
    }

    /** The handler of a creation request on a registered node. */
    method PostServer(node: Node, serverId: string, order: seq<string>, outcome: C.Outcome,
                      ghost v: C.View, ghost repr: set<object>)
      returns (r: Option<Server>, ghost repr': set<object>)
      requires Matches(v, repr) && node.id in nm.nodes && nm.nodes[node.id] == node && serverId !in sm.servers
      requires node.allocator != null ==> IsShuffle(order, node.allocator.Allocations)
      modifies repr
      ensures Matches(C.Step(v, C.Create(node.id, serverId, order, outcome)), repr') && fresh(repr' - repr)
      ensures r.Some? <==> serverId in C.Step(v, C.Create(node.id, serverId, order, outcome)).servers
      ensures r.Some? ==> sm.servers[serverId] == r.value
    {
      if node.allocator == null {
        return None, repr;
      }
      ghost var added;
      r, added := CreateWithPorts(node, serverId, order, outcome, v, repr);
      repr' := repr + added;
    }

    /** Cleanup when the server's node is registered and has an allocator. */
    method CleanupOn(s: Server, node: Node) returns (panicked: bool)
      requires sm.Valid() && s.id in sm.servers && sm.servers[s.id] == s && ReleaseMatches(s)
      requires s.release != Unset && node.id == s.nodeId && node.id in nm.nodes && nm.nodes[node.id] == node
      requires node.allocator != null
      requires forall id :: id in nm.nodes && nm.nodes[id].allocator != null ==> nm.nodes[id].allocator.owner == id
      modifies sm, node.allocator
      ensures OnlyPortsChanged(node) && ServersStand(s.id) && sm.servers == old(sm.servers) - {s.id} && !panicked
      ensures node.allocator.Contents() == ReleaseIn(old(node.allocator.Contents()), s.slot)
    {
      panicked := sm.CleanupForDestroy(s);
    }

    /** Cleanup when there is no allocator to give the port back to. */
    method CleanupElsewhere(s: Server) returns (panicked: bool)
      requires sm.Valid() && s.id in sm.servers && sm.servers[s.id] == s && ReleaseMatches(s)
      requires s.release == Unset || nm.nodes[s.nodeId].allocator == null
      requires forall id :: id in nm.nodes && nm.nodes[id].allocator != null ==> nm.nodes[id].allocator.owner == id
      modifies sm, match s.release case Unset => {} case ViaNode(n) => {n.allocator} case ViaAllocator(a) => {a}
      ensures unchanged(nm) && unchanged(lb) && ServersStand(s.id)
      ensures forall id :: id in nm.nodes ==>
                && unchanged(nm.nodes[id]) && (nm.nodes[id].allocator != null ==> unchanged(nm.nodes[id].allocator))
      ensures panicked <==> s.release.ViaNode?
      ensures sm.servers == if panicked then old(sm.servers) else old(sm.servers) - {s.id}
      ensures panicked ==> unchanged(s)
    {
      panicked := sm.CleanupForDestroy(s);
    }

    /** The nodes stand as they did, and no server but `id` was touched. */
    twostate predicate NodesStand(new id: string)
      reads nm, nm.nodes.Values, nm.Allocators(), lb, sm, sm.servers.Values
    {
      && unchanged(nm) && unchanged(lb) && ServersStand(id)
      && forall i :: i in nm.nodes ==>
           && old(allocated(nm.nodes[i])) && unchanged(nm.nodes[i])
           && (nm.nodes[i].allocator != null ==> old(allocated(nm.nodes[i].allocator)) && unchanged(nm.nodes[i].allocator))
    }

    twostate lemma StandingNodesMatch(new v: C.View, new v': C.View, new id: string)
      requires old(NodesMatch(v)) && NodesStand(id) && v'.nodes == v.nodes
      ensures NodesMatch(v')
    {
      forall i | i in nm.nodes ensures NodeMatches(nm.nodes[i], v'.nodes[i]) {
        assert old(NodeMatches(nm.nodes[i], v.nodes[i]));
      }
    }

    twostate lemma StandingOwned(new s: Server, repr: set<object>)
      requires old(Owned(repr)) && NodesStand(s.id)
      requires s.id in sm.servers ==> sm.servers == old(sm.servers) && sm.servers[s.id] == s && unchanged(s)
      ensures Owned(repr)
    {
    }

    twostate lemma NodesStandMatch(new v: C.View, new v': C.View, new s: Server, repr: set<object>)
      requires old(Matches(v, repr)) && NodesStand(s.id) && v'.nodes == v.nodes && v'.balanced == v.balanced
      requires sm.servers.Keys == v'.servers.Keys
      requires forall i :: i in v'.servers ==> i in v.servers && v'.servers[i] == v.servers[i]
      requires s.id in sm.servers ==> sm.servers == old(sm.servers) && sm.servers[s.id] == s && unchanged(s)
      ensures Matches(v', repr)
    {
      if s.id in sm.servers {
        assert old(ReleaseMatches(sm.servers[s.id]));
      }
      ServersStandMatch(v, v', s.id);
      StandingNodesMatch(v, v', s.id);
      StandingOwned(s, repr);
      BalancerStands(v, v');
    }

    twostate lemma CleanedUpPortsStep(new v: C.View, new s: Server, new node: Node)
      requires s.id in old(sm.servers) && old(sm.servers)[s.id] == s && old(sm.servers).Keys == v.servers.Keys
      requires old(allocated(s)) && v.servers[s.id] == old(s.View()) && old(s.release) != Unset
      requires node.id == s.nodeId && node.id in v.nodes && old(allocated(node)) && old(node.allocator) != null
      requires v.nodes[node.id].book == Some(old(node.allocator.Contents()))
      requires OnlyPortsChanged(node) && ServersStand(s.id) && sm.servers == old(sm.servers) - {s.id}
      requires node.allocator.Contents() == ReleaseIn(old(node.allocator.Contents()), s.slot)
      ensures PortsStep(v, C.CleanupStep(v, s.id), node, s.id, {})
    {
      C.CleanupChangesOnlyPorts(v, s.id);
    }

    method DeleteOn(s: Server, node: Node, ghost v: C.View, ghost repr: set<object>) returns (panicked: bool)
      requires Matches(v, repr) && s.id in sm.servers && sm.servers[s.id] == s
      requires s.release != Unset && s.nodeId in nm.nodes && nm.nodes[s.nodeId] == node && node.allocator != null
      modifies sm, node.allocator
      ensures Matches(C.CleanupStep(v, s.id), repr) && !panicked && s.id !in sm.servers
    {
      assert ReleaseMatches(s) && NodeMatches(node, v.nodes[s.nodeId]);
      panicked := CleanupOn(s, node);
      CleanedUpPortsStep(v, s, node);
      PortsStepMatches(v, C.CleanupStep(v, s.id), node, s.id, repr, {});
      assert repr + {} == repr;
    }

    method DeleteElsewhere(s: Server, ghost v: C.View, ghost repr: set<object>) returns (panicked: bool)
      requires Matches(v, repr) && s.id in sm.servers && sm.servers[s.id] == s
      requires s.release == Unset || nm.nodes[s.nodeId].allocator == null
      modifies repr
      ensures Matches(C.CleanupStep(v, s.id), repr) && (panicked <==> s.id in sm.servers)
    {
      assert ReleaseMatches(s);
      assert s.release != Unset ==> NodeMatches(nm.nodes[s.nodeId], v.nodes[s.nodeId]);
      panicked := CleanupElsewhere(s);
      NodesStandMatch(v, C.CleanupStep(v, s.id), s, repr);
    }

    /** The handler of a server's deletion. */
    method PostServerDeleted(s: Server, ghost v: C.View, ghost repr: set<object>) returns (panicked: bool)
      requires Matches(v, repr) && s.id in sm.servers && sm.servers[s.id] == s
      modifies repr
      ensures Matches(C.Step(v, C.Cleanup(s.id)), repr)
      ensures panicked <==> s.id in C.Step(v, C.Cleanup(s.id)).servers
    {
      // The two branches run the same cleanup; they differ in what is known about its release.
      assert ReleaseMatches(s);
      if s.release == Unset {
        panicked := DeleteElsewhere(s, v, repr);
        return;
      }
      var node := nm.nodes[s.nodeId];
      if node.allocator == null {
        panicked := DeleteElsewhere(s, v, repr);
      } else {
        panicked := DeleteOn(s, node, v, repr);
      }
    }
  }
}

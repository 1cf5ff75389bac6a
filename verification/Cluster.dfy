/**
 What the controller's handlers do to servers, nodes, ports and the balancer, as one state
 machine: registration and re-registration of a node (protocube/api/router/router_node.go),
 disconnection (protocube/node/manager.go), creation (protocube/server/manager.go) and cleanup
 of a server (protocube/server/server.go). Each handler is one step.

 The invariants over every run are proved here; module Controller shows that the handlers,
 working on shared mutable objects, take exactly these steps.
 */
module Cluster {
  import opened Wrappers
  import opened PortAllocator
  import opened Nodes

  /** Where a server's release function leads: nowhere, to whatever allocator its node has at
      the time of the call, or to the very allocator that handed out the port. */
  datatype ReleaseTarget = Unset | ThroughNode | ThroughAllocator

  datatype ServerView = ServerView(node: string, nodeName: string, slot: Slot, client: Option<NodeClient>, release: ReleaseTarget)

  /** `leaked`: slots taken by failed creations since the last registration.
      `book` is None after a re-registration whose port ranges did not parse. */
  datatype NodeView = NodeView(name: string, client: NodeClient, drained: bool, book: Option<Book>, leaked: set<Slot>)

  datatype View = View(servers: map<string, ServerView>, nodes: map<string, NodeView>, balanced: set<string>)

  /** How far a creation gets after its port was allocated. */
  datatype Outcome = BuildFails | StoreFails | RemoteFails | Created

  datatype Event =
    | Register(node: string, name: string, client: NodeClient, drained: bool, raw: seq<RawAllocation>)
    | Disconnect(node: string)
    | Create(node: string, server: string, order: seq<string>, outcome: Outcome)
    | Cleanup(server: string)

  // ---------------------------------------------------------------------------
  // The steps
  // ---------------------------------------------------------------------------

  /** The slots held by the servers of a node, as far as the node's ranges cover them. */
  ghost function LiveSlots(servers: map<string, ServerView>, node: string, ranges: Ranges): set<Slot> {
    set id | id in servers && servers[id].node == node && InRange(ranges, servers[id].slot) :: servers[id].slot
  }

  ghost function Attached(servers: map<string, ServerView>, node: string, name: string, client: NodeClient): map<string, ServerView> {
    map id | id in servers ::
      if servers[id].node == node then servers[id].(nodeName := name, client := Some(client), release := ThroughNode)
      else servers[id]
  }

  ghost function Detached(servers: map<string, ServerView>, node: string): map<string, ServerView> {
    map id | id in servers ::
      if servers[id].node == node then servers[id].(client := None, release := Unset) else servers[id]
  }

  /** A registered node keeps its name, client and drain flag and gets a new allocator, or none at all when its ranges
      do not parse. */
  ghost function RegisterStep(v: View, node: string, name: string, client: NodeClient, drained: bool, raw: seq<RawAllocation>): View {
    if Parses(raw) then
      var n := if node in v.nodes then v.nodes[node] else NodeView(name, client, drained, None, {});
      var ranges := Grouped(raw);
      View(Attached(v.servers, node, n.name, n.client),
           v.nodes[node := NodeView(n.name, n.client, n.drained, Some(Book(ranges, LiveSlots(v.servers, node, ranges))), {})],
           v.balanced + {node})
    else if node in v.nodes then
      v.(nodes := v.nodes[node := v.nodes[node].(book := None)])
    else v
  }

  ghost function DisconnectStep(v: View, node: string): View {
    if node in v.nodes then
      View(Detached(v.servers, node), v.nodes - {node}, v.balanced - {node})
    else v
  }

  /** A creation that fails after the allocation drops the server but keeps the port. */
  ghost function CreateStep(v: View, node: string, server: string, order: seq<string>, outcome: Outcome): View {
    if node !in v.nodes || v.nodes[node].book.None? then v
    else
      var n := v.nodes[node];
      var b := n.book.value;
      if !IsShuffle(order, b.ranges) then v
      else match PickSlot(b, order)
        case None => v
        case Some(slot) =>
          var n' := n.(book := Some(ClaimIn(b, slot)));
          if outcome == Created then
            v.(servers := v.servers[server := ServerView(node, n.name, slot, Some(n.client), ThroughAllocator)],
               nodes := v.nodes[node := n'])
          else
            v.(nodes := v.nodes[node := n'.(leaked := n.leaked + {slot})])
  }

  /** The release call dereferences a missing allocator, so the server is never removed. */
  ghost predicate ReleasePanics(v: View, s: ServerView) {
    s.release == ThroughNode && s.node in v.nodes && v.nodes[s.node].book.None?
  }

  ghost function CleanupStep(v: View, server: string): View {
    if server !in v.servers || ReleasePanics(v, v.servers[server]) then v
    else
      var s := v.servers[server];
      var nodes :=
        if s.release != Unset && s.node in v.nodes && v.nodes[s.node].book.Some? then
          v.nodes[s.node := v.nodes[s.node].(book := Some(ReleaseIn(v.nodes[s.node].book.value, s.slot)))]
        else v.nodes;
      v.(servers := v.servers - {server}, nodes := nodes)
  }

  ghost function Step(v: View, e: Event): View {
    match e
    case Register(node, name, client, drained, raw) => RegisterStep(v, node, name, client, drained, raw)
    case Disconnect(node) => DisconnectStep(v, node)
    case Create(node, server, order, outcome) => CreateStep(v, node, server, order, outcome)
    case Cleanup(server) => CleanupStep(v, server)
  }

  /** A new server gets an id nobody has. */
  ghost predicate Possible(v: View, e: Event) {
    e.Create? ==> e.server !in v.servers
  }

  ghost function Run(v: View, events: seq<Event>): View
    decreases |events|
  {
    if events == [] then v else Run(Step(v, events[0]), events[1..])
  }

  ghost predicate PossibleRun(v: View, events: seq<Event>)
    decreases |events|
  {
    events == [] || (Possible(v, events[0]) && PossibleRun(Step(v, events[0]), events[1..]))
  }

  /** The nodes differ at most in their ports. */
  ghost predicate SameNode(m: NodeView, n: NodeView) {
    m.name == n.name && m.client == n.client && m.drained == n.drained
  }

  /** A creation or cleanup changes no node but one, and of that one only its ports, and no other server. */
  ghost predicate OnlyPortsOf(v: View, v': View, node: string, server: string) {
    && (forall i :: i in v'.servers && i != server ==> i in v.servers && v'.servers[i] == v.servers[i])
    && node in v.nodes && v'.nodes.Keys == v.nodes.Keys && v'.balanced == v.balanced
    && (forall n :: n in v.nodes && n != node ==> v'.nodes[n] == v.nodes[n])
    && SameNode(v'.nodes[node], v.nodes[node])
  }

  lemma CreateChangesOnlyPorts(v: View, node: string, server: string, order: seq<string>, outcome: Outcome)
    requires node in v.nodes
    ensures OnlyPortsOf(v, CreateStep(v, node, server, order, outcome), node, server)
  {
  }

  lemma CleanupChangesOnlyPorts(v: View, server: string)
    requires server in v.servers && v.servers[server].node in v.nodes
    ensures OnlyPortsOf(v, CleanupStep(v, server), v.servers[server].node, server)
  {
  }

  // ---------------------------------------------------------------------------
  // The invariant
  // ---------------------------------------------------------------------------

  /** No two servers of a node hold the same slot. */
  ghost predicate SlotsDistinct(servers: map<string, ServerView>) {
    forall a, b :: a in servers && b in servers && a != b && servers[a].node == servers[b].node
                   ==> servers[a].slot != servers[b].slot
  }

  /** A node's ports in use are those of its servers plus the leaked ones. */
  ghost predicate UsedIsExact(v: View, node: string)
    requires node in v.nodes
  {
    var n := v.nodes[node];
    n.book.Some? ==>
      var live := LiveSlots(v.servers, node, n.book.value.ranges);
      && n.book.value.taken == live + n.leaked
      && live !! n.leaked
      && forall s :: s in n.leaked ==> InRange(n.book.value.ranges, s)
  }

  ghost predicate ClientBound(v: View, s: ServerView) {
    if s.node in v.nodes then s.client == Some(v.nodes[s.node].client) && s.nodeName == v.nodes[s.node].name
    else s.client == None
  }

  ghost predicate Inv(v: View) {
    && SlotsDistinct(v.servers)
    && (forall n :: n in v.nodes ==> UsedIsExact(v, n))
    && (forall id :: id in v.servers ==> ClientBound(v, v.servers[id]))
    && (forall id :: id in v.servers ==> (v.servers[id].release == Unset <==> v.servers[id].node !in v.nodes))
    && v.balanced == v.nodes.Keys
  }

  /** A freshly started controller: servers loaded from the database, no node connected yet. */
  ghost function Boot(records: map<string, (string, string, Slot)>): View {
    View(map id | id in records :: ServerView(records[id].0, records[id].1, records[id].2, None, Unset), map[], {})
  }

  ghost function Records(v: View): map<string, (string, string, Slot)> {
    map id | id in v.servers :: (v.servers[id].node, v.servers[id].nodeName, v.servers[id].slot)
  }

  lemma BootEstablishesInv(records: map<string, (string, string, Slot)>)
    requires forall a, b :: a in records && b in records && a != b && records[a].0 == records[b].0
                            ==> records[a].2 != records[b].2
    ensures Inv(Boot(records))
  {
    var v := Boot(records);
    forall a, b | a in v.servers && b in v.servers && a != b && v.servers[a].node == v.servers[b].node
      ensures v.servers[a].slot != v.servers[b].slot
    {
      assert a in records && b in records;
    }
  }

  lemma RegisterKeepsUsedExact(v: View, node: string, name: string, client: NodeClient, drained: bool, raw: seq<RawAllocation>, n: string)
    requires n in v.nodes ==> UsedIsExact(v, n)
    requires n in RegisterStep(v, node, name, client, drained, raw).nodes
    ensures UsedIsExact(RegisterStep(v, node, name, client, drained, raw), n)
  {
    var v' := RegisterStep(v, node, name, client, drained, raw);
    if Parses(raw) && v'.nodes[n].book.Some? {
      SameLiveSlots(v.servers, v'.servers, n, v'.nodes[n].book.value.ranges);
    }
  }

  lemma RegisterKeepsInv(v: View, node: string, name: string, client: NodeClient, drained: bool, raw: seq<RawAllocation>)
    requires Inv(v)
    ensures Inv(RegisterStep(v, node, name, client, drained, raw))
  {
    var v' := RegisterStep(v, node, name, client, drained, raw);
    assert SlotsDistinct(v'.servers);
    RegisterKeepsBound(v, node, name, client, drained, raw);
    forall n | n in v'.nodes ensures UsedIsExact(v', n) {
      RegisterKeepsUsedExact(v, node, name, client, drained, raw, n);
    }
  }

  lemma RegisterKeepsBound(v: View, node: string, name: string, client: NodeClient, drained: bool, raw: seq<RawAllocation>)
    requires forall id :: id in v.servers ==>
               ClientBound(v, v.servers[id]) && (v.servers[id].release == Unset <==> v.servers[id].node !in v.nodes)
    ensures var v' := RegisterStep(v, node, name, client, drained, raw);
            forall id :: id in v'.servers ==>
              ClientBound(v', v'.servers[id]) && (v'.servers[id].release == Unset <==> v'.servers[id].node !in v'.nodes)
  {
  }

  lemma SameLiveSlots(s: map<string, ServerView>, t: map<string, ServerView>, node: string, ranges: Ranges)
    requires s.Keys == t.Keys
    requires forall id :: id in s ==> s[id].node == t[id].node && s[id].slot == t[id].slot
    ensures LiveSlots(s, node, ranges) == LiveSlots(t, node, ranges)
  {
    forall x | x in LiveSlots(s, node, ranges) ensures x in LiveSlots(t, node, ranges) {
      var id :| id in s && s[id].node == node && InRange(ranges, s[id].slot) && s[id].slot == x;
      assert id in t;
    }
    forall x | x in LiveSlots(t, node, ranges) ensures x in LiveSlots(s, node, ranges) {
      var id :| id in t && t[id].node == node && InRange(ranges, t[id].slot) && t[id].slot == x;
      assert id in s;
    }
  }

  lemma DisconnectKeepsInv(v: View, node: string)
    requires Inv(v)
    ensures Inv(DisconnectStep(v, node))
  {
    var v' := DisconnectStep(v, node);
    forall n | n in v'.nodes ensures UsedIsExact(v', n) {
      assert UsedIsExact(v, n);
      if v'.nodes[n].book.Some? {
        SameLiveSlots(v.servers, v'.servers, n, v'.nodes[n].book.value.ranges);
      }
    }
  }

  /** A slot on offer is held by none of the node's servers and was not leaked. */
  lemma OfferedSlotIsUnheld(v: View, node: string, slot: Slot)
    requires node in v.nodes && UsedIsExact(v, node)
    requires v.nodes[node].book.Some? && v.nodes[node].book.value.Offers(slot)
    ensures slot !in v.nodes[node].leaked
    ensures forall id :: id in v.servers && v.servers[id].node == node ==> v.servers[id].slot != slot
  {
    var ranges := v.nodes[node].book.value.ranges;
    forall id | id in v.servers && v.servers[id].node == node ensures v.servers[id].slot != slot {
      assert InRange(ranges, v.servers[id].slot) ==> v.servers[id].slot in LiveSlots(v.servers, node, ranges);
    }
  }

  lemma CreatedKeepsUsedExact(v: View, v': View, node: string, server: string, slot: Slot, n: string)
    requires node in v.nodes && UsedIsExact(v, node) && server !in v.servers
    requires v.nodes[node].book.Some? && v.nodes[node].book.value.Offers(slot)
    requires v'.nodes == v.nodes[node := v.nodes[node].(book := Some(ClaimIn(v.nodes[node].book.value, slot)))]
    requires v'.servers == v.servers[server := ServerView(node, v.nodes[node].name, slot, Some(v.nodes[node].client), ThroughAllocator)]
    requires n in v.nodes && UsedIsExact(v, n)
    ensures UsedIsExact(v', n)
  {
    OfferedSlotIsUnheld(v, node, slot);
    if v.nodes[n].book.Some? {
      AddedLiveSlot(v.servers, server, v'.servers[server], n, v.nodes[n].book.value.ranges);
    }
  }

  lemma CreateKeepsInv(v: View, node: string, server: string, order: seq<string>, outcome: Outcome)
    requires Inv(v) && server !in v.servers
    ensures Inv(CreateStep(v, node, server, order, outcome))
  {
    var v' := CreateStep(v, node, server, order, outcome);
    if v' != v {
      var b := v.nodes[node].book.value;
      AllocationFailsExactlyWhenFull(b, order);
      var slot := PickSlot(b, order).value;
      OfferedSlotIsUnheld(v, node, slot);
      forall n | n in v'.nodes ensures UsedIsExact(v', n) {
        assert UsedIsExact(v, n);
        if outcome == Created {
          CreatedKeepsUsedExact(v, v', node, server, slot, n);
        } else {
          LeakKeepsUsedExact(v, v', node, slot, n);
        }
      }
    }
  }

  lemma LeakKeepsUsedExact(v: View, v': View, node: string, slot: Slot, n: string)
    requires node in v.nodes && UsedIsExact(v, node)
    requires v.nodes[node].book.Some? && v.nodes[node].book.value.Offers(slot)
    requires v'.nodes == v.nodes[node := v.nodes[node].(book := Some(ClaimIn(v.nodes[node].book.value, slot)),
                                                        leaked := v.nodes[node].leaked + {slot})]
    requires v'.servers == v.servers
    requires n in v.nodes && UsedIsExact(v, n)
    ensures UsedIsExact(v', n)
  {
  }

  lemma AddedLiveSlot(servers: map<string, ServerView>, id: string, s: ServerView, node: string, ranges: Ranges)
    requires id !in servers
    ensures LiveSlots(servers[id := s], node, ranges)
            == LiveSlots(servers, node, ranges) + if s.node == node && InRange(ranges, s.slot) then {s.slot} else {}
  {
    var after := servers[id := s];
    forall x | x in LiveSlots(servers, node, ranges) ensures x in LiveSlots(after, node, ranges) {
      var i :| i in servers && servers[i].node == node && InRange(ranges, servers[i].slot) && servers[i].slot == x;
      assert i in after && after[i] == servers[i];
    }
    if s.node == node && InRange(ranges, s.slot) {
      assert id in after && after[id] == s;
    }
  }

  lemma CleanupKeepsUsedExact(v: View, server: string, n: string)
    requires SlotsDistinct(v.servers) && server in v.servers && !ReleasePanics(v, v.servers[server])
    requires v.servers[server].release == Unset <==> v.servers[server].node !in v.nodes
    requires n in v.nodes && UsedIsExact(v, n)
    ensures var v' := CleanupStep(v, server); n in v'.nodes && UsedIsExact(v', n)
  {
    var v' := CleanupStep(v, server);
    var s := v.servers[server];
    assert v.servers == v'.servers[server := s];
    if v'.nodes[n].book.Some? {
      var ranges := v'.nodes[n].book.value.ranges;
      AddedLiveSlot(v'.servers, server, s, n, ranges);
    }
  }

  lemma CleanupKeepsInv(v: View, server: string)
    requires Inv(v)
    ensures Inv(CleanupStep(v, server))
  {
    var v' := CleanupStep(v, server);
    if server in v.servers && !ReleasePanics(v, v.servers[server]) {
      forall n | n in v'.nodes ensures UsedIsExact(v', n) {
        CleanupKeepsUsedExact(v, server, n);
      }
    }
  }

  lemma StepKeepsInv(v: View, e: Event)
    requires Inv(v) && Possible(v, e)
    ensures Inv(Step(v, e))
  {
    match e
    case Register(node, name, client, drained, raw) => RegisterKeepsInv(v, node, name, client, drained, raw);
    case Disconnect(node) => DisconnectKeepsInv(v, node);
    case Create(node, server, order, outcome) => CreateKeepsInv(v, node, server, order, outcome);
    case Cleanup(server) => CleanupKeepsInv(v, server);
  }

  // ---------------------------------------------------------------------------
  // Main results
  // ---------------------------------------------------------------------------

  lemma {:induction false} RunKeepsInv(v: View, events: seq<Event>)
    requires Inv(v) && PossibleRun(v, events)
    ensures Inv(Run(v, events))
    decreases |events|
  {
    if events != [] {
      StepKeepsInv(v, events[0]);
      RunKeepsInv(Step(v, events[0]), events[1..]);
    }
  }

  /** Over every run from a start-up with distinct recorded ports: no port is held twice on a node, the
      ports in use are exactly those of live servers plus the leaked ones, every server has its node's
      name and current connection, and the balancer knows exactly the registered nodes. */
  lemma EveryRunIsSafe(records: map<string, (string, string, Slot)>, events: seq<Event>)
    requires forall a, b :: a in records && b in records && a != b && records[a].0 == records[b].0
                            ==> records[a].2 != records[b].2
    requires PossibleRun(Boot(records), events)
    ensures var v := Run(Boot(records), events);
            && SlotsDistinct(v.servers)
            && (forall n :: n in v.nodes ==> UsedIsExact(v, n))
            && (forall id :: id in v.servers ==> ClientBound(v, v.servers[id]))
            && v.balanced == v.nodes.Keys
            && Inv(Boot(Records(v)))
  {
    BootEstablishesInv(records);
    RunKeepsInv(Boot(records), events);
    BootEstablishesInv(Records(Run(Boot(records), events)));
  }

  /** A node has the name and is as drained as was said when it was first registered; nothing that happens to it
      afterwards, short of a disconnection, changes that or its connection. */
  lemma NodesAreAsRegistered(v: View, e: Event, n: string)
    requires n in Step(v, e).nodes
    ensures var after := Step(v, e).nodes[n];
            if n in v.nodes then SameNode(after, v.nodes[n])
            else e.Register? && e.node == n && Parses(e.raw)
                 && after.name == e.name && after.client == e.client && after.drained == e.drained
  {
  }

  /** A disconnected node is gone, and exactly its servers are unbound; nothing else changes. */
  lemma DisconnectUnbinds(v: View, node: string)
    requires Inv(v)
    ensures var v' := Step(v, Disconnect(node));
            && v'.nodes == v.nodes - {node} && v'.servers.Keys == v.servers.Keys
            && forall id :: id in v.servers ==>
                 var s, s' := v.servers[id], v'.servers[id];
                 && s'.node == s.node && s'.nodeName == s.nodeName && s'.slot == s.slot
                 && if s.node == node then s'.client == None && s'.release == Unset else s' == s
  {
  }

  /** A creation that succeeds leaves a server that holds a slot which was on offer, bound to the node's
      connection, and whose cleanup succeeds even after a failed re-registration of the node. */
  lemma CreatedServerCleansUp(v: View, node: string, server: string, order: seq<string>, name: string, client: NodeClient, drained: bool,
                              bad: seq<RawAllocation>)
    requires Inv(v) && server !in v.servers && server in Step(v, Create(node, server, order, Created)).servers && !Parses(bad)
    ensures var made := Step(v, Create(node, server, order, Created));
            var s := made.servers[server];
            && node in v.nodes && v.nodes[node].book.Some? && s.node == node && v.nodes[node].book.value.Offers(s.slot)
            && s.client == Some(v.nodes[node].client) && s.nodeName == v.nodes[node].name
            && server !in Step(Step(made, Register(node, name, client, drained, bad)), Cleanup(server)).servers
  {
    PickIsOffered(v.nodes[node].book.value, order);
  }

  /** A creation fails for want of a port exactly when every configured port is live or leaked. */
  lemma CreationFailsExactlyWhenFull(v: View, node: string, order: seq<string>)
    requires Inv(v) && node in v.nodes && v.nodes[node].book.Some?
    requires IsShuffle(order, v.nodes[node].book.value.ranges)
    ensures var b := v.nodes[node].book.value;
            PickSlot(b, order) == None
            <==> forall s :: InRange(b.ranges, s) ==> s in v.nodes[node].leaked
                                                      || exists id :: id in v.servers && v.servers[id].node == node && v.servers[id].slot == s
  {
    var b := v.nodes[node].book.value;
    AllocationFailsExactlyWhenFull(b, order);
    assert UsedIsExact(v, node);
    var live := LiveSlots(v.servers, node, b.ranges);
    forall s | InRange(b.ranges, s)
      ensures s in b.taken <==> s in v.nodes[node].leaked
                                || exists id :: id in v.servers && v.servers[id].node == node && v.servers[id].slot == s
    {
      if s in live {
        var id :| id in v.servers && v.servers[id].node == node && v.servers[id].slot == s;
      }
    }
  }

  /** Cleaning up a server removes it and frees its port at once, unless its node is registered
      without an allocator and the server was attached by a registration. */
  lemma CleanupSucceedsExactly(v: View, server: string)
    requires Inv(v) && server in v.servers
    ensures var s, v' := v.servers[server], Step(v, Cleanup(server));
            && (server !in v'.servers
                <==> !(s.node in v.nodes && v.nodes[s.node].book.None? && s.release == ThroughNode))
            && (s.node in v'.nodes && v'.nodes[s.node].book.Some? ==> s.slot !in v'.nodes[s.node].book.value.taken)
            && (forall id :: id in v.servers && id != server ==> id in v'.servers && v'.servers[id] == v.servers[id])
            && (forall n :: n in v.nodes && n != s.node ==> n in v'.nodes && v'.nodes[n] == v.nodes[n])
  {
    var s := v.servers[server];
    if s.node in v.nodes {
      assert UsedIsExact(v, s.node);
    }
  }

  /** A node that re-registers with ranges that do not parse strands the servers it had attached. */
  lemma FailedReregistrationStrands(client: NodeClient)
    ensures var good := [RawAllocation("10.0.0.1", "", false, Some(PortRange(7000, 7001)))];
            var bad := [RawAllocation("10.0.0.1", "", false, None)];
            var run := [Register("n", "node", client, false, good), Register("n", "node", client, false, bad), Cleanup("s")];
            var v := Boot(map["s" := ("n", "node", Slot("10.0.0.1", 7000))]);
            PossibleRun(v, run) && "s" in Run(v, run).servers
  {
    var good := [RawAllocation("10.0.0.1", "", false, Some(PortRange(7000, 7001)))];
    var bad := [RawAllocation("10.0.0.1", "", false, None)];
    var run := [Register("n", "node", client, false, good), Register("n", "node", client, false, bad), Cleanup("s")];
    var v0 := Boot(map["s" := ("n", "node", Slot("10.0.0.1", 7000))]);
    var v1 := Step(v0, run[0]);
    var v2 := Step(v1, run[1]);
    var v3 := Step(v2, run[2]);
    assert bad[0].range.None?;
    assert v1.servers["s"].release == ThroughNode && v2.nodes["n"].book.None?;
    assert v3 == v2 && "s" in v3.servers;
    assert run[1..] == [run[1], run[2]] && run[1..][1..] == [run[2]] && run[1..][1..][1..] == [];
    assert PossibleRun(v3, []) && PossibleRun(v2, run[1..][1..]) && PossibleRun(v1, run[1..]);
    assert Run(v0, run) == Run(v1, run[1..]) == Run(v2, run[1..][1..]) == Run(v3, []);
  }
}

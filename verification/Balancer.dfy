/**
 The round-robin balancer (protocube/balancer/round_robin.go): a slice of nodes, an index map
 kept exactly inverse to it through replacement and swap-remove, and a rotating cursor.
 */
module Balancer {
  import opened Wrappers
  import opened Sequences
  import opened Nodes

  // ---------------------------------------------------------------------------
  // The rotation, on the drain flags alone
  // ---------------------------------------------------------------------------

  /** Where the cursor goes from `index`. */
  function Next(index: nat, n: nat): nat
    requires index < n
  {
    if index + 1 == n then 0 else index + 1
  }

  lemma NextIsMod(index: nat, n: nat)
    requires index < n
    ensures Next(index, n) == (index + 1) % n
  {
  }

  /** Position met after `d` steps from `index`. */
  function At(index: nat, d: nat, n: nat): nat
    requires index < n && d <= n
  {
    if index + d < n then index + d else index + d - n
  }

  /** The undrained positions among the `window` positions met from `index` on. */
  function Upcoming(drained: seq<bool>, index: nat, window: nat): seq<nat>
    requires index < |drained|
    decreases window
  {
    if window == 0 then []
    else (if drained[index] then [] else [index]) + Upcoming(drained, Next(index, |drained|), window - 1)
  }

  /** The position picked from `index`, looking at no more than `window` positions. */
  function Pick(drained: seq<bool>, index: nat, window: nat): Option<nat>
    requires index < |drained|
    decreases window
  {
    if window == 0 then None
    else if !drained[index] then Some(index)
    else Pick(drained, Next(index, |drained|), window - 1)
  }

  /** The positions returned by `k` consecutive picks. */
  function Picks(drained: seq<bool>, index: nat, k: nat): (r: seq<Option<nat>>)
    requires index < |drained|
    decreases k
  {
    if k == 0 then []
    else
      var p := Pick(drained, index, |drained|);
      [p] + Picks(drained, if p.Some? && p.value < |drained| then Next(p.value, |drained|) else index, k - 1)
  }

  ghost function Undrained(drained: seq<bool>): set<nat> {
    set i: nat | i < |drained| && !drained[i]
  }

  /** How many steps lead from `index` to `p`. */
  function Steps(index: nat, p: nat, n: nat): (d: nat)
    requires index < n && p < n
    ensures d < n && At(index, d, n) == p
  {
    if index <= p then p - index else p + n - index
  }

  lemma {:induction false} PickIsFirstUndrained(drained: seq<bool>, index: nat, window: nat)
    requires index < |drained| && window <= |drained|
    ensures match Pick(drained, index, window)
            case Some(p) => exists d: nat :: d < window && p == At(index, d, |drained|) && !drained[p]
                                             && forall e: nat :: e < d ==> drained[At(index, e, |drained|)]
            case None => forall e: nat :: e < window ==> drained[At(index, e, |drained|)]
    decreases window
  {
    var n := |drained|;
    if window > 0 {
      assert At(index, 0, n) == index;
      if drained[index] {
        var next := Next(index, n);
        PickIsFirstUndrained(drained, next, window - 1);
        match Pick(drained, next, window - 1) {
          case Some(p) =>
            var d: nat :| d < window - 1 && p == At(next, d, n) && !drained[p]
                          && forall e: nat :: e < d ==> drained[At(next, e, n)];
            assert p == At(index, d + 1, n);
            forall e: nat | e < d + 1 ensures drained[At(index, e, n)] {
              if e > 0 { assert At(next, e - 1, n) == At(index, e, n); }
            }
          case None =>
            forall e: nat | e < window ensures drained[At(index, e, n)] {
              if e > 0 { assert At(next, e - 1, n) == At(index, e, n); }
            }
        }
      }
    }
  }

  /** Looking further than the first hit changes nothing. */
  lemma {:induction false} PickWindow(drained: seq<bool>, index: nat, small: nat, large: nat)
    requires index < |drained| && small <= large <= |drained|
    requires Upcoming(drained, index, small) != []
    ensures Pick(drained, index, large) == Some(Upcoming(drained, index, small)[0])
    decreases small
  {
    if small > 0 && drained[index] {
      PickWindow(drained, Next(index, |drained|), small - 1, large - 1);
    }
  }

  /** After the first hit, what is still to come is the rest of the window. */
  lemma {:induction false} UpcomingTail(drained: seq<bool>, index: nat, window: nat) returns (rest: nat)
    requires index < |drained|
    requires Upcoming(drained, index, window) != []
    ensures var p := Upcoming(drained, index, window)[0];
            && rest < window && p < |drained|
            && Upcoming(drained, Next(p, |drained|), rest) == Upcoming(drained, index, window)[1..]
    decreases window
  {
    if drained[index] {
      rest := UpcomingTail(drained, Next(index, |drained|), window - 1);
    } else {
      rest := window - 1;
    }
  }

  lemma {:induction false} PicksFollowUpcoming(drained: seq<bool>, index: nat, window: nat)
    requires index < |drained| && window <= |drained|
    ensures var up := Upcoming(drained, index, window);
            Picks(drained, index, |up|) == seq(|up|, i requires 0 <= i < |up| => Some(up[i]))
    decreases window
  {
    var up := Upcoming(drained, index, window);
    if up != [] {
      PickWindow(drained, index, window, |drained|);
      var rest := UpcomingTail(drained, index, window);
      PicksFollowUpcoming(drained, Next(up[0], |drained|), rest);
    }
  }

  lemma {:induction false} UpcomingIsRotation(drained: seq<bool>, index: nat, window: nat)
    requires index < |drained| && window <= |drained|
    ensures forall p :: p in Upcoming(drained, index, window) ==> p < |drained| && !drained[p]
    ensures forall d: nat :: d < window && !drained[At(index, d, |drained|)]
                             ==> At(index, d, |drained|) in Upcoming(drained, index, window)
    ensures forall p :: p in Upcoming(drained, index, window) ==> Steps(index, p, |drained|) < window
    ensures Distinct(Upcoming(drained, index, window))
    decreases window
  {
    var n := |drained|;
    if window > 0 {
      var next := Next(index, n);
      UpcomingIsRotation(drained, next, window - 1);
      assert At(index, 0, n) == index;
      forall d: nat | d < window && !drained[At(index, d, n)] ensures At(index, d, n) in Upcoming(drained, index, window) {
        if d > 0 { assert At(index, d, n) == At(next, d - 1, n); }
      }
      forall p | p in Upcoming(drained, next, window - 1) ensures p != index && Steps(index, p, n) < window {
        assert Steps(next, p, n) < window - 1;
      }
    }
  }

  lemma {:induction false} DistinctCount(s: seq<nat>, t: set<nat>)
    requires Distinct(s)
    requires forall p :: p in s <==> p in t
    ensures |s| == |t|
    decreases |s|
  {
    if s != [] {
      assert s == [s[0]] + s[1..];
      DistinctCount(s[1..], t - {s[0]});
    } else {
      assert t == {};
    }
  }

  /** With the drain flags fixed, as many picks as there are undrained nodes return each of them exactly once,
      from wherever the cursor stands. */
  lemma RoundIsFair(drained: seq<bool>, index: nat)
    requires index < |drained|
    ensures var u := Undrained(drained);
            var picks := Picks(drained, index, |u|);
            && |picks| == |u|
            && (forall i :: 0 <= i < |picks| ==> picks[i].Some? && picks[i].value in u)
            && Distinct(picks)
            && (forall p :: p in u ==> Some(p) in picks)
  {
    var n := |drained|;
    var up := Upcoming(drained, index, n);
    UpcomingIsRotation(drained, index, n);
    forall p | p in Undrained(drained) ensures p in up {
      assert At(index, Steps(index, p, n), n) == p;
    }
    DistinctCount(up, Undrained(drained));
    PicksFollowUpcoming(drained, index, n);
    var picks := Picks(drained, index, |up|);
    forall p | p in Undrained(drained) ensures Some(p) in picks {
      var i :| 0 <= i < |up| && up[i] == p;
      assert picks[i] == Some(p);
    }
  }

  /** No node is picked exactly when every node is drained. */
  lemma PickFailsExactlyWhenAllDrained(drained: seq<bool>, index: nat)
    requires index < |drained|
    ensures Pick(drained, index, |drained|) == None <==> Undrained(drained) == {}
    ensures Pick(drained, index, |drained|).Some? ==> Pick(drained, index, |drained|).value in Undrained(drained)
  {
    var n := |drained|;
    PickIsFirstUndrained(drained, index, n);
    if Pick(drained, index, n) == None {
      forall p: nat | p < n ensures drained[p] {
        assert At(index, Steps(index, p, n), n) == p;
      }
    } else {
      assert Pick(drained, index, n).value in Undrained(drained);
    }
  }

  // ---------------------------------------------------------------------------
  // The mutable balancer
  // ---------------------------------------------------------------------------

  class RoundRobin {
    var nodes: seq<Node>
    var nodeMap: map<string, nat>
    var index: nat

    /** `nodeMap` is the exact inverse of `nodes` and the cursor stands inside the slice. */
    ghost predicate Valid()
      reads this
    {
      && (forall i :: 0 <= i < |nodes| ==> nodes[i].id in nodeMap && nodeMap[nodes[i].id] == i)
      && (forall id :: id in nodeMap ==> nodeMap[id] < |nodes| && nodes[nodeMap[id]].id == id)
      && (if nodes == [] then index == 0 else index < |nodes|)
    }

    ghost function Flags(): seq<bool>
      reads this, nodes
    {
      seq(|nodes|, i requires 0 <= i < |nodes| reads this, nodes => nodes[i].drained)
    }

    constructor ()
      ensures Valid() && nodes == []
    {
      nodes, nodeMap, index := [], map[], 0;
    }

    method PickNode() returns (r: Node?)
      requires Valid()
      modifies this`index
      ensures Valid() && Flags() == old(Flags())
      ensures nodes == [] ==> r == null && index == old(index)
      ensures nodes != [] ==> match Pick(Flags(), old(index), |nodes|)
                              case None => r == null && index == old(index)
                              case Some(p) => p < |nodes| && r == nodes[p] && index == Next(p, |nodes|)
    {
      if |nodes| == 0 {
        return null;
      }
      ghost var flags, n := Flags(), |nodes|;
      var i := 0;
      while i < |nodes|
        invariant 0 <= i <= n == |nodes| && unchanged(this`nodes, this`nodeMap) && Flags() == flags
        invariant index == At(old(index), i, n)
        invariant Pick(flags, old(index), n) == Pick(flags, index, n - i)
      {
        var candidate := nodes[index];
        assert candidate.drained == flags[index];
        NextIsMod(index, n);
        index := (index + 1) % |nodes|;
        assert Flags() == flags;
        if !candidate.drained {
          return candidate;
        }
        i := i + 1;
      }
      return null;
    }

    /** A node whose id is already known replaces the old entry in place. */
    method AddNode(n: Node)
      requires Valid()
      modifies this
      ensures Valid() && index == old(index)
      ensures nodes == if n.id in old(nodeMap) then old(nodes)[old(nodeMap)[n.id] := n] else old(nodes) + [n]
      ensures nodeMap.Keys == old(nodeMap).Keys + {n.id}
    {
      if n.id in nodeMap {
        nodes := nodes[nodeMap[n.id] := n];
        return;
      }
      nodes := nodes + [n];
      nodeMap := nodeMap[n.id := |nodes| - 1];
    }

    /** The last node has moved to where `id` was; a cursor that stood behind the end starts again. */
    twostate predicate SwapRemoved(id: string)
      requires old(Valid())
      reads this
    {
      if id !in old(nodeMap) then nodes == old(nodes) && index == old(index)
      else
        var last := |old(nodes)| - 1;
        && nodes == old(nodes)[old(nodeMap)[id] := old(nodes)[last]][..last]
        && index == if old(index) >= |nodes| > 0 then 0 else old(index)
    }

    /** The last node moves into the removed spot. */
    method RemoveNode(target: Node)
      requires Valid()
      modifies this
      ensures Valid()
      ensures nodeMap.Keys == old(nodeMap).Keys - {target.id}
      ensures SwapRemoved(target.id)
    {
      if target.id !in nodeMap {
        return;
      }
      var idx := nodeMap[target.id];
      var lastIdx := |nodes| - 1;
      var lastNode := nodes[lastIdx];
      nodes := nodes[idx := lastNode];
      nodeMap := nodeMap[lastNode.id := idx];
      nodes := nodes[..lastIdx];
      nodeMap := nodeMap - {target.id};
      if index >= |nodes| && |nodes| > 0 {
        index := 0;
      }
    }
  }

  /** What a removal leaves: the same nodes by id, minus the target. */
  lemma SwapRemoveKeepsOthers(nodes: seq<Node>, k: nat, m: Node)
    requires k < |nodes|
    requires forall i, j :: 0 <= i < j < |nodes| ==> nodes[i].id != nodes[j].id
    ensures var last := |nodes| - 1; m in nodes[k := nodes[last]][..last] <==> m in nodes && m != nodes[k]
  {
    var last := |nodes| - 1;
    var after := nodes[k := nodes[last]][..last];
    if m in nodes && m != nodes[k] {
      var i :| 0 <= i < |nodes| && nodes[i] == m;
      if i == last { assert after[k] == m; } else { assert after[i] == m; }
    }
  }

  // ---------------------------------------------------------------------------
  // Rounds of picks on the object
  // ---------------------------------------------------------------------------

  /** The nodes at the picked positions. */
  predicate AreAt(picked: seq<Node?>, nodes: seq<Node>, picks: seq<Option<nat>>) {
    |picked| == |picks| && forall i :: 0 <= i < |picks| ==>
      match picks[i]
      case None => picked[i] == null
      case Some(p) => p < |nodes| && picked[i] == nodes[p]
  }

  /** Picks `k` times in a row. */
  method PickTimes(b: RoundRobin, k: nat) returns (picked: seq<Node?>)
    requires b.Valid() && b.nodes != []
    modifies b
    ensures b.Valid() && b.nodes == old(b.nodes) && b.nodeMap == old(b.nodeMap) && b.Flags() == old(b.Flags())
    ensures AreAt(picked, b.nodes, Picks(b.Flags(), old(b.index), k))
  {
    picked := [];
    ghost var flags, nodes := b.Flags(), b.nodes;
    ghost var first := Picks(flags, b.index, 0);
    for i := 0 to k
      invariant b.Valid() && b.nodes == nodes && b.nodeMap == old(b.nodeMap) && b.Flags() == flags && b.index < |flags|
      invariant Picks(flags, old(b.index), k) == first + Picks(flags, b.index, k - i)
      invariant AreAt(picked, nodes, first)
    {
      ghost var p, later := Pick(flags, b.index, |flags|), Picks(flags, b.index, k - i)[1..];
      var r := b.PickNode();
      assert Picks(flags, b.index, k - i - 1) == later;
      assert first + ([p] + later) == first + [p] + later;
      first, picked := first + [p], picked + [r];
    }
  }

  /** With drain flags fixed, `k` picks in a row, `k` being the number of undrained nodes, return each
      undrained node exactly once and nothing else. */
  method PickRound(b: RoundRobin, k: nat) returns (picked: seq<Node?>)
    requires b.Valid() && b.nodes != [] && k == |Undrained(b.Flags())|
    modifies b
    ensures b.Valid() && b.nodes == old(b.nodes) && b.Flags() == old(b.Flags())
    ensures |picked| == k && Distinct(picked)
    ensures forall n: Node :: n in picked <==> n in b.nodes && !n.drained
    ensures null !in picked
  {
    RoundIsFair(b.Flags(), b.index);
    ghost var flags, picks := b.Flags(), Picks(b.Flags(), b.index, k);
    picked := PickTimes(b, k);
    RoundOfNodes(b, picked, picks);
  }

  lemma RoundOfNodes(b: RoundRobin, picked: seq<Node?>, picks: seq<Option<nat>>)
    requires b.Valid() && AreAt(picked, b.nodes, picks)
    requires Distinct(picks) && forall i :: 0 <= i < |picks| ==> picks[i].Some? && picks[i].value in Undrained(b.Flags())
    requires forall p :: p in Undrained(b.Flags()) ==> Some(p) in picks
    ensures Distinct(picked) && null !in picked
    ensures forall n: Node :: n in picked <==> n in b.nodes && !n.drained
  {
    forall i, j | 0 <= i < j < |picked| ensures picked[i] != picked[j] {
      assert picks[i] != picks[j] && picks[i].value < |b.nodes| && picks[j].value < |b.nodes|;
    }
    forall n: Node | n in picked ensures n in b.nodes && !n.drained {
      var i :| 0 <= i < |picked| && picked[i] == n;
      assert !b.Flags()[picks[i].value];
    }
    forall n: Node | n in b.nodes && !n.drained ensures n in picked {
      var p: nat :| p < |b.nodes| && b.nodes[p] == n;
      assert !b.Flags()[p] && p in Undrained(b.Flags());
      var i :| 0 <= i < |picks| && picks[i] == Some(p);
      assert picked[i] == n;
    }
  }
}

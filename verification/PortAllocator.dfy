/**
 The port allocator of one node (protocube/node/allocator/allocator.go).

 `Book` is the meaning of an allocator: the configured ranges and the set of slots in use.
 `Allocator` is the mutable object, with the nested map the program keeps; each of its
 methods is tied to a function of the book.
 */
module PortAllocator {
  import opened Wrappers
  import opened Sequences

  datatype PortRange = PortRange(start: int, end: int)

  datatype Allocation = Allocation(address: string, alias: string, forceOutgoingIP: bool, range: PortRange)

  datatype Slot = Slot(ip: string, port: int)

  datatype AllocError = NothingConfigured | NoAllocationsForAddress | NoFreePorts

  type Ranges = map<string, seq<Allocation>>

  /** An address is only listed with at least one range. */
  ghost predicate NoneEmpty(ranges: Ranges) {
    forall a :: a in ranges ==> ranges[a] != []
  }

  predicate Covers(a: Allocation, port: int) {
    a.range.start <= port <= a.range.end
  }

  predicate InRange(ranges: Ranges, s: Slot) {
    s.ip in ranges && exists k :: 0 <= k < |ranges[s.ip]| && Covers(ranges[s.ip][k], s.port)
  }

  // ---------------------------------------------------------------------------
  // The meaning of an allocator
  // ---------------------------------------------------------------------------

  datatype Book = Book(ranges: Ranges, taken: set<Slot>)
  {
    /** A slot the configuration offers and nobody holds. */
    predicate Offers(s: Slot) {
      InRange(ranges, s) && s !in taken
    }
  }

  ghost function ClaimIn(b: Book, s: Slot): Book {
    if InRange(b.ranges, s) then b.(taken := b.taken + {s}) else b
  }

  ghost function ReleaseIn(b: Book, s: Slot): Book {
    b.(taken := b.taken - {s})
  }

  /** The lowest port of `lo..hi` that is free at `ip`. */
  ghost function LowestFree(taken: set<Slot>, ip: string, lo: int, hi: int): (r: Option<int>)
    decreases hi - lo
  {
    if lo > hi then None
    else if Slot(ip, lo) !in taken then Some(lo)
    else LowestFree(taken, ip, lo + 1, hi)
  }

  /** The allocation and port that a scan of `allocs` settles on. */
  ghost function ScanRanges(taken: set<Slot>, ip: string, allocs: seq<Allocation>): (r: Option<(int, Allocation)>)
  {
    if allocs == [] then None
    else match LowestFree(taken, ip, allocs[0].range.start, allocs[0].range.end)
      case Some(p) => Some((p, allocs[0]))
      case None => ScanRanges(taken, ip, allocs[1..])
  }

  /** The slot handed out when the addresses are tried in the order `order`. */
  ghost function PickSlot(b: Book, order: seq<string>): (r: Option<Slot>)
    requires forall a :: a in order ==> a in b.ranges
  {
    if order == [] then None
    else match ScanRanges(b.taken, order[0], b.ranges[order[0]])
      case Some(pa) => Some(Slot(order[0], pa.0))
      case None => PickSlot(b, order[1..])
  }

  /** `order` is what shuffling the configured addresses can produce. */
  ghost predicate IsShuffle(order: seq<string>, ranges: Ranges) {
    (forall a :: a in order <==> a in ranges) && Distinct(order)
  }

  // ---------------------------------------------------------------------------
  // What a scan promises
  // ---------------------------------------------------------------------------

  lemma {:induction false} LowestFreeIsLeast(taken: set<Slot>, ip: string, lo: int, hi: int)
    ensures match LowestFree(taken, ip, lo, hi)
            case Some(p) => lo <= p <= hi && Slot(ip, p) !in taken && forall q :: lo <= q < p ==> Slot(ip, q) in taken
            case None => forall q :: lo <= q <= hi ==> Slot(ip, q) in taken
    decreases hi - lo
  {
    if lo <= hi && Slot(ip, lo) in taken {
      LowestFreeIsLeast(taken, ip, lo + 1, hi);
    }
  }

  lemma {:induction false} ScanFindsFirst(taken: set<Slot>, ip: string, allocs: seq<Allocation>)
    ensures match ScanRanges(taken, ip, allocs)
            case Some(pa) =>
              exists k :: 0 <= k < |allocs| && allocs[k] == pa.1 && Covers(allocs[k], pa.0) && Slot(ip, pa.0) !in taken
                          && (forall q :: Covers(allocs[k], q) && q < pa.0 ==> Slot(ip, q) in taken)
                          && forall j, q :: 0 <= j < k && Covers(allocs[j], q) ==> Slot(ip, q) in taken
            case None =>
              forall j, q :: 0 <= j < |allocs| && Covers(allocs[j], q) ==> Slot(ip, q) in taken
  {
    if allocs != [] {
      LowestFreeIsLeast(taken, ip, allocs[0].range.start, allocs[0].range.end);
      if LowestFree(taken, ip, allocs[0].range.start, allocs[0].range.end) == None {
        ScanFindsFirst(taken, ip, allocs[1..]);
        match ScanRanges(taken, ip, allocs[1..]) {
          case Some(pa) =>
            var rest := allocs[1..];
            var k :| 0 <= k < |rest| && rest[k] == pa.1 && Covers(rest[k], pa.0) && Slot(ip, pa.0) !in taken
                     && (forall q :: Covers(rest[k], q) && q < pa.0 ==> Slot(ip, q) in taken)
                     && forall j, q :: 0 <= j < k && Covers(rest[j], q) ==> Slot(ip, q) in taken;
            assert allocs[k + 1] == rest[k];
            forall j, q | 0 <= j < k + 1 && Covers(allocs[j], q) ensures Slot(ip, q) in taken {
              if j > 0 { assert allocs[j] == rest[j - 1]; }
            }
          case None =>
            forall j, q | 0 <= j < |allocs| && Covers(allocs[j], q) ensures Slot(ip, q) in taken {
              if j > 0 { assert allocs[j] == allocs[1..][j - 1]; }
            }
        }
      } else {
        assert Covers(allocs[0], LowestFree(taken, ip, allocs[0].range.start, allocs[0].range.end).value);
      }
    }
  }

  /** For every order of the addresses: the slot handed out was on offer, and no slot is
      handed out exactly when every port of every range is taken. */
  lemma {:induction false} PickIsOffered(b: Book, order: seq<string>)
    requires forall a :: a in order ==> a in b.ranges
    ensures match PickSlot(b, order)
            case Some(s) => s.ip in order && b.Offers(s)
            case None => forall s :: b.Offers(s) ==> s.ip !in order
  {
    if order != [] {
      var ip := order[0];
      ScanFindsFirst(b.taken, ip, b.ranges[ip]);
      PickIsOffered(b, order[1..]);
      if ScanRanges(b.taken, ip, b.ranges[ip]) == None {
        forall s | b.Offers(s) ensures PickSlot(b, order) == None ==> s.ip !in order {
          assert order == [ip] + order[1..];
        }
      }
    }
  }

  /** The first address in the order that has a free port wins. */
  lemma {:induction false} PickFindsFirst(b: Book, order: seq<string>)
    requires forall a :: a in order ==> a in b.ranges
    ensures PickSlot(b, order).Some? ==>
              exists k :: 0 <= k < |order| && PickSlot(b, order).value.ip == order[k]
                          && ScanRanges(b.taken, order[k], b.ranges[order[k]]).Some?
                          && PickSlot(b, order).value.port == ScanRanges(b.taken, order[k], b.ranges[order[k]]).value.0
                          && forall j, s :: 0 <= j < k && b.Offers(s) ==> s.ip != order[j]
  {
    if order != [] {
      var ip := order[0];
      ScanFindsFirst(b.taken, ip, b.ranges[ip]);
      if ScanRanges(b.taken, ip, b.ranges[ip]) == None {
        var rest := order[1..];
        PickFindsFirst(b, rest);
        if PickSlot(b, order).Some? {
          var k :| 0 <= k < |rest| && PickSlot(b, rest).value.ip == rest[k]
                   && ScanRanges(b.taken, rest[k], b.ranges[rest[k]]).Some?
                   && PickSlot(b, rest).value.port == ScanRanges(b.taken, rest[k], b.ranges[rest[k]]).value.0
                   && forall j, s :: 0 <= j < k && b.Offers(s) ==> s.ip != rest[j];
          assert order[k + 1] == rest[k];
          forall j, s | 0 <= j < k + 1 && b.Offers(s) ensures s.ip != order[j] {
            if j > 0 { assert order[j] == rest[j - 1]; }
          }
        }
      }
    }
  }

  lemma AllocationFailsExactlyWhenFull(b: Book, order: seq<string>)
    requires IsShuffle(order, b.ranges)
    ensures PickSlot(b, order) == None <==> forall s :: InRange(b.ranges, s) ==> s in b.taken
    ensures PickSlot(b, order).Some? ==> b.Offers(PickSlot(b, order).value)
  {
    PickIsOffered(b, order);
    if PickSlot(b, order) == None {
      forall s | InRange(b.ranges, s) ensures s in b.taken {
        assert s.ip in order;
        assert b.Offers(s) || s in b.taken;
      }
    }
  }

  // ---------------------------------------------------------------------------
  // The mutable allocator
  // ---------------------------------------------------------------------------

  /** A configured allocation as the node sends it; `range` is None when its port range does not parse. */
  datatype RawAllocation = RawAllocation(address: string, alias: string, forceOutgoingIP: bool, range: Option<PortRange>)

  predicate Parses(raw: seq<RawAllocation>) {
    forall i :: 0 <= i < |raw| ==> raw[i].range.Some?
  }

  function Parsed(r: RawAllocation): Allocation
    requires r.range.Some?
  {
    Allocation(r.address, r.alias, r.forceOutgoingIP, r.range.value)
  }

  function AddAllocation(m: Ranges, a: Allocation): Ranges {
    m[a.address := (if a.address in m then m[a.address] else []) + [a]]
  }

  function Grouped(raw: seq<RawAllocation>): (m: Ranges)
    requires Parses(raw)
  {
    if raw == [] then map[]
    else AddAllocation(Grouped(raw[..|raw| - 1]), Parsed(raw[|raw| - 1]))
  }

  /** Grouping by address loses no range and invents none. */
  lemma {:induction false} GroupedIsExact(raw: seq<RawAllocation>, s: Slot)
    requires Parses(raw)
    ensures InRange(Grouped(raw), s)
            <==> exists i :: 0 <= i < |raw| && raw[i].address == s.ip && Covers(Parsed(raw[i]), s.port)
  {
    if raw != [] {
      var n := |raw| - 1;
      GroupedIsExact(raw[..n], s);
      var before, after := Grouped(raw[..n]), Grouped(raw);
      var last := Parsed(raw[n]);
      if last.address == s.ip {
        var old' := if s.ip in before then before[s.ip] else [];
        assert after[s.ip] == old' + [last];
        assert InRange(after, s) <==> InRange(before, s) || Covers(last, s.port) by {
          if Covers(last, s.port) { assert after[s.ip][|old'|] == last; }
          if InRange(before, s) {
            var k :| 0 <= k < |before[s.ip]| && Covers(before[s.ip][k], s.port);
            assert after[s.ip][k] == before[s.ip][k];
          }
        }
      }
    }
  }

  /** The allocations sent for an address, in the order in which they were sent. */
  function SentFor(raw: seq<RawAllocation>, address: string): seq<Allocation>
    requires Parses(raw)
  {
    if raw == [] then []
    else (if raw[0].address == address then [Parsed(raw[0])] else []) + SentFor(raw[1..], address)
  }

  lemma {:induction false} SentForLast(raw: seq<RawAllocation>, address: string)
    requires Parses(raw) && raw != []
    ensures var n := |raw| - 1;
            SentFor(raw, address) == SentFor(raw[..n], address) + if raw[n].address == address then [Parsed(raw[n])] else []
  {
    var n := |raw| - 1;
    if n > 0 {
      SentForLast(raw[1..], address);
      assert raw[..n][1..] == raw[1..][..n - 1];
    }
  }

  /** Each address is listed with its allocations in the order in which they were sent, so that the range tried
      first is the one configured first. */
  lemma {:induction false} GroupedKeepsOrder(raw: seq<RawAllocation>, address: string)
    requires Parses(raw)
    ensures SentFor(raw, address) == if address in Grouped(raw) then Grouped(raw)[address] else []
  {
    if raw != [] {
      GroupedKeepsOrder(raw[..|raw| - 1], address);
      SentForLast(raw, address);
    }
  }

  lemma {:induction false} GroupedListsNoEmptyAddress(raw: seq<RawAllocation>)
    requires Parses(raw)
    ensures NoneEmpty(Grouped(raw))
  {
    if raw != [] {
      GroupedListsNoEmptyAddress(raw[..|raw| - 1]);
    }
  }

  class Allocator {
    var Used: map<string, set<int>>
    const Allocations: Ranges
    /** The node this allocator was built for. */
    ghost const owner: string

    ghost predicate Valid() {
      NoneEmpty(Allocations)
    }

    constructor (ghost owner: string, ranges: Ranges)
      requires NoneEmpty(ranges)
      ensures Valid()
      ensures this.owner == owner && Allocations == ranges
      ensures Contents() == Book(ranges, {})
    {
      this.owner := owner;
      Allocations := ranges;
      Used := map[];
    }

    ghost function Contents(): Book
      reads this
    {
      Book(Allocations, set ip, p | ip in Used && p in Used[ip] :: Slot(ip, p))
    }

    /** Takes the lowest free port of the first range of `address` that has one. */
    method Allocate(address: string) returns (r: Result<(int, Allocation), AllocError>)
      modifies this
      ensures match r
              case Success(pa) =>
                && address in Allocations
                && ScanRanges(old(Contents()).taken, address, Allocations[address]) == Some(pa)
                && Contents() == ClaimIn(old(Contents()), Slot(address, pa.0))
              case Failure(e) =>
                && Contents() == old(Contents())
                && (if address !in Allocations || Allocations[address] == [] then e == NoAllocationsForAddress
                    else e == NoFreePorts && ScanRanges(Contents().taken, address, Allocations[address]) == None)
    {
      if address !in Allocations || Allocations[address] == [] {
        return Failure(NoAllocationsForAddress);
      }
      if address !in Used {
        Used := Used[address := {}];
      }
      ghost var taken := Contents().taken;
      assert taken == old(Contents()).taken;
      var allocs, i := Allocations[address], 0;
      while i < |allocs|
        invariant 0 <= i <= |allocs|
        invariant unchanged(this) || Used == old(Used)[address := {}]
        invariant address in Used && Contents().taken == taken == old(Contents()).taken
        invariant ScanRanges(taken, address, allocs) == ScanRanges(taken, address, allocs[i..])
      {
        var port, end := allocs[i].range.start, allocs[i].range.end;
        while port <= end
          invariant LowestFree(taken, address, allocs[i].range.start, end) == LowestFree(taken, address, port, end)
          invariant port >= allocs[i].range.start
          decreases end - port
        {
          if port !in Used[address] {
            assert Slot(address, port) !in taken;
            ScanFindsFirst(taken, address, allocs[i..]);
            assert Covers(allocs[i], port);
            Used := Used[address := Used[address] + {port}];
            assert Contents().taken == taken + {Slot(address, port)};
            return Success((port, allocs[i]));
          }
          assert Slot(address, port) in taken;
          port := port + 1;
        }
        i := i + 1;
      }
      return Failure(NoFreePorts);
    }

    /** `order` is the shuffled list of addresses. */
    method NewAllocation(order: seq<string>) returns (r: Result<Slot, AllocError>)
      requires Valid() && IsShuffle(order, Allocations)
      modifies this
      ensures match PickSlot(old(Contents()), order)
              case Some(s) => r == Success(s) && Contents() == ClaimIn(old(Contents()), s)
              case None =>
                r == Failure(if |Allocations| == 0 then NothingConfigured else NoFreePorts) && Contents() == old(Contents())
      ensures r.Success? ==> old(Contents()).Offers(r.value)
    {
      if |Allocations| == 0 {
        PickIsOffered(Contents(), order);
        return Failure(NothingConfigured);
      }
      var i := 0;
      while i < |order|
        invariant 0 <= i <= |order|
        invariant Contents() == old(Contents())
        invariant PickSlot(old(Contents()), order) == PickSlot(old(Contents()), order[i..])
      {
        var res := Allocate(order[i]);
        match res {
          case Success(pa) =>
            PickIsOffered(old(Contents()), order);
            return Success(Slot(order[i], pa.0));
          case Failure(e) =>
            if e != NoFreePorts {
              return Failure(e);
            }
        }
        i := i + 1;
      }
      return Failure(NoFreePorts);
    }

    method Release(address: string, port: int)
      modifies this
      ensures Contents() == ReleaseIn(old(Contents()), Slot(address, port))
    {
      if address in Used {
        Used := Used[address := Used[address] - {port}];
      }
    }

    /** Claiming a port outside every configured range does nothing. */
    method Claim(address: string, port: int)
      modifies this
      ensures Contents() == ClaimIn(old(Contents()), Slot(address, port))
    {
      if address !in Allocations || Allocations[address] == [] {
        return;
      }
      var allocs := Allocations[address];
      var inRange, i := false, 0;
      while i < |allocs|
        invariant 0 <= i <= |allocs|
        invariant !inRange && forall k :: 0 <= k < i ==> !Covers(allocs[k], port)
      {
        if port >= allocs[i].range.start && port <= allocs[i].range.end {
          assert Covers(allocs[i], port);
          inRange := true;
          break;
        }
        i := i + 1;
      }
      if !inRange {
        return;
      }
      if address !in Used {
        Used := Used[address := {}];
      }
      Used := Used[address := Used[address] + {port}];
    }
  }

  /** Builds an allocator from a node's configuration; any range that does not parse fails the whole build. */
  method NewAllocator(ghost owner: string, raw: seq<RawAllocation>) returns (r: Option<Allocator>)
    ensures r.Some? <==> Parses(raw)
    ensures r.Some? ==> fresh(r.value) && r.value.Valid()
    ensures r.Some? ==> r.value.owner == owner && r.value.Contents() == Book(Grouped(raw), {})
  {
    var m: Ranges, i := map[], 0;
    while i < |raw|
      invariant 0 <= i <= |raw|
      invariant Parses(raw[..i]) && m == Grouped(raw[..i])
    {
      if raw[i].range.None? {
        return None;
      }
      assert raw[..i + 1][..i] == raw[..i];
      m := AddAllocation(m, Parsed(raw[i]));
      i := i + 1;
    }
    assert raw[..i] == raw;
    GroupedListsNoEmptyAddress(raw);
    var a := new Allocator(owner, m);
    r := Some(a);
  }
}

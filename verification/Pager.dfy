/**
 How a daemon lists its servers: the controller serves one page at a time (getAllServerConfigurations in
 protocube/api/router/router_node.go) and the daemon asks for the first page, then for all others at once
 (GetServers in daemon/remote/servers.go). The listing is the same for every request.
 */
module Pager {
  import opened Wrappers
  import opened Sequences
  import opened Integers

  datatype Meta = Meta(currentPage: nat, from: nat, lastPage: nat, perPage: nat, to: nat, total: nat)

  function PageNumber(page: int): int {
    if page < 1 then 1 else page
  }

  function PageSize(perPage: int): int {
    if perPage < 1 then 50 else perPage
  }

  /** The `p`th page of `n` entries, as far as the listing reaches. */
  function Chunk<T>(configs: seq<T>, p: nat, n: nat): seq<T>
    requires p > 0
  {
    MulMonotone(p - 1, p, n);
    configs[Least((p - 1) * n, |configs|)..Least(p * n, |configs|)]
  }

  lemma MulMonotone(p: nat, q: nat, n: nat)
    requires p <= q
    ensures 0 <= p * n <= q * n
  {
    assert q * n == p * n + (q - p) * n;
    assert (q - p) * n >= 0;
  }

  /** The number of pages: the least one whose pages hold everything. */
  predicate IsPageCount(count: nat, total: nat, n: nat) {
    count * n >= total && (count > 0 ==> (count - 1) * n < total)
  }

  function Ceiling(total: nat, n: nat): (count: nat)
    requires n > 0
    ensures IsPageCount(count, total, n)
    ensures total > 0 ==> count == (total + n - 1) / n
  {
    if total == 0 then 0
    else
      var count := (total + n - 1) / n;
      DivBounds(total + n - 1, n);
      assert (count - 1) * n == count * n - n;
      count
  }

  lemma DivBounds(a: nat, n: nat)
    requires n > 0
    ensures (a / n) * n <= a < (a / n) * n + n
  {
    assert a == n * (a / n) + a % n;
    assert n * (a / n) == (a / n) * n;
  }

  lemma ChunkBounds<T>(configs: seq<T>, p: nat, n: nat, start: int)
    requires p > 0 && start == (p - 1) * n
    ensures 0 <= start
    ensures Chunk(configs, p, n)
            == if start < |configs| then configs[start..Least(start + n, |configs|)] else []
  {
    MulMonotone(p - 1, p, n);
    assert p * n == start + n;
  }

  /** The quotient of the 64-bit sum, truncated towards zero. */
  function QuotientUp(total: int, n: int): int
    requires n > 0
  {
    var sum := Wrap64(total + n - 1);
    if sum >= 0 then sum / n else -(-sum / n)
  }

  /** Whether the 64-bit bounds of a page cut out the right slice. */
  predicate SliceIsRight(p: int, n: int, total: int) {
    p * n <= MAX_INT64 || Wrap64((p - 1) * n) >= total
  }

  /** Whether they are no bounds of a slice at all. */
  predicate SlicePanics(p: int, n: int, total: int) {
    var start := Wrap64((p - 1) * n);
    start < total && (start < 0 || start + n > MAX_INT64)
  }

  lemma WrapRange(x: int)
    ensures 0 <= x <= MAX_INT64 ==> Wrap64(x) == x
    ensures MAX_INT64 < x < TWO_64 ==> Wrap64(x) == x - TWO_64
  {
    if 0 <= x <= MAX_INT64 {
      WrapIsIdentity(x);
    } else if MAX_INT64 < x < TWO_64 {
      WrapsOnce(x);
    }
  }

  /** The slice of the listing between the clamped bounds, and those bounds; none if slicing panics. */
  method PagedSlice<T>(configurations: seq<T>, p: int, n: int) returns (paged: Option<seq<T>>, start: int, end: int)
    requires |configurations| <= MAX_INT64 && 1 <= p <= MAX_INT64 && 1 <= n <= MAX_INT64
    ensures paged == None <==> SlicePanics(p, n, |configurations|)
    ensures paged == Some(Chunk(configurations, p, n)) <==> SliceIsRight(p, n, |configurations|)
    ensures paged.Some? && |paged.value| > 0 ==>
              0 <= start < end <= |configurations| && paged.value == configurations[start..end]
  {
    var total := |configurations|;
    ghost var product := (p - 1) * n;
    start := Wrap64((p - 1) * n);
    WrapRange(product);
    end := Wrap64(start + n);
    WrapRange(start + n);
    BoundsDecide(configurations, p, n, product, start, end);
    if start > total {
      start := total;
    }
    if end > total {
      end := total;
    }
    if start < total {
      if start < 0 || end < start {
        return None, start, end;
      }
      paged := Some(configurations[start..end]);
    } else {
      paged := Some([]);
    }
  }

  /** What the wrapped bounds come to. */
  lemma BoundsDecide<T>(configs: seq<T>, p: int, n: int, product: int, start: int, end: int)
    requires |configs| <= MAX_INT64 && 1 <= p <= MAX_INT64 && 1 <= n <= MAX_INT64
    requires product == (p - 1) * n && start == Wrap64(product) && end == Wrap64(start + n)
    ensures SlicePanics(p, n, |configs|) <==> start < |configs| && (start < 0 || end < start)
    ensures start >= |configs| ==> Chunk(configs, p, n) == []
    ensures 0 <= start < |configs| && start < end ==>
              (configs[start..Least(end, |configs|)] == Chunk(configs, p, n) <==> p * n <= MAX_INT64)
    ensures p * n <= MAX_INT64 && start < |configs| ==> 0 <= start < end
  {
    MulMonotone(0, p - 1, n);
    assert p * n == product + n;
    WrapRange(product);
    WrapRange(start + n);
    ChunkBounds(configs, p, n, product);
  }

  /** The number of the last page, as the answer reports it. */
  function LastPageOf(total: nat, n: int): nat
    requires n > 0
  {
    if total > 0 then Unsigned(QuotientUp(total, n)) else 0
  }

  method LastPage(total: nat, n: int) returns (lastPage: nat)
    requires n > 0
    ensures lastPage == LastPageOf(total, n)
  {
    var totalPages := 0;
    if n > 0 && total > 0 {
      totalPages := QuotientUp(total, n);
    }
    return Unsigned(totalPages);
  }

  datatype Response<T> = Page(data: seq<T>, meta: Meta) | Panic

  /** The page arithmetic of the controller, for all page numbers and page sizes. Behind the last page the
      page is empty, and `from` passes `to`. */
  method GetAllServerConfigurations<T>(configurations: seq<T>, page: int, perPage: int) returns (r: Response<T>)
    requires |configurations| <= MAX_INT64 && InInt64(page) && InInt64(perPage)
    ensures r.Panic? <==> SlicePanics(PageNumber(page), PageSize(perPage), |configurations|)
    ensures r.Page? && r.data == Chunk(configurations, PageNumber(page), PageSize(perPage))
            <==> SliceIsRight(PageNumber(page), PageSize(perPage), |configurations|)
    ensures r.Page? ==>
              && r.meta.currentPage == (if page < 1 then 1 else page) && r.meta.perPage == (if perPage < 1 then 50 else perPage)
              && r.meta.total == |configurations| && r.meta.lastPage == LastPageOf(|configurations|, PageSize(perPage))
    ensures r.Page? && |r.data| > 0 ==>
              1 <= r.meta.from <= r.meta.to <= |configurations| && r.data == configurations[r.meta.from - 1..r.meta.to]
    ensures r.Page? && |configurations| == 0 ==> r.data == [] && r.meta.from == r.meta.to == 0
  {
    var p, n := page, perPage;
    if p < 1 {
      p := 1;
    }
    if n < 1 {
      n := 50;
    }
    var total := |configurations|;
    var paged, start, end := PagedSlice(configurations, p, n);
    if paged == None {
      return Panic;
    }
    var lastPage := LastPage(total, n);
    var from, to := 0, 0;
    if total > 0 {
      from, to := Unsigned(start + 1), Unsigned(end);
      UnsignedOfSmall(start + 1);
      UnsignedOfSmall(end);
    }
    return Page(paged.value, Meta(p, from, lastPage, n, to, total));
  }

  /** A page number beyond the 64-bit range is read as the largest one; with the default page size the
      bounds wrap to -100 and -50, and the request panics whatever the listing. */
  lemma HugePagePanics(total: nat)
    ensures SlicePanics(PageNumber(MAX_INT64), PageSize(50), total)
  {
    assert Wrap64((MAX_INT64 - 1) * 50) == -100;
  }

  lemma CountSurvives(total: int, n: int, sum: int)
    requires 0 < total && 0 < n && sum == total + n - 1 <= MAX_INT64
    ensures Unsigned(QuotientUp(total, n)) == Ceiling(total, n)
  {
    WrapIsIdentity(sum);
    CountFits(sum, n);
  }

  lemma CountIsLost(total: int, n: int, sum: int)
    requires 0 < total <= MAX_INT64 && 0 < n <= MAX_INT64 && sum == total + n - 1 > MAX_INT64
    ensures Unsigned(QuotientUp(total, n)) != Ceiling(total, n)
  {
    WrapsOnce(sum);
    NegativeCount(TWO_64 - sum, n, sum);
  }

  /** The rounded-up quotient survives exactly when the sum does not overflow. */
  lemma WrappedCount(total: int, n: int)
    requires 0 < total <= MAX_INT64 && 0 < n <= MAX_INT64
    ensures Unsigned(QuotientUp(total, n)) == Ceiling(total, n) <==> total + n - 1 <= MAX_INT64
  {
    var sum := total + n - 1;
    if sum <= MAX_INT64 {
      CountSurvives(total, n, sum);
    } else {
      CountIsLost(total, n, sum);
    }
  }

  /** A listing is a slice of pointers, of which no more than this many can be allocated. */
  const MAX_LIST: int := MAX_INT64 / 8

  /** The page numbers after the first never end: the last one is reported as 2^64 - 1. */
  predicate NeverEnds(total: int, n: int) {
    total + n - 1 > MAX_INT64 && total + 2 * n - 1 <= TWO_64
  }

  /** What is reported as the last page: the right number; or, if the sum overflows, when one page holds the
      whole listing anyway, none at all or the largest number there is. */
  lemma LastPageExactly(total: nat, n: int)
    requires total <= MAX_LIST && 0 < n <= MAX_INT64
    ensures LastPageOf(total, n) == if total + n - 1 <= MAX_INT64 then Ceiling(total, n)
                                    else if NeverEnds(total, n) then TWO_64 - 1 else 0
    ensures total + n - 1 > MAX_INT64 ==> Ceiling(total, n) == 1
  {
    var sum := total + n - 1;
    if sum <= MAX_INT64 {
      if total > 0 {
        WrappedCount(total, n);
      }
    } else {
      OnePageHolds(total, n);
      WrapRange(sum);
      var m := TWO_64 - sum;
      assert m < 2 * n;
      SmallQuotient(m, n);
      assert QuotientUp(total, n) == -(m / n);
    }
  }

  lemma OnePageHolds(total: nat, n: nat)
    requires 0 < total <= n
    ensures Ceiling(total, n) == 1
  {
    var count := Ceiling(total, n);
    assert count == 0 ==> count * n == 0;
    if count > 1 {
      MulMonotone(1, count - 1, n);
    }
  }

  lemma SmallQuotient(m: nat, n: nat)
    requires 0 < n && m < 2 * n
    ensures m / n == if m < n then 0 else 1
  {
    DivBounds(m, n);
    if m / n >= 2 {
      MulMonotone(2, m / n, n);
    }
  }

  lemma CountFits(sum: nat, n: nat)
    requires 0 < n && sum <= MAX_INT64
    ensures Unsigned(sum / n) == sum / n
  {
    DivBounds(sum, n);
    MulMonotone(1, n, sum / n);
    assert (sum / n) * n == n * (sum / n);
  }

  /** A negative quotient, read as an unsigned number, is far too large. */
  lemma NegativeCount(m: nat, n: nat, sum: nat)
    requires 2 <= n <= MAX_INT64 && MAX_INT64 < sum < TWO_64 && m == TWO_64 - sum
    ensures Unsigned(-(m / n)) != sum / n
  {
    var a, b: int := m / n, sum / n;
    DivBounds(m, n);
    DivBounds(sum, n);
    Twice(a, n);
    Twice(b, n);
    assert 2 * (a + b) <= TWO_64;
    assert b == 0 ==> b * n == 0;
  }

  lemma Twice(a: nat, n: nat)
    requires n >= 2
    ensures 2 * a <= a * n
  {
    MulMonotone(2, n, a);
    assert a * n == n * a;
  }

  // ---------------------------------------------------------------------------
  // The daemon's side
  // ---------------------------------------------------------------------------

  type pos = p: int | p > 0 witness 1

  /** The pages one after the other. */
  function Gather<T>(configs: seq<T>, order: seq<pos>, n: nat): seq<T> {
    if order == [] then []
    else Gather(configs, order[..|order| - 1], n) + Chunk(configs, order[|order| - 1], n)
  }

  /** The page that holds the `i`th entry. */
  function PageIndex(i: nat, n: pos): pos {
    i / n + 1
  }

  lemma OnPageExactly(i: nat, p: pos, n: pos)
    ensures (p - 1) * n <= i < p * n <==> p == PageIndex(i, n)
  {
    var q := PageIndex(i, n);
    DivBounds(i, n);
    assert q * n == (q - 1) * n + n;
    if p < q {
      MulMonotone(p, q - 1, n);
    } else if q < p {
      MulMonotone(q, p - 1, n);
    }
  }

  /** For every entry the page that holds it. */
  function PagesOf(total: nat, n: pos): (pageOf: seq<pos>)
    ensures |pageOf| == total && forall i :: 0 <= i < total ==> pageOf[i] == PageIndex(i, n)
  {
    seq(total, i => if i >= 0 then PageIndex(i, n) else 1)
  }

  /** The first `k` entries that are on one of the pages. */
  ghost function Bag<T>(configs: seq<T>, pageOf: seq<pos>, pages: set<pos>, k: nat): multiset<T>
    requires k <= |configs| == |pageOf|
  {
    if k == 0 then multiset{}
    else Bag(configs, pageOf, pages, k - 1) + if pageOf[k - 1] in pages then multiset{configs[k - 1]} else multiset{}
  }

  /** The first `k` entries that are on page `p`, in order. */
  ghost function Picked<T>(configs: seq<T>, pageOf: seq<pos>, p: pos, k: nat): seq<T>
    requires k <= |configs| == |pageOf|
  {
    if k == 0 then []
    else Picked(configs, pageOf, p, k - 1) + if p == pageOf[k - 1] then [configs[k - 1]] else []
  }

  lemma NextOfChunk<T>(configs: seq<T>, p: pos, n: pos, i: nat)
    requires i < |configs|
    ensures Chunk(configs[..i + 1], p, n)
            == Chunk(configs[..i], p, n) + if p == PageIndex(i, n) then [configs[i]] else []
  {
    MulMonotone(p - 1, p, n);
    OnPageExactly(i, p, n);
    NextOfSlice(configs, (p - 1) * n, p * n, i);
  }

  lemma NextOfSlice<T>(configs: seq<T>, lo: nat, hi: nat, i: nat)
    requires lo <= hi && i < |configs|
    ensures configs[..i + 1][Least(lo, i + 1)..Least(hi, i + 1)]
            == configs[..i][Least(lo, i)..Least(hi, i)] + if lo <= i < hi then [configs[i]] else []
  {
    if lo <= i < hi {
      assert configs[..i + 1][lo..i + 1] == configs[lo..i] + [configs[i]];
    } else if i < lo {
      assert configs[..i + 1][i + 1..i + 1] == [] == configs[..i][i..i];
    } else {
      assert configs[..i + 1][lo..hi] == configs[lo..hi] == configs[..i][lo..hi];
    }
  }

  lemma MultisetStep<T>(x: multiset<T>, y: multiset<T>, c: seq<T>, e: T, here: bool, elsewhere: bool)
    requires x == y + multiset(c) && !(here && elsewhere)
    ensures x + (if elsewhere || here then multiset{e} else multiset{})
            == y + (if elsewhere then multiset{e} else multiset{}) + multiset(c + if here then [e] else [])
  {
    if here {
      assert multiset(c + [e]) == multiset(c) + multiset{e};
    } else {
      assert c + [] == c;
    }
  }

  lemma {:induction false} ChunkIsPicked<T>(configs: seq<T>, p: pos, n: pos, k: nat)
    requires k <= |configs|
    ensures Chunk(configs[..k], p, n) == Picked(configs, PagesOf(|configs|, n), p, k)
  {
    if k == 0 {
      MulMonotone(p - 1, p, n);
    } else {
      ChunkIsPicked(configs, p, n, k - 1);
      NextOfChunk(configs, p, n, k - 1);
    }
  }

  lemma {:induction false} BagWithPage<T>(configs: seq<T>, pageOf: seq<pos>, pages: set<pos>, more: set<pos>, p: pos, k: nat)
    requires more == pages + {p} && p !in pages && k <= |configs| == |pageOf|
    ensures Bag(configs, pageOf, more, k) == Bag(configs, pageOf, pages, k) + multiset(Picked(configs, pageOf, p, k))
    decreases k
  {
    if k > 0 {
      BagWithPage(configs, pageOf, pages, more, p, k - 1);
      var here, elsewhere := p == pageOf[k - 1], pageOf[k - 1] in pages;
      assert pageOf[k - 1] in more <==> elsewhere || here;
      MultisetStep(Bag(configs, pageOf, more, k - 1), Bag(configs, pageOf, pages, k - 1),
                   Picked(configs, pageOf, p, k - 1), configs[k - 1], here, elsewhere);
    }
  }

  lemma {:induction false} GatherIsBag<T>(configs: seq<T>, order: seq<pos>, n: pos)
    requires Distinct(order)
    ensures multiset(Gather(configs, order, n)) == Bag(configs, PagesOf(|configs|, n), ToSet(order), |configs|)
    decreases |order|
  {
    if order == [] {
      EmptyBag(configs, PagesOf(|configs|, n), |configs|);
      assert ToSet(order) == {};
    } else {
      var before, p := order[..|order| - 1], order[|order| - 1];
      GatherIsBag(configs, before, n);
      assert order == before + [p] && ToSet(order) == ToSet(before) + {p};
      BagWithPage(configs, PagesOf(|configs|, n), ToSet(before), ToSet(order), p, |configs|);
      ChunkIsPicked(configs, p, n, |configs|);
      assert configs[..|configs|] == configs;
    }
  }

  lemma {:induction false} EmptyBag<T>(configs: seq<T>, pageOf: seq<pos>, k: nat)
    requires k <= |configs| == |pageOf|
    ensures Bag(configs, pageOf, {}, k) == multiset{}
  {
    if k > 0 {
      EmptyBag(configs, pageOf, k - 1);
    }
  }

  /** The pages 2 to `count`. */
  function Others(count: nat): (pages: set<pos>)
    ensures forall p: pos :: p in pages <==> 2 <= p <= count
  {
    if count < 2 then {} else Others(count - 1) + {count}
  }

  lemma PageIndexInRange(i: nat, n: pos, total: nat)
    requires i < total
    ensures PageIndex(i, n) in {1} + Others(Ceiling(total, n))
  {
    var p, count := PageIndex(i, n), Ceiling(total, n);
    OnPageExactly(i, p, n);
    if count < p {
      MulMonotone(count, p - 1, n);
    }
  }

  lemma {:induction false} FullBag<T>(configs: seq<T>, pageOf: seq<pos>, pages: set<pos>, k: nat)
    requires k <= |configs| == |pageOf| && forall i :: 0 <= i < |configs| ==> pageOf[i] in pages
    ensures Bag(configs, pageOf, pages, k) == multiset(configs[..k])
  {
    if k > 0 {
      FullBag(configs, pageOf, pages, k - 1);
      assert configs[..k] == configs[..k - 1] + [configs[k - 1]];
    }
  }

  /** Page 1 to the last in any order, each once: every entry of the listing exactly once. */
  lemma EveryEntryOnce<T>(configs: seq<T>, order: seq<pos>, n: pos)
    requires Distinct(order) && {1} + Others(Ceiling(|configs|, n)) <= ToSet(order)
    ensures multiset(Gather(configs, order, n)) == multiset(configs)
  {
    GatherIsBag(configs, order, n);
    var pageOf := PagesOf(|configs|, n);
    forall i | 0 <= i < |configs| ensures pageOf[i] in ToSet(order) {
      PageIndexInRange(i, n, |configs|);
    }
    FullBag(configs, pageOf, ToSet(order), |configs|);
    assert configs[..|configs|] == configs;
  }

  function UpTo(count: nat): (order: seq<pos>)
    ensures |order| == count && forall i :: 0 <= i < count ==> order[i] == i + 1
  {
    seq(count, i => if i >= 0 then i + 1 else 1)
  }

  /** Page after page in order: the listing itself. */
  lemma {:induction false} InOrderIsTheListing<T>(configs: seq<T>, count: nat, n: pos)
    ensures Gather(configs, UpTo(count), n) == configs[..Least(count * n, |configs|)]
    ensures count >= Ceiling(|configs|, n) ==> Gather(configs, UpTo(count), n) == configs
    decreases count
  {
    if count > 0 {
      InOrderIsTheListing(configs, count - 1, n);
      assert UpTo(count)[..count - 1] == UpTo(count - 1);
      MulMonotone(count - 1, count, n);
    }
    if count >= Ceiling(|configs|, n) {
      MulMonotone(Ceiling(|configs|, n), count, n);
    }
  }

  datatype RequestError = RequestFailed | NeverReturns

  /** One request: page 0 stands for page 1, and a panic fails the request. */
  method GetServersPaged<T>(configs: seq<T>, page: int, limit: int) returns (ps: Option<seq<T>>, lastPage: nat)
    requires |configs| <= MAX_INT64 && InInt64(page) && InInt64(limit)
    ensures ps == Some(Chunk(configs, PageNumber(page), PageSize(limit)))
            <==> SliceIsRight(PageNumber(page), PageSize(limit), |configs|)
    ensures ps == None <==> SlicePanics(PageNumber(page), PageSize(limit), |configs|)
    ensures ps.Some? ==> lastPage == LastPageOf(|configs|, PageSize(limit))
  {
    var r := GetAllServerConfigurations(configs, page, limit);
    match r {
      case Panic => return None, 0;
      case Page(data, meta) => return Some(data), meta.lastPage;
    }
  }

  /** What has been gathered once the pages in `answered` have been answered. */
  ghost predicate Gathered<T>(configs: seq<T>, n: pos, answered: set<pos>, failing: set<nat>, order: seq<pos>, servers: seq<T>) {
    && |order| > 0 && order[0] == 1 && Distinct(order)
    && ToSet(order) == {1} + (answered - failing)
    && servers == Gather(configs, order, n)
  }

  /** All servers of the node. The pages after the first may arrive in any order; `order` is the order in
      which they were appended. Any page's request may fail, which fails the whole call. The call does not
      return at all exactly when the last page is reported as 2^64 - 1. */
  method GetServers<T>(configs: seq<T>, limit: int, failing: set<nat>)
    returns (r: Result<seq<T>, RequestError>, ghost order: seq<pos>)
    requires |configs| <= MAX_LIST && InInt64(limit)
    ensures r == Failure(NeverReturns) <==> 0 !in failing && NeverEnds(|configs|, PageSize(limit))
    ensures r == Failure(RequestFailed)
            <==> 0 in failing || (!NeverEnds(|configs|, PageSize(limit)) && failing * Others(Ceiling(|configs|, PageSize(limit))) != {})
    ensures r.Success? ==> multiset(r.value) == multiset(configs)
    ensures r.Success? ==> |order| > 0 && order[0] == 1 && r.value == Gather(configs, order, PageSize(limit))
  {
    order := [1];
    if 0 in failing {
      return Failure(RequestFailed), order;
    }
    var n: pos := PageSize(limit);
    LastPageExactly(|configs|, n);
    var first, last := GetServersPaged(configs, 0, limit);
    if last == TWO_64 - 1 {
      LastPageIsModest(|configs|, n);
      return Failure(NeverReturns), order;
    }
    FirstGathered(configs, n, failing, first.value);
    var ok, servers;
    ok, servers, order := GetOtherPages(configs, limit, failing, last, first.value);
    OtherPages(|configs|, n, last);
    if !ok {
      return Failure(RequestFailed), order;
    }
    AllGathered(configs, n, failing, order, servers);
    return Success(servers), order;
  }

  /** Unless it never ends, the loop asks for the pages there are. */
  lemma OtherPages(total: nat, n: pos, last: nat)
    requires total <= MAX_LIST && n <= MAX_INT64 && last == LastPageOf(total, n) && last != TWO_64 - 1
    ensures !NeverEnds(total, n) && Others(last) == Others(Ceiling(total, n))
    ensures total + n - 1 <= MAX_INT64 || Others(last) == {}
  {
    LastPageExactly(total, n);
  }

  lemma LastPageIsModest(total: nat, n: pos)
    requires total <= MAX_LIST && n <= MAX_INT64
    ensures LastPageOf(total, n) == TWO_64 - 1 <==> NeverEnds(total, n)
  {
    LastPageExactly(total, n);
    var count := Ceiling(total, n);
    if count > 1 {
      MulMonotone(1, n, count - 1);
      assert (count - 1) * n == n * (count - 1);
    }
  }

  /** The loop over the pages after the first. */
  method GetOtherPages<T>(configs: seq<T>, limit: int, failing: set<nat>, last: nat, first: seq<T>)
    returns (ok: bool, servers: seq<T>, ghost order: seq<pos>)
    requires |configs| <= MAX_LIST && InInt64(limit)
    requires last == LastPageOf(|configs|, PageSize(limit)) && last != TWO_64 - 1
    requires Gathered(configs, PageSize(limit), {}, failing, [1], first)
    ensures ok <==> failing * Others(last) == {}
    ensures Gathered(configs, PageSize(limit), Others(last), failing, order, servers)
  {
    servers, order, ok := first, [1], true;
    var pending := Others(last);
    ghost var answered: set<pos> := {};
    while pending != {}
      invariant Parts(pending, answered, Others(last))
      invariant Gathered(configs, PageSize(limit), answered, failing, order, servers)
      invariant ok <==> failing * answered == {}
      decreases |pending|
    {
      var p :| p in pending;
      OneMoreAnswered(failing, pending, answered, Others(last), p);
      if p in failing {
        ok := false;
      } else {
        PageFits(p, PageSize(limit), |configs|, last);
        var ps, _ := GetServersPaged(configs, p, limit);
        OneMoreGathered(configs, PageSize(limit), answered, failing, order, servers, p);
        servers, order := servers + ps.value, order + [p];
      }
      pending, answered := pending - {p}, answered + {p};
    }
    assert answered == Others(last);
  }

  ghost predicate Parts(pending: set<pos>, answered: set<pos>, all: set<pos>) {
    pending + answered == all && pending !! answered
  }

  lemma OneMoreAnswered(failing: set<nat>, pending: set<pos>, answered: set<pos>, all: set<pos>, p: pos)
    requires Parts(pending, answered, all) && p in pending
    ensures p !in answered && p in all && Parts(pending - {p}, answered + {p}, all)
    ensures p in failing ==> failing * (answered + {p}) != {} && answered + {p} - failing == answered - failing
    ensures p !in failing ==> failing * (answered + {p}) == failing * answered
  {
    assert p in failing ==> p in failing * (answered + {p});
  }

  lemma FirstGathered<T>(configs: seq<T>, n: pos, failing: set<nat>, servers: seq<T>)
    requires servers == Chunk(configs, 1, n)
    ensures Gathered(configs, n, {}, failing, [1], servers)
  {
    var order: seq<pos> := [1];
    assert order[..0] == [] && ToSet(order) == {1};
    assert Gather(configs, order, n) == [] + servers;
  }

  lemma OneMoreGathered<T>(configs: seq<T>, n: pos, answered: set<pos>, failing: set<nat>,
                           order: seq<pos>, servers: seq<T>, p: pos)
    requires Gathered(configs, n, answered, failing, order, servers)
    requires p !in answered && p != 1 && p !in failing
    ensures Gathered(configs, n, answered + {p}, failing, order + [p], servers + Chunk(configs, p, n))
  {
    var order' := order + [p];
    assert order'[..|order|] == order && ToSet(order') == ToSet(order) + {p};
    assert p !in ToSet(order);
  }

  lemma AllGathered<T>(configs: seq<T>, n: pos, failing: set<nat>, order: seq<pos>, servers: seq<T>)
    requires Gathered(configs, n, Others(Ceiling(|configs|, n)), failing, order, servers)
    requires failing * Others(Ceiling(|configs|, n)) == {}
    ensures multiset(servers) == multiset(configs)
  {
    var others := Others(Ceiling(|configs|, n));
    assert others - failing == others;
    EveryEntryOnce(configs, order, n);
  }

  lemma PageFits(p: nat, n: pos, total: nat, last: nat)
    requires total <= MAX_LIST && n <= MAX_INT64 && last == LastPageOf(total, n) && last != TWO_64 - 1
    requires p in Others(last)
    ensures p * n <= MAX_INT64 && p <= MAX_INT64
  {
    OtherPages(total, n, last);
    var count := Ceiling(total, n);
    MulMonotone(p - 1, count - 1, n);
    assert p * n == (p - 1) * n + n;
    MulMonotone(1, n, p);
    assert p * n == n * p;
  }
}

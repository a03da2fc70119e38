/** Collecting consumer groups page by page (`getConsumerGroupsCSV` of internal/mcpserver/tools_groups.go). */
module GroupPaging {
  import opened Wrappers
  import opened Sorting
  import opened Groups
  import Decimal

  const PER_PAGE: nat := 100

  /** The groups service: a page number and a page size give a page, or an error. It is asked for each page number once,
      so a live listing that changes between calls is such a function too. */
  type Backend = (nat, nat) -> Option<seq<GroupState>>

  function Min(a: int, b: int): int {
    if a < b then a else b
  }

  function Max(a: int, b: int): int {
    if a < b then b else a
  }

  predicate Distinct(groups: seq<GroupState>) {
    forall i, j :: 0 <= i < j < |groups| ==> groups[i].id != groups[j].id
  }

  predicate HasId(groups: seq<GroupState>, id: string) {
    exists i :: 0 <= i < |groups| && groups[i].id == id
  }

  /** `page` added to `groups`, without the groups that are already there. */
  function AddNew(groups: seq<GroupState>, page: seq<GroupState>): seq<GroupState> {
    if page == [] then groups
    else
      var before, last := AddNew(groups, page[..|page| - 1]), page[|page| - 1];
      if HasId(before, last.id) then before else before + [last]
  }

  /** One of the first pages held the group. */
  ghost predicate WasListed(backend: Backend, calls: nat, group: GroupState) {
    exists page: nat, perPage: nat {:trigger backend(page, perPage)} ::
      1 <= page <= calls && backend(page, perPage).Some? && group in backend(page, perPage).value
  }

  ghost predicate AllListed(backend: Backend, calls: nat, groups: seq<GroupState>) {
    forall group :: group in groups ==> WasListed(backend, calls, group)
  }

  lemma {:induction false} AddNewElements(groups: seq<GroupState>, page: seq<GroupState>)
    ensures forall g :: g in AddNew(groups, page) ==> g in groups || g in page
  {
    if page != [] {
      AddNewElements(groups, page[..|page| - 1]);
    }
  }

  lemma PageIsListed(backend: Backend, calls: nat, groups: seq<GroupState>, perPage: nat, page: seq<GroupState>)
    requires AllListed(backend, calls, groups) && backend(calls + 1, perPage).Some?
    requires page <= backend(calls + 1, perPage).value
    ensures AllListed(backend, calls + 1, AddNew(groups, page))
    ensures AllListed(backend, calls + 1, groups)
  {
    AddNewElements(groups, page);
    forall g | g in groups || g in page
      ensures WasListed(backend, calls + 1, g)
    {
      if g in groups {
        assert WasListed(backend, calls, g);
      } else {
        assert g in backend(calls + 1, perPage).value;
      }
    }
  }

  lemma {:induction false} AddNewKeeps(groups: seq<GroupState>, page: seq<GroupState>)
    requires Distinct(groups)
    ensures Distinct(AddNew(groups, page)) && |groups| <= |AddNew(groups, page)| <= |groups| + |page|
    ensures AddNew(groups, page)[..|groups|] == groups
  {
    if page != [] {
      AddNewKeeps(groups, page[..|page| - 1]);
    }
  }

  method AddPage(groups: seq<GroupState>, seen: set<string>, page: seq<GroupState>)
    returns (all: seq<GroupState>, ids: set<string>, added: nat)
    requires Distinct(groups) && forall id :: id in seen <==> HasId(groups, id)
    ensures all == AddNew(groups, page) && added == |all| - |groups|
    ensures forall id :: id in ids <==> HasId(all, id)
  {
    all, ids, added := groups, seen, 0;
    for i := 0 to |page|
      invariant all == AddNew(groups, page[..i]) && added == |all| - |groups|
      invariant forall id :: id in ids <==> HasId(all, id)
    {
      assert page[..i + 1][..i] == page[..i];
      var group := page[i];
      if group.id !in ids {
        HasIdLast(all, group);
        ids := ids + {group.id};
        all := all + [group];
        added := added + 1;
      }
    }
    assert page[..|page|] == page;
  }

  lemma HasIdLast(groups: seq<GroupState>, group: GroupState)
    ensures forall id :: HasId(groups + [group], id) <==> HasId(groups, id) || id == group.id
  {
    var all := groups + [group];
    forall id
      ensures HasId(all, id) <==> HasId(groups, id) || id == group.id
    {
      assert all[|groups|] == group;
      if HasId(groups, id) {
        var i :| 0 <= i < |groups| && groups[i].id == id;
        assert all[i].id == id;
      }
    }
  }

  // ---------- A stable listing ----------

  function PageCount(listing: seq<GroupState>, perPage: nat): nat
    requires perPage > 0
  {
    (|listing| + perPage - 1) / perPage
  }

  /** A page of a listing as the service cuts it: a page past the end is the last page. */
  function PageOf(listing: seq<GroupState>, page: nat, perPage: nat): seq<GroupState>
    requires page > 0 && perPage > 0
  {
    if listing == [] then []
    else
      var count := PageCount(listing, perPage);
      var start := (if page > count then count - 1 else page - 1) * perPage;
      if start < 0 || start > |listing| then [] else listing[start..Min(start + perPage, |listing|)]
  }

  ghost predicate Stable(backend: Backend, listing: seq<GroupState>) {
    Distinct(listing) &&
    forall page: nat, perPage: nat {:trigger backend(page, perPage)} :: page > 0 && 0 < perPage <= PER_PAGE ==>
      backend(page, perPage) == Some(PageOf(listing, page, perPage))
  }

  /** How much of a stable listing is collected. The last page is asked for with a smaller size, so that its
      offset moves back: it ends at (k+1)*r for k full pages and r items left to collect. */
  function Reach(maxItems: nat): nat {
    var k, r := maxItems / PER_PAGE, maxItems % PER_PAGE;
    if k == 0 || r == 0 then maxItems else Max(PER_PAGE * k, (k + 1) * r)
  }

  lemma {:induction false} AddSlice(listing: seq<GroupState>, m: nat, a: nat, b: nat)
    requires Distinct(listing) && a <= m <= |listing| && a <= b <= |listing|
    ensures AddNew(listing[..m], listing[a..b]) == listing[..Max(m, b)]
    decreases b
  {
    if a < b {
      AddSlice(listing, m, a, b - 1);
      AddOne(listing, m, listing[a..b - 1], b - 1);
      assert listing[a..b] == listing[a..b - 1] + [listing[b - 1]];
    }
  }

  lemma AddOne(listing: seq<GroupState>, m: nat, page: seq<GroupState>, b: nat)
    requires Distinct(listing) && m <= |listing| && b < |listing| && AddNew(listing[..m], page) == listing[..Max(m, b)]
    ensures AddNew(listing[..m], page + [listing[b]]) == listing[..Max(m, b + 1)]
  {
    AddNewLast(listing[..m], page, listing[b]);
    KnownPrefix(listing, Max(m, b), b);
    if b >= m {
      assert listing[..b] + [listing[b]] == listing[..b + 1];
    }
  }

  lemma AddNewLast(groups: seq<GroupState>, page: seq<GroupState>, group: GroupState)
    ensures AddNew(groups, page + [group]) ==
      if HasId(AddNew(groups, page), group.id) then AddNew(groups, page) else AddNew(groups, page) + [group]
  {
    assert (page + [group])[..|page|] == page;
  }

  /** The first n groups of a listing hold a group's name exactly if it is among them. */
  lemma KnownPrefix(listing: seq<GroupState>, n: nat, i: nat)
    requires Distinct(listing) && n <= |listing| && i < |listing|
    ensures HasId(listing[..n], listing[i].id) <==> i < n
  {
    var known := listing[..n];
    if i < n {
      assert known[i].id == listing[i].id;
    } else {
      forall j | 0 <= j < n
        ensures known[j].id != listing[i].id
      {
        assert listing[j].id != listing[i].id;
      }
    }
  }

  /** The page after k full ones: where it starts and ends in a listing that filled those k pages. */
  lemma NextPage(listing: seq<GroupState>, k: nat, r: nat) returns (a: nat, b: nat)
    requires 0 < r <= PER_PAGE && |listing| >= PER_PAGE * k && listing != []
    ensures a <= PER_PAGE * k && a < b <= |listing| && b <= a + r && PageOf(listing, k + 1, r) == listing[a..b]
    ensures if |listing| > k * r then a == k * r && b == Min((k + 1) * r, |listing|) else |listing| == PER_PAGE * k
  {
    var start := k * r;
    Product(k + 1, k, r);
    Commute(k, r, PER_PAGE);
    if |listing| > start {
      PageInside(listing, k, r, start);
      a, b := start, Min(start + r, |listing|);
    } else {
      a, b := PageBeyond(listing, k, r);
    }
  }

  lemma Commute(k: nat, r: nat, limit: nat)
    requires r <= limit
    ensures k * r <= limit * k
  {
    Monotone(r, limit, k);
    assert k * r == r * k;
  }

  lemma PageInside(listing: seq<GroupState>, k: nat, r: nat, start: nat)
    requires 0 < r && start == k * r && |listing| > start
    ensures PageOf(listing, k + 1, r) == listing[start..Min(start + r, |listing|)]
  {
    CountAtLeast(listing, k, r);
    assert k + 1 - 1 == k;
  }

  /** Past the end the last page is shown, here a full one. */
  lemma PageBeyond(listing: seq<GroupState>, k: nat, r: nat) returns (a: nat, b: nat)
    requires 0 < r && |listing| == k * r && listing != []
    ensures a + r == b == |listing| && PageOf(listing, k + 1, r) == listing[a..b]
  {
    CountExact(listing, k, r);
    assert k > 0;
    Product(k, k - 1, r);
    a, b := (k - 1) * r, |listing|;
  }

  lemma CountAtLeast(listing: seq<GroupState>, k: nat, r: nat)
    requires r > 0 && |listing| > k * r
    ensures PageCount(listing, r) >= k + 1
  {
    var n := |listing| + r - 1;
    Product(k + 1, k, r);
    assert n >= (k + 1) * r;
    Quotient(n, r, k + 1);
  }

  lemma CountExact(listing: seq<GroupState>, k: nat, r: nat)
    requires r > 0 && |listing| == k * r
    ensures PageCount(listing, r) == k
  {
    var n := |listing| + r - 1;
    Product(k + 1, k, r);
    Quotient(n, r, k);
  }

  lemma Product(a: nat, b: nat, r: nat)
    requires a == b + 1
    ensures a * r == b * r + r
  {
  }

  /** Division is the largest factor that fits. */
  lemma Quotient(n: nat, r: nat, k: nat)
    requires r > 0
    ensures k * r <= n ==> k <= n / r
    ensures n < (k + 1) * r ==> n / r <= k
  {
    var q := n / r;
    assert q * r <= n < (q + 1) * r;
    if k * r <= n && k > q {
      Monotone(q + 1, k, r);
    }
    if n < (k + 1) * r && q > k {
      Monotone(k + 1, q, r);
    }
  }

  lemma Monotone(a: nat, b: nat, r: nat)
    requires a <= b
    ensures a * r <= b * r
  {
    assert (b - a) * r >= 0;
    assert b * r == a * r + (b - a) * r;
  }

  // ---------- The collection ----------

  /** What a stable listing gives in the end. */
  function Taken(listing: seq<GroupState>, maxItems: nat): seq<GroupState> {
    listing[..Min(|listing|, Reach(maxItems))]
  }

  /** What has been collected from a stable listing when `pageNumber` is about to be asked for. */
  ghost predicate Before(listing: seq<GroupState>, maxItems: nat, pageNumber: nat, all: seq<GroupState>)
    requires pageNumber > 0
  {
    if pageNumber - 1 <= maxItems / PER_PAGE then
      |listing| >= PER_PAGE * (pageNumber - 1) && all == listing[..PER_PAGE * (pageNumber - 1)]
    else all == Taken(listing, maxItems)
  }

  lemma LoopEnds(listing: seq<GroupState>, maxItems: nat, pageNumber: nat, all: seq<GroupState>)
    requires pageNumber > 0 && Before(listing, maxItems, pageNumber, all)
    requires pageNumber > (maxItems + PER_PAGE - 1) / PER_PAGE || |all| >= maxItems
    ensures all == Taken(listing, maxItems)
  {
  }

  lemma ListingEnds(listing: seq<GroupState>, maxItems: nat, pageNumber: nat, all: seq<GroupState>)
    requires pageNumber > 0 && Before(listing, maxItems, pageNumber, all) && listing == []
    ensures all == Taken(listing, maxItems)
  {
  }

  lemma StablePage(backend: Backend, listing: seq<GroupState>, k: nat, r: nat) returns (a: nat, b: nat)
    requires Stable(backend, listing)
    requires 0 < r <= PER_PAGE && |listing| >= PER_PAGE * k && listing != []
    ensures a <= PER_PAGE * k && a < b <= |listing| && b <= a + r && backend(k + 1, r) == Some(listing[a..b])
    ensures if |listing| > k * r then a == k * r && b == Min((k + 1) * r, |listing|) else |listing| == PER_PAGE * k
  {
    a, b := NextPage(listing, k, r);
  }

  /** One more page of a stable listing. */
  lemma OnePage(listing: seq<GroupState>, maxItems: nat, k: nat, all: seq<GroupState>, perPage: nat, a: nat, b: nat)
    requires Distinct(listing) && PER_PAGE * k <= |listing| && all == listing[..PER_PAGE * k]
    requires k <= maxItems / PER_PAGE && PER_PAGE * k < maxItems && perPage == Min(PER_PAGE, maxItems - |all|)
    requires a <= PER_PAGE * k && a < b <= |listing| && b <= a + perPage
    requires
      if |listing| > k * perPage then a == k * perPage && b == Min((k + 1) * perPage, |listing|)
      else |listing| == PER_PAGE * k
    ensures var next := AddNew(all, listing[a..b]);
      if |next| == |all| || b - a < perPage then next == Taken(listing, maxItems)
      else Before(listing, maxItems, k + 2, next)
  {
    PageArithmetic(|listing|, maxItems, k, perPage, b);
    AddedPage(listing, k, all, listing[a..b], a, b);
  }

  lemma AddedPage(listing: seq<GroupState>, k: nat, all: seq<GroupState>, page: seq<GroupState>, a: nat, b: nat)
    requires Distinct(listing) && PER_PAGE * k <= |listing| && all == listing[..PER_PAGE * k]
    requires a <= PER_PAGE * k && a < b <= |listing| && page == listing[a..b]
    ensures AddNew(all, page) == listing[..Max(PER_PAGE * k, b)]
  {
    AddSlice(listing, PER_PAGE * k, a, b);
  }

  /** What a page does to a collection from a stable listing. */
  ghost predicate Advances(listing: seq<GroupState>, maxItems: nat, pageNumber: nat, all: seq<GroupState>, perPage: nat,
                           page: Option<seq<GroupState>>) {
    page.Some? && |page.value| <= perPage &&
    var next := AddNew(all, page.value);
    if page.value == [] || |next| == |all| || |page.value| < perPage then next == Taken(listing, maxItems)
    else Before(listing, maxItems, pageNumber + 1, next)
  }

  lemma StableStep(backend: Backend, listing: seq<GroupState>, maxItems: nat, pageNumber: nat, all: seq<GroupState>,
      perPage: nat)
    requires Stable(backend, listing) && pageNumber > 0 && Before(listing, maxItems, pageNumber, all)
    requires pageNumber <= (maxItems + PER_PAGE - 1) / PER_PAGE && |all| < maxItems
    requires perPage == Min(PER_PAGE, maxItems - |all|)
    ensures Advances(listing, maxItems, pageNumber, all, perPage, backend(pageNumber, perPage))
  {
    var k := PageStarts(listing, maxItems, pageNumber, all);
    if listing == [] {
      EmptyStep(backend, listing, maxItems, pageNumber, all, perPage);
    } else {
      ListedStep(backend, listing, maxItems, pageNumber, k, all, perPage);
    }
  }

  lemma PageStarts(listing: seq<GroupState>, maxItems: nat, pageNumber: nat, all: seq<GroupState>) returns (k: nat)
    requires pageNumber > 0 && Before(listing, maxItems, pageNumber, all)
    requires pageNumber <= (maxItems + PER_PAGE - 1) / PER_PAGE && |all| < maxItems
    ensures k + 1 == pageNumber
    ensures k <= maxItems / PER_PAGE && PER_PAGE * k <= |listing| && all == listing[..PER_PAGE * k]
    ensures PER_PAGE * k < maxItems
  {
    k := pageNumber - 1;
  }

  lemma EmptyStep(backend: Backend, listing: seq<GroupState>, maxItems: nat, pageNumber: nat, all: seq<GroupState>,
      perPage: nat)
    requires Stable(backend, listing) && listing == [] && pageNumber > 0 && 0 < perPage <= PER_PAGE
    requires Before(listing, maxItems, pageNumber, all)
    ensures Advances(listing, maxItems, pageNumber, all, perPage, backend(pageNumber, perPage))
  {
    ListingEnds(listing, maxItems, pageNumber, all);
  }

  lemma ListedStep(backend: Backend, listing: seq<GroupState>, maxItems: nat, pageNumber: nat, k: nat,
      all: seq<GroupState>, perPage: nat)
    requires Stable(backend, listing) && listing != [] && PER_PAGE * k <= |listing| && all == listing[..PER_PAGE * k]
    requires k <= maxItems / PER_PAGE && PER_PAGE * k < maxItems && perPage == Min(PER_PAGE, maxItems - |all|)
    requires k + 1 == pageNumber
    ensures Advances(listing, maxItems, pageNumber, all, perPage, backend(pageNumber, perPage))
  {
    var a, b := StablePage(backend, listing, k, perPage);
    OnePage(listing, maxItems, k, all, perPage, a, b);
  }

  lemma PageArithmetic(total: nat, maxItems: nat, k: nat, perPage: nat, b: nat)
    requires k <= maxItems / PER_PAGE && PER_PAGE * k <= total && PER_PAGE * k < maxItems && b <= total
    requires perPage == Min(PER_PAGE, maxItems - PER_PAGE * k)
    requires if total > k * perPage then b == Min((k + 1) * perPage, total) else total == PER_PAGE * k
    ensures var end := Max(PER_PAGE * k, b);
      (if k < maxItems / PER_PAGE then total >= end == PER_PAGE * (k + 1) || end == Min(total, Reach(maxItems))
      else end == Min(total, Reach(maxItems)))
    ensures k < maxItems / PER_PAGE && b < PER_PAGE * (k + 1) ==> Max(PER_PAGE * k, b) == Min(total, Reach(maxItems))
  {
    if k < maxItems / PER_PAGE {
      assert perPage == PER_PAGE;
    } else {
      assert perPage == maxItems % PER_PAGE;
      Monotone(k, k + 1, perPage);
    }
  }

  /** No more of a page is taken than was asked for. */
  function Cut(page: seq<GroupState>, perPage: nat): seq<GroupState> {
    if |page| > perPage then page[..perPage] else page
  }

  /** A page that ends the collection: it is empty, brings nothing new, or is short. */
  predicate IsLast(page: seq<GroupState>, all: seq<GroupState>, next: seq<GroupState>, perPage: nat) {
    page == [] || |next| == |all| || |page| < perPage
  }

  /** What holds when `pageNumber` is about to be asked for. */
  ghost predicate Collecting(backend: Backend, listing: seq<GroupState>, maxItems: nat, pageNumber: nat,
      all: seq<GroupState>)
    requires pageNumber > 0
  {
    && Distinct(all) && |all| <= maxItems && AllListed(backend, pageNumber - 1, all)
    && (Stable(backend, listing) ==> Before(listing, maxItems, pageNumber, all))
  }

  /** What holds in the end, after so many calls. */
  ghost predicate Collected(backend: Backend, listing: seq<GroupState>, maxItems: nat, calls: nat,
      all: seq<GroupState>) {
    && Distinct(all) && |all| <= maxItems && AllListed(backend, calls, all)
    && (Stable(backend, listing) ==> all == Taken(listing, maxItems))
  }

  /** One more page, from any backend. */
  lemma PageCollected(backend: Backend, listing: seq<GroupState>, maxItems: nat, pageNumber: nat,
      all: seq<GroupState>, perPage: nat)
    requires pageNumber > 0 && Collecting(backend, listing, maxItems, pageNumber, all)
    requires pageNumber <= (maxItems + PER_PAGE - 1) / PER_PAGE && |all| < maxItems
    requires perPage == Min(PER_PAGE, maxItems - |all|)
    requires backend(pageNumber, perPage).Some?
    ensures var page := backend(pageNumber, perPage).value;
      var next := AddNew(all, Cut(page, perPage));
      if IsLast(page, all, next, perPage) then Collected(backend, listing, maxItems, pageNumber, next)
      else Collecting(backend, listing, maxItems, pageNumber + 1, next)
  {
    var page := backend(pageNumber, perPage).value;
    AddNewKeeps(all, Cut(page, perPage));
    PageIsListed(backend, pageNumber - 1, all, perPage, Cut(page, perPage));
    if Stable(backend, listing) {
      StableStep(backend, listing, maxItems, pageNumber, all, perPage);
    }
  }

  lemma AllCollected(backend: Backend, listing: seq<GroupState>, maxItems: nat, pageNumber: nat, all: seq<GroupState>)
    requires pageNumber > 0 && Collecting(backend, listing, maxItems, pageNumber, all)
    requires pageNumber > (maxItems + PER_PAGE - 1) / PER_PAGE || |all| >= maxItems
    ensures Collected(backend, listing, maxItems, pageNumber - 1, all)
  {
    if Stable(backend, listing) {
      LoopEnds(listing, maxItems, pageNumber, all);
    }
  }

  /** Against any backend: at most maxItems groups, all of them listed, none twice, and at most one call for every
      hundred; an error only if a page was refused.
      Against a stable listing without duplicates: exactly the first `Reach(maxItems)` groups. */
  method CollectGroups(backend: Backend, maxItems: nat,
      ghost listing: seq<GroupState>) returns (groups: Option<seq<GroupState>>, calls: nat)
    requires maxItems > 0
    ensures calls <= (maxItems + PER_PAGE - 1) / PER_PAGE
    ensures groups.Some? ==>
      Distinct(groups.value) && |groups.value| <= maxItems && AllListed(backend, calls, groups.value)
    ensures groups.None? ==> Refused(backend, calls)
    ensures Stable(backend, listing) ==> groups == Some(Taken(listing, maxItems))
  {
    var all: seq<GroupState>, seen: set<string> := [], {};
    calls := 0;
    var maxPages := (maxItems + PER_PAGE - 1) / PER_PAGE;
    var pageNumber := 1;
    while pageNumber <= maxPages && |all| < maxItems
      invariant 1 <= pageNumber && calls == pageNumber - 1 <= maxPages
      invariant forall id :: id in seen <==> HasId(all, id)
      invariant Collecting(backend, listing, maxItems, pageNumber, all)
      decreases maxPages - pageNumber
    {
      var perPage := Min(PER_PAGE, maxItems - |all|);
      var page := backend(pageNumber, perPage);
      calls := calls + 1;
      if page.None? {
        NotStable(backend, listing, pageNumber, perPage);
        return None, calls;
      }
      PageCollected(backend, listing, maxItems, pageNumber, all, perPage);
      ghost var before := all;
      var added := 0;
      if page.value != [] {
        all, seen, added := AddPage(all, seen, Cut(page.value, perPage));
      }
      if page.value == [] || added == 0 || |page.value| < perPage {
        assert IsLast(page.value, before, all, perPage);
        return Some(all), calls;
      }
      pageNumber := pageNumber + 1;
    }
    AllCollected(backend, listing, maxItems, pageNumber, all);
    return Some(all), calls;
  }

  /** A page was refused. */
  ghost predicate Refused(backend: Backend, page: nat) {
    exists perPage: nat :: 0 < perPage <= PER_PAGE && backend(page, perPage).None?
  }

  lemma NotStable(backend: Backend, listing: seq<GroupState>, page: nat, perPage: nat)
    requires page > 0 && 0 < perPage <= PER_PAGE && backend(page, perPage).None?
    ensures !Stable(backend, listing) && Refused(backend, page)
  {
  }

  /** A shortened last page is what falls short: exactly the first maxItems groups are collected if and only if
      maxItems is at most a hundred or a multiple of a hundred, or the listing ends before the short page matters. */
  lemma TakesAllItems(listing: seq<GroupState>, maxItems: nat)
    ensures Taken(listing, maxItems) == listing[..Min(|listing|, maxItems)] <==>
            maxItems <= PER_PAGE || maxItems % PER_PAGE == 0 ||
            |listing| <= Max(maxItems - maxItems % PER_PAGE, (maxItems / PER_PAGE + 1) * (maxItems % PER_PAGE))
  {
    ReachFallsShort(maxItems);
    assert |Taken(listing, maxItems)| == Min(|listing|, Reach(maxItems));
    assert |listing[..Min(|listing|, maxItems)]| == Min(|listing|, maxItems);
  }

  lemma ReachFallsShort(maxItems: nat)
    ensures Reach(maxItems) <= maxItems
    ensures Reach(maxItems) == maxItems <==> maxItems <= PER_PAGE || maxItems % PER_PAGE == 0
    ensures Reach(maxItems) < maxItems ==>
      Reach(maxItems) == Max(maxItems - maxItems % PER_PAGE, (maxItems / PER_PAGE + 1) * (maxItems % PER_PAGE))
    ensures Max(maxItems - maxItems % PER_PAGE, (maxItems / PER_PAGE + 1) * (maxItems % PER_PAGE)) <= maxItems
  {
    var k, r := maxItems / PER_PAGE, maxItems % PER_PAGE;
    Product(k + 1, k, r);
    var gap := PER_PAGE - r;
    Monotone(1, gap, k);
    assert k * r == PER_PAGE * k - gap * k;
  }

  /** A service that shows pages of a listing. */
  function ServiceOf(listing: seq<GroupState>): Backend {
    (page: nat, perPage: nat) => if page == 0 || perPage == 0 then None else Some(PageOf(listing, page, perPage))
  }

  /** Asked for 150 of 300 groups of a stable listing, the collection stops at 100: the second page of fifty is the
      second half of the first page of a hundred. Whatever the collection returns of this service is that. */
  lemma ShortPageLosesGroups() returns (listing: seq<GroupState>)
    ensures Stable(ServiceOf(listing), listing) && |listing| == 300
    ensures ServiceOf(listing)(1, 100) == Some(listing[..100]) && ServiceOf(listing)(2, 50) == Some(listing[50..100])
    ensures Taken(listing, 150) == listing[..100]
  {
    listing := seq(300, i requires 0 <= i => GroupState(Decimal.Show(i), "STABLE", [], []));
    forall i, j | 0 <= i < j < 300
      ensures listing[i].id != listing[j].id
    {
      if listing[i].id == listing[j].id {
        Decimal.ShowInjective(i, j);
      }
    }
  }

  lemma {:induction false} OnlyDistinct(s: seq<GroupState>, query: Query)
    requires Distinct(s)
    ensures Comparable(Less(query), s)
  {
    LessIsAnOrder(query);
    forall a, b | a in s && b in s && a != b
      ensures a.id != b.id
    {
      var i :| 0 <= i < |s| && s[i] == a;
      var j :| 0 <= j < |s| && s[j] == b;
      assert if i < j then s[i].id != s[j].id else s[j].id != s[i].id;
    }
  }

  lemma {:induction false} PermutedStaysDistinct(s: seq<GroupState>, t: seq<GroupState>)
    requires Distinct(s) && multiset(s) == multiset(t)
    ensures Distinct(t)
  {
    assert |multiset(s)| == |s| && |multiset(t)| == |t|;
    forall i, j | 0 <= i < j < |t|
      ensures t[i].id != t[j].id
    {
      assert t[i] in multiset(s) && t[j] in multiset(s);
      var k :| 0 <= k < |s| && s[k] == t[i];
      var l :| 0 <= l < |s| && s[l] == t[j];
      if k == l {
        Twice(t, i, j);
        Once(s, k);
        assert false;
      }
      assert if k < l then s[k].id != s[l].id else s[l].id != s[k].id;
    }
  }

  lemma Twice(t: seq<GroupState>, i: nat, j: nat)
    requires i < j < |t| && t[i] == t[j]
    ensures multiset(t)[t[i]] >= 2
  {
    assert t == t[..i] + [t[i]] + t[i + 1..j] + [t[j]] + t[j + 1..];
  }

  lemma Once(s: seq<GroupState>, k: nat)
    requires Distinct(s) && k < |s|
    ensures multiset(s)[s[k]] == 1
  {
    assert s == s[..k] + [s[k]] + s[k + 1..];
  }

  /** The answer before rendering: the collected groups in the order asked for. Whatever sort is used, no other
      arrangement of them is in that order. Against any service they are distinct and were all listed. */
  method GetConsumerGroups(backend: Backend, query: Query, maxItems: nat, ghost listing: seq<GroupState>)
    returns (groups: Option<seq<GroupState>>, calls: nat)
    requires maxItems > 0
    ensures calls <= (maxItems + PER_PAGE - 1) / PER_PAGE
    ensures groups.Some? ==>
      |groups.value| <= maxItems && Distinct(groups.value) && AllListed(backend, calls, groups.value)
    ensures groups.None? ==> Refused(backend, calls)
    ensures groups.Some? ==> forall i, j :: 0 <= i < j < |groups.value| ==>
      StandsBefore(query, groups.value[i], groups.value[j])
    ensures groups.Some? ==> Ordered(Less(query), groups.value)
    ensures groups.Some? ==> forall t :: multiset(t) == multiset(groups.value) && Ordered(Less(query), t) ==>
      t == groups.value
    ensures Stable(backend, listing) ==> groups.Some? && multiset(groups.value) == multiset(Taken(listing, maxItems))
  {
    var all;
    all, calls := CollectGroups(backend, maxItems, listing);
    if all.None? {
      return None, calls;
    }
    var sorted := Sort(Less(query), all.value);
    LessIsAnOrder(query);
    OnlyDistinct(all.value, query);
    SortPermutes(Less(query), all.value);
    SortOrders(Less(query), all.value);
    forall t | multiset(t) == multiset(sorted) && Ordered(Less(query), t)
      ensures t == sorted
    {
      AnySortIsSort(Less(query), all.value, t);
    }
    SameLength(sorted, all.value);
    PermutedStaysDistinct(all.value, sorted);
    PermutedStaysListed(backend, calls, all.value, sorted);
    OrderedStand(query, sorted);
    return Some(sorted), calls;
  }

  lemma OrderedStand(query: Query, s: seq<GroupState>)
    requires Ordered(Less(query), s) && Distinct(s)
    ensures forall i, j :: 0 <= i < j < |s| ==> StandsBefore(query, s[i], s[j])
  {
    forall i, j | 0 <= i < j < |s|
      ensures StandsBefore(query, s[i], s[j])
    {
      assert s[i].id != s[j].id && !Less(query)(s[j], s[i]);
      ComesIsAsymmetric(query, s[i], s[j]);
      ComesMeans(query, s[i], s[j]);
    }
  }

  lemma PermutedStaysListed(backend: Backend, calls: nat, s: seq<GroupState>, t: seq<GroupState>)
    requires AllListed(backend, calls, s) && multiset(s) == multiset(t)
    ensures AllListed(backend, calls, t)
  {
    forall group | group in t
      ensures WasListed(backend, calls, group)
    {
      assert group in multiset(t);
      assert group in s;
    }
  }
}

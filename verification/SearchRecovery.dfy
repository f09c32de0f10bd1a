/**
 * The paged catch-up search (server/trackers/plugins/rutracker/search.ts). Results are listed newest
 * first over pages of any size; the search stops at the first page that reaches behind `since`, at the
 * last page, or after twenty pages.
 */
module SearchRecovery {
  import opened Wrappers

  const MAX_RECOVERY_PAGES := 20

  type TopicId = nat

  datatype Release = Release(id: TopicId, published: Option<int>)

  /** A link of the page that leads to a result offset on some origin. */
  datatype Link = Link(origin: nat, start: nat)

  datatype Page = Login | Listing(origin: nat, start: nat, rows: seq<Release>, links: seq<Link>)

  datatype SearchError = Unsupported | Authentication

  // ----- Parsing one page

  /** The links of the page's own origin that lead further on. */
  function Onward(origin: nat, start: nat, links: seq<Link>): (r: seq<nat>)
    ensures forall n :: n in r <==> n > start && Link(origin, n) in links
  {
    if links == [] then []
    else
      var rest := Onward(origin, start, links[1..]);
      assert links == [links[0]] + links[1..];
      if links[0].origin == origin && links[0].start > start then [links[0].start] + rest else rest
  }

  /** The first of the candidates sorted by offset. */
  function NextStart(origin: nat, start: nat, links: seq<Link>): (r: Option<nat>)
    ensures r.Some? ==> r.value > start && Link(origin, r.value) in links
                        && forall n | n > start && Link(origin, n) in links :: r.value <= n
    ensures r.None? ==> forall n | n > start :: Link(origin, n) !in links
  {
    Smallest(Onward(origin, start, links))
  }

  function Smallest(s: seq<nat>): (r: Option<nat>)
    ensures r.None? <==> s == []
    ensures r.Some? ==> r.value in s && forall n | n in s :: r.value <= n
  {
    if s == [] then None
    else
      var rest := Smallest(s[1..]);
      assert s == [s[0]] + s[1..];
      if rest.Some? && rest.value < s[0] then rest else Some(s[0])
  }

  function Unique(releases: seq<Release>): seq<Release> {
    if releases == [] then []
    else
      var last := |releases| - 1;
      if exists i :: 0 <= i < last && releases[i].id == releases[last].id then Unique(releases[..last])
      else Unique(releases[..last]) + [releases[last]]
  }

  predicate IsFirst(releases: seq<Release>, i: int) {
    0 <= i < |releases| && forall j | 0 <= j < i :: releases[j].id != releases[i].id
  }

  predicate Distinct(releases: seq<Release>) {
    forall i, j | 0 <= i < j < |releases| :: releases[i].id != releases[j].id
  }

  lemma {:induction false} UniqueOfDistinct(releases: seq<Release>)
    requires Distinct(releases)
    ensures Unique(releases) == releases
  {
    if releases != [] {
      UniqueOfDistinct(releases[..|releases| - 1]);
      assert releases == releases[..|releases| - 1] + [releases[|releases| - 1]];
    }
  }

  /** What is kept is the first release of each topic, once. */
  lemma {:induction false} UniqueIsFirsts(releases: seq<Release>)
    ensures Distinct(Unique(releases))
    ensures forall x :: x in Unique(releases) <==> exists i :: IsFirst(releases, i) && releases[i] == x
  {
    if releases != [] {
      var last := |releases| - 1;
      var init := releases[..last];
      UniqueIsFirsts(init);
      assert forall i | 0 <= i < last :: IsFirst(releases, i) <==> IsFirst(init, i);
      forall x ensures x in Unique(releases) <==> exists i :: IsFirst(releases, i) && releases[i] == x {
        if x in Unique(init) {
          var i :| IsFirst(init, i) && init[i] == x;
          assert IsFirst(releases, i);
        } else if x in Unique(releases) {
          assert IsFirst(releases, last);
        }
      }
      forall i | 0 <= i < |Unique(init)| ensures Unique(init)[i].id != releases[last].id || Unique(releases) == Unique(init) {
        assert Unique(init)[i] in Unique(init);
        var k :| IsFirst(init, k) && init[k] == Unique(init)[i];
        assert releases[k] == init[k];
      }
    }
  }

  predicate Wanted(r: Release, since: int) {
    r.published.Some? ==> r.published.value >= since
  }

  function Recent(releases: seq<Release>, since: int): (r: seq<Release>)
    ensures forall x :: x in r <==> x in releases && Wanted(x, since)
  {
    if releases == [] then []
    else
      var last := releases[|releases| - 1];
      assert releases == releases[..|releases| - 1] + [last];
      Recent(releases[..|releases| - 1], since) + if Wanted(last, since) then [last] else []
  }

  lemma {:induction false} RecentOfBoth(a: seq<Release>, b: seq<Release>, since: int)
    ensures Recent(a + b, since) == Recent(a, since) + Recent(b, since)
  {
    if b == [] {
      assert a + b == a;
    } else {
      RecentOfBoth(a, b[..|b| - 1], since);
      assert (a + b)[..|a + b| - 1] == a + b[..|b| - 1];
    }
  }

  lemma {:induction false} RecentIsDistinct(releases: seq<Release>, since: int)
    requires Distinct(releases)
    ensures Distinct(Recent(releases, since))
  {
    if releases != [] {
      var init := releases[..|releases| - 1];
      RecentIsDistinct(init, since);
      forall i | 0 <= i < |Recent(init, since)| ensures Recent(init, since)[i].id != releases[|releases| - 1].id {
        assert Recent(init, since)[i] in init;
      }
    }
  }

  function OldestTime(releases: seq<Release>): (r: Option<int>)
    ensures r.Some? ==> exists x :: x in releases && x.published == r
    ensures r.Some? ==> forall x | x in releases && x.published.Some? :: r.value <= x.published.value
    ensures r.None? ==> forall x | x in releases :: x.published.None?
  {
    if releases == [] then None
    else
      var rest := OldestTime(releases[1..]);
      assert releases == [releases[0]] + releases[1..];
      if releases[0].published.None? then rest
      else if rest.Some? && rest.value < releases[0].published.value then rest
      else releases[0].published
  }

  // ----- The site

  /**
   * A search whose results do not change while it is read. `pageEnd` says where the page that starts
   * at an offset ends, `links` what else it links to, and `expired` where the login has run out.
   */
  datatype Site = Site(origin: nat, results: seq<Release>, pageEnd: nat -> nat, links: nat -> seq<Link>, expired: nat -> bool)
  {
    /** One result per topic, newest first as far as they are dated. */
    predicate NewestFirst() {
      && Distinct(results)
      && forall i, j | 0 <= i < j < |results| && results[i].published.Some? && results[j].published.Some? ::
           results[i].published.value >= results[j].published.value
    }

    /** Whatever the page sizes: each page links to the one that follows it and, if anywhere else on its origin, beyond that or back. */
    ghost predicate Linked() {
      forall s: nat | s <= |results| ::
        && s <= pageEnd(s) <= |results|
        && (s < |results| ==> s < pageEnd(s))
        && (pageEnd(s) < |results| ==> Link(origin, pageEnd(s)) in links(s))
        && (forall n: nat | n > s && Link(origin, n) in links(s) :: pageEnd(s) <= n < |results|)
    }

    function PageAt(s: nat): Page
      requires s <= |results| && Linked()
    {
      if expired(s) then Login else Listing(origin, s, results[s..pageEnd(s)], links(s))
    }
  }

  datatype Recovery = Recovery(releases: seq<Release>, complete: bool, pagesRead: nat, readTo: nat)

  /** The search is over after the results up to `readTo`: they reach behind `since`, or are all there is. */
  predicate Reaches(site: Site, readTo: nat, since: int)
    requires readTo <= |site.results|
  {
    readTo == |site.results| || exists r :: r in site.results[..readTo] && r.published.Some? && r.published.value < since
  }

  /** What a search that was let in brings back. */
  ghost predicate IsRecovery(site: Site, since: int, b: Recovery) {
    && b.readTo <= |site.results| && 1 <= b.pagesRead <= 20
    && b.releases == Recent(site.results[..b.readTo], since)
    && (b.complete <==> Reaches(site, b.readTo, since))
    && (!b.complete ==> b.pagesRead == 20)
    && (b.complete ==> forall x | x in site.results && x.published.Some? :: x in b.releases <==> x.published.value >= since)
  }

  /**
   * The catch-up search. If it is complete, the releases returned are exactly the results dated at or
   * after `since`, with the undated ones on the pages read. It is complete unless twenty pages were read
   * and neither the end nor a result from before `since` was among them.
   */
  method Recover(site: Site, terms: seq<string>, loggedIn: bool, since: int) returns (r: Result<Recovery, SearchError>)
    requires site.NewestFirst() && site.Linked()
    ensures terms == [] ==> r == Err(Unsupported)
    ensures terms != [] && !loggedIn ==> r == Err(Authentication)
    ensures r == Err(Unsupported) ==> terms == []
    ensures r == Err(Authentication) ==> !loggedIn || exists s: nat :: s <= |site.results| && site.expired(s)
    ensures r.Ok? ==> IsRecovery(site, since, r.value)
  {
    if terms == [] {
      return Err(Unsupported);
    }
    if !loggedIn {
      return Err(Authentication);
    }
    var start: nat := 0;
    var page := site.PageAt(0);
    var releases: seq<Release> := [];
    var complete := false;
    var pageNumber := 0;
    while pageNumber < MAX_RECOVERY_PAGES && !complete
      invariant 0 <= pageNumber <= MAX_RECOVERY_PAGES && (complete ==> pageNumber >= 1)
      invariant start <= |site.results|
      invariant releases == Recent(site.results[..start], since)
      invariant complete <==> ReachedSoFar(site, start, since, pageNumber)
      invariant pageNumber == 0 ==> start == 0
      invariant !complete ==> page == site.PageAt(start)
      decreases MAX_RECOVERY_PAGES - pageNumber, !complete
    {
      if page.Login? {
        return Err(Authentication);
      }
      var end := site.pageEnd(start);
      PageStep(site, start, since, pageNumber);
      var parsed := Unique(page.rows);
      releases := releases + Recent(parsed, since);
      var oldest := OldestTime(parsed);
      var next := NextStart(page.origin, page.start, page.links);
      if (oldest.Some? && oldest.value < since) || next.None? {
        complete := true;
      } else {
        page := site.PageAt(next.value);
      }
      start := end;
      pageNumber := pageNumber + 1;
    }
    Finished(site, start, since);
    r := Ok(Recovery(Unique(releases), complete, pageNumber, start));
  }

  predicate ReachedSoFar(site: Site, start: nat, since: int, pageNumber: int)
    requires start <= |site.results|
  {
    pageNumber > 0 && Reaches(site, start, since)
  }

  /** What reading the page at `start` adds, where it leads, and whether it ends the search. */
  lemma PageStep(site: Site, start: nat, since: int, pageNumber: int)
    requires site.NewestFirst() && site.Linked() && start <= |site.results| && 0 <= pageNumber
    requires !ReachedSoFar(site, start, since, pageNumber) && (pageNumber == 0 ==> start == 0)
    ensures var end := site.pageEnd(start);
            var rows := site.results[start..end];
            var next := NextStart(site.origin, start, site.links(start));
            && Unique(rows) == rows
            && Recent(site.results[..start], since) + Recent(rows, since) == Recent(site.results[..end], since)
            && next == (if end < |site.results| then Some(end) else None)
            && (Reaches(site, end, since) <==> next.None? || (OldestTime(rows).Some? && OldestTime(rows).value < since))
  {
    var end := site.pageEnd(start);
    var rows := site.results[start..end];
    assert site.results[..start] + rows == site.results[..end];
    UniqueOfDistinct(rows);
    RecentOfBoth(site.results[..start], rows, since);
    PagesMoveOn(site, start);
    assert start == 0 ==> site.results[..start] == [];
    ReachesWithPage(site, start, end, since);
  }

  /** Reading one more page ends the search exactly if the page is the last or lists something from before `since`. */
  lemma ReachesWithPage(site: Site, start: nat, end: nat, since: int)
    requires start <= end <= |site.results|
    requires forall r | r in site.results[..start] && r.published.Some? :: r.published.value >= since
    ensures var oldest := OldestTime(site.results[start..end]);
            Reaches(site, end, since) <==> end == |site.results| || (oldest.Some? && oldest.value < since)
  {
    var rows := site.results[start..end];
    assert site.results[..end] == site.results[..start] + rows;
    assert forall r :: r in site.results[..end] <==> r in site.results[..start] || r in rows;
  }

  lemma Finished(site: Site, readTo: nat, since: int)
    requires site.NewestFirst() && readTo <= |site.results|
    ensures Unique(Recent(site.results[..readTo], since)) == Recent(site.results[..readTo], since)
    ensures Reaches(site, readTo, since) ==>
              forall x | x in site.results && x.published.Some? ::
                x in Recent(site.results[..readTo], since) <==> x.published.value >= since
  {
    RecentIsDistinct(site.results[..readTo], since);
    UniqueOfDistinct(Recent(site.results[..readTo], since));
    if Reaches(site, readTo, since) {
      NothingRecentIsLeft(site, readTo, since);
    }
  }

  /** Newest first: once the pages reach behind `since`, no dated result after them is recent. */
  lemma NothingRecentIsLeft(site: Site, readTo: nat, since: int)
    requires site.NewestFirst() && readTo <= |site.results| && Reaches(site, readTo, since)
    ensures forall x | x in site.results && x.published.Some? ::
              x in Recent(site.results[..readTo], since) <==> x.published.value >= since
  {
    forall x | x in site.results && x.published.Some? && x.published.value >= since ensures x in site.results[..readTo] {
      var k :| 0 <= k < |site.results| && site.results[k] == x;
      assert k < readTo;
      assert site.results[..readTo][k] == x;
    }
  }

  /** Each next page starts strictly further on, at the end of the one before. */
  lemma PagesMoveOn(site: Site, s: nat)
    requires site.Linked() && s <= |site.results|
    ensures var next := NextStart(site.origin, s, site.links(s));
            && (next.Some? <==> site.pageEnd(s) < |site.results|)
            && (next.Some? ==> next.value == site.pageEnd(s) && next.value > s)
  {
  }
}

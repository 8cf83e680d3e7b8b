/** The grid search engine: plan the cells, run one nearby search per cell and keyword, keep each
    place once, enrich it, optionally crawl its website, and sort. */
module Search {
  import opened Wrappers
  import opened Geometry
  import opened Places
  import opened Emails
  import opened Ordering

  /** The outside world the engine talks to: the nearby-search endpoint, the place-details
      endpoint, the web (a page per site and path) and the address pattern. */
  datatype Services = Services(
    nearby: Query -> ApiResponse,
    details: string -> DetailsResponse,
    web: (string, string) -> PageResult,
    emailPattern: string -> bool)

  // ----- which results are kept -----

  /** `search_grid` keeps only places within the original radius of the centre;
      `search_single_point` keeps every place. */
  datatype Admission = WithinRadius(centerLat: real, centerLng: real, radiusKm: real) | Unfiltered

  predicate Admits(geo: Geo, a: Admission, p: Place) {
    a.WithinRadius? ==> geo.distance(a.centerLat, a.centerLng, p.lat, p.lng) <= a.radiusKm
  }

  /** A kept grid result records its distance from the centre, rounded to two decimals. */
  function Annotate(geo: Geo, a: Admission, p: Place): (r: Place)
    ensures r.placeId == p.placeId
    ensures a.Unfiltered? ==> r == p
  {
    match a
    case Unfiltered => p
    case WithinRadius(lat, lng, _) => p.(distanceFromCenter := Some(Round2(geo.distance(lat, lng, p.lat, p.lng))))
  }

  /** The place ids (possibly `None`) present in `s`. */
  function Ids(s: seq<Place>): set<Option<string>> {
    set p | p in s :: p.placeId
  }

  /** No two places share a place id; at most one has none. */
  predicate UniqueIds(s: seq<Place>) {
    forall i, j :: 0 <= i < j < |s| ==> s[i].placeId != s[j].placeId
  }

  /** Reference definition of the de-duplicating filter of both searches: walk the stream of
      results in order; skip one whose id was already kept or that is not admitted; keep the rest. */
  function Accepted(geo: Geo, a: Admission, s: seq<Place>): seq<Place> {
    if s == [] then []
    else
      var prev := Accepted(geo, a, s[..|s| - 1]);
      var x := s[|s| - 1];
      if x.placeId in Ids(prev) || !Admits(geo, a, x) then prev else prev + [Annotate(geo, a, x)]
  }

  /** Some admitted element of `s` has id `id`. */
  predicate AdmittedId(geo: Geo, a: Admission, s: seq<Place>, id: Option<string>) {
    exists i :: 0 <= i < |s| && Admits(geo, a, s[i]) && s[i].placeId == id
  }

  /** `s[i]` is the first admitted element of `s` with its id. */
  predicate FirstAdmitted(geo: Geo, a: Admission, s: seq<Place>, i: int)
    requires 0 <= i < |s|
  {
    && Admits(geo, a, s[i])
    && forall j :: 0 <= j < i && Admits(geo, a, s[j]) ==> s[j].placeId != s[i].placeId
  }

  /** The ids kept are exactly the ids of admitted results. */
  lemma {:induction false} AcceptedIds(geo: Geo, a: Admission, s: seq<Place>)
    ensures forall id :: id in Ids(Accepted(geo, a, s)) <==> AdmittedId(geo, a, s, id)
    decreases |s|
  {
    if s != [] {
      var init := s[..|s| - 1];
      var x := s[|s| - 1];
      AcceptedIds(geo, a, init);
      var prev := Accepted(geo, a, init);
      forall id ensures AdmittedId(geo, a, s, id) <==> AdmittedId(geo, a, init, id) || (Admits(geo, a, x) && x.placeId == id) {
        if AdmittedId(geo, a, s, id) {
          var i :| 0 <= i < |s| && Admits(geo, a, s[i]) && s[i].placeId == id;
          if i < |init| {
            assert init[i] == s[i];
          }
        }
        if AdmittedId(geo, a, init, id) {
          var i :| 0 <= i < |init| && Admits(geo, a, init[i]) && init[i].placeId == id;
          assert s[i] == init[i];
        }
      }
      if !(x.placeId in Ids(prev) || !Admits(geo, a, x)) {
        var y := Annotate(geo, a, x);
        assert Ids(prev + [y]) == Ids(prev) + {x.placeId} by {
          assert forall p :: p in prev + [y] <==> p in prev || p == y;
        }
      }
    }
  }

  /** No two kept places share an id. */
  lemma {:induction false} AcceptedUnique(geo: Geo, a: Admission, s: seq<Place>)
    ensures UniqueIds(Accepted(geo, a, s))
    decreases |s|
  {
    if s != [] {
      var init := s[..|s| - 1];
      var x := s[|s| - 1];
      AcceptedUnique(geo, a, init);
      var prev := Accepted(geo, a, init);
      if !(x.placeId in Ids(prev) || !Admits(geo, a, x)) {
        var r := prev + [Annotate(geo, a, x)];
        forall i, j | 0 <= i < j < |r| ensures r[i].placeId != r[j].placeId {
          if j == |prev| {
            assert r[i] in prev;
          } else {
            assert r[i] == prev[i] && r[j] == prev[j];
          }
        }
      }
    }
  }

  /** Filtering a longer stream only appends to what was kept. */
  lemma {:induction false} AcceptedPrefix(geo: Geo, a: Admission, s: seq<Place>)
    requires s != []
    ensures var prev := Accepted(geo, a, s[..|s| - 1]);
      |prev| <= |Accepted(geo, a, s)| && Accepted(geo, a, s)[..|prev|] == prev
  {
  }

  /** Completeness: the first admitted result with a given id is kept, with its distance noted. */
  lemma {:induction false} AcceptedComplete(geo: Geo, a: Admission, s: seq<Place>, i: int)
    requires 0 <= i < |s| && FirstAdmitted(geo, a, s, i)
    ensures Annotate(geo, a, s[i]) in Accepted(geo, a, s)
    decreases |s|
  {
    var init := s[..|s| - 1];
    var prev := Accepted(geo, a, init);
    AcceptedPrefix(geo, a, s);
    if i < |init| {
      assert FirstAdmitted(geo, a, init, i) by {
        forall j | 0 <= j < i ensures init[j] == s[j] {}
      }
      AcceptedComplete(geo, a, init, i);
      assert Annotate(geo, a, s[i]) in Accepted(geo, a, s)[..|prev|];
    } else {
      AcceptedIds(geo, a, init);
      forall j | 0 <= j < |init| && Admits(geo, a, init[j]) ensures init[j].placeId != s[i].placeId {
        assert init[j] == s[j];
      }
    }
  }

  /** Soundness: every kept place is the annotated first admitted result with its id. */
  lemma {:induction false} AcceptedSound(geo: Geo, a: Admission, s: seq<Place>, p: Place)
    requires p in Accepted(geo, a, s)
    ensures exists i :: 0 <= i < |s| && FirstAdmitted(geo, a, s, i) && p == Annotate(geo, a, s[i])
    decreases |s|
  {
    var init := s[..|s| - 1];
    var prev := Accepted(geo, a, init);
    if p in prev {
      AcceptedSound(geo, a, init, p);
      var i :| 0 <= i < |init| && FirstAdmitted(geo, a, init, i) && p == Annotate(geo, a, init[i]);
      assert s[i] == init[i];
      assert FirstAdmitted(geo, a, s, i) by {
        forall j | 0 <= j < i ensures init[j] == s[j] {}
      }
    } else {
      var i := |s| - 1;
      AcceptedIds(geo, a, init);
      forall j | 0 <= j < i && Admits(geo, a, s[j]) ensures s[j].placeId != s[i].placeId {
        assert s[j] == init[j];
      }
    }
  }

  // ----- the requests -----

  /** The request of one cell for one keyword: the cell's centre and radius. */
  function CellQuery(cell: GridPoint, keyword: string): Query {
    Query(cell.lat, cell.lng, cell.radiusKm, keyword)
  }

  /** The requests of one cell, one per keyword, in keyword order. */
  function CellQueries(cell: GridPoint, keywords: seq<string>): (qs: seq<Query>)
    ensures |qs| == |keywords|
    ensures forall k :: 0 <= k < |keywords| ==> qs[k] == CellQuery(cell, keywords[k])
  {
    seq(|keywords|, k requires 0 <= k < |keywords| => CellQuery(cell, keywords[k]))
  }

  /** The requests of the whole grid: cell by cell, and within a cell keyword by keyword. */
  function PassQueries(cells: seq<GridPoint>, keywords: seq<string>): seq<Query> {
    if cells == [] then []
    else PassQueries(cells[..|cells| - 1], keywords) + CellQueries(cells[|cells| - 1], keywords)
  }

  /** The grid makes `cells × keywords` requests. */
  lemma {:induction false} PassQueriesCount(cells: seq<GridPoint>, keywords: seq<string>)
    ensures |PassQueries(cells, keywords)| == |cells| * |keywords|
    decreases |cells|
  {
    if cells != [] {
      var n := |cells| - 1;
      PassQueriesCount(cells[..n], keywords);
      assert (n + 1) * |keywords| == n * |keywords| + |keywords|;
    }
  }

  /** The `k`-th keyword of cell `c` is request number `c·|keywords| + k`. */
  lemma {:induction false} PassQueriesAt(cells: seq<GridPoint>, keywords: seq<string>, c: nat, k: nat)
    requires c < |cells| && k < |keywords|
    ensures c * |keywords| + k < |PassQueries(cells, keywords)|
    ensures PassQueries(cells, keywords)[c * |keywords| + k] == CellQuery(cells[c], keywords[k])
    decreases |cells|
  {
    var n := |cells| - 1;
    var m := |keywords|;
    var init := cells[..n];
    PassQueriesCount(init, keywords);
    var prefix := PassQueries(init, keywords);
    assert PassQueries(cells, keywords) == prefix + CellQueries(cells[n], keywords);
    if c < n {
      PassQueriesAt(init, keywords, c, k);
      assert cells[c] == init[c];
    } else {
      assert c * m == |prefix|;
    }
  }

  // ----- the results -----

  /** The results of one request. */
  function Page(geo: Geo, svc: Services, q: Query): seq<Place> {
    NearbySearch(geo, svc.nearby(q), q)
  }

  /** All results of a sequence of requests, request by request. */
  function Stream(geo: Geo, svc: Services, qs: seq<Query>): seq<Place> {
    if qs == [] then [] else Stream(geo, svc, qs[..|qs| - 1]) + Page(geo, svc, qs[|qs| - 1])
  }

  lemma StreamSnoc(geo: Geo, svc: Services, qs: seq<Query>, q: Query)
    ensures Stream(geo, svc, qs + [q]) == Stream(geo, svc, qs) + Page(geo, svc, q)
  {
    assert (qs + [q])[..|qs|] == qs;
  }

  /** A result is in the stream exactly when one of the requests returned it; each is freshly
      parsed with its request's keyword. */
  lemma {:induction false} StreamMembers(geo: Geo, svc: Services, qs: seq<Query>)
    ensures forall x :: x in Stream(geo, svc, qs) <==> exists i :: 0 <= i < |qs| && x in Page(geo, svc, qs[i])
    ensures forall x :: x in Stream(geo, svc, qs) ==> exists i :: 0 <= i < |qs| && FreshlyParsed(x, qs[i].keyword)
    decreases |qs|
  {
    if qs != [] {
      var init := qs[..|qs| - 1];
      StreamMembers(geo, svc, init);
      forall x ensures x in Stream(geo, svc, qs) <==> exists i :: 0 <= i < |qs| && x in Page(geo, svc, qs[i]) {
        if i :| 0 <= i < |qs| && x in Page(geo, svc, qs[i]) {
          if i < |init| {
            assert qs[i] == init[i];
          }
        }
        if x in Stream(geo, svc, init) {
          var i :| 0 <= i < |init| && x in Page(geo, svc, init[i]);
          assert qs[i] == init[i];
        }
      }
      forall x | x in Stream(geo, svc, qs) ensures exists i :: 0 <= i < |qs| && FreshlyParsed(x, qs[i].keyword) {
        var i :| 0 <= i < |qs| && x in Page(geo, svc, qs[i]);
      }
    }
  }

  // ----- the loops -----

  /** The loop over one request's results: skip an id already seen, skip a result outside the
      radius, otherwise keep it (annotated) and remember its id. */
  method AcceptPage(geo: Geo, a: Admission, results: seq<Place>, seen: set<Option<string>>,
                    page: seq<Place>, ghost s: seq<Place>)
    returns (results': seq<Place>, seen': set<Option<string>>)
    requires results == Accepted(geo, a, s) && seen == Ids(results)
    ensures results' == Accepted(geo, a, s + page) && seen' == Ids(results')
  {
    results', seen' := results, seen;
    ghost var t := s;
    for j := 0 to |page|
      invariant t == s + page[..j]
      invariant results' == Accepted(geo, a, t) && seen' == Ids(results')
    {
      results', seen' := AcceptOne(geo, a, results', seen', page[j], t);
      AppendTake(s, page, j);
      t := t + [page[j]];
    }
    assert page[..|page|] == page;
  }

  lemma AppendTake<T>(s: seq<T>, page: seq<T>, j: nat)
    requires j < |page|
    ensures s + page[..j + 1] == (s + page[..j]) + [page[j]]
  {
    assert page[..j + 1] == page[..j] + [page[j]];
  }

  /** One iteration of the result loop: skip a seen id, keep an admitted place annotated. */
  method AcceptOne(geo: Geo, a: Admission, results: seq<Place>, seen: set<Option<string>>,
                   x: Place, ghost s: seq<Place>)
    returns (results': seq<Place>, seen': set<Option<string>>)
    requires results == Accepted(geo, a, s) && seen == Ids(results)
    ensures results' == Accepted(geo, a, s + [x]) && seen' == Ids(results')
  {
    AcceptedSnoc(geo, a, s, x);
    results', seen' := results, seen;
    if x.placeId !in seen && Admits(geo, a, x) {
      var y := Annotate(geo, a, x);
      IdsSnoc(results, y);
      results' := results + [y];
      seen' := seen + {x.placeId};
    }
  }

  /** One more result: it is kept, annotated, exactly when it is admitted and its id is new. */
  lemma AcceptedSnoc(geo: Geo, a: Admission, s: seq<Place>, x: Place)
    ensures var prev := Accepted(geo, a, s);
      Accepted(geo, a, s + [x])
        == if x.placeId in Ids(prev) || !Admits(geo, a, x) then prev else prev + [Annotate(geo, a, x)]
  {
    assert (s + [x])[..|s|] == s;
  }

  /** The keyword loop at one cell: one request per keyword, each page filtered in turn. */
  method SearchCell(geo: Geo, svc: Services, a: Admission, cell: GridPoint, keywords: seq<string>,
                    results: seq<Place>, seen: set<Option<string>>, queries: seq<Query>)
    returns (results': seq<Place>, seen': set<Option<string>>, queries': seq<Query>)
    requires results == Accepted(geo, a, Stream(geo, svc, queries)) && seen == Ids(results)
    ensures queries' == queries + CellQueries(cell, keywords)
    ensures results' == Accepted(geo, a, Stream(geo, svc, queries')) && seen' == Ids(results')
  {
    results', seen', queries' := results, seen, queries;
    ghost var s := Stream(geo, svc, queries);
    for k := 0 to |keywords|
      invariant queries' == queries + CellQueries(cell, keywords)[..k]
      invariant s == Stream(geo, svc, queries')
      invariant results' == Accepted(geo, a, s) && seen' == Ids(results')
    {
      var q := CellQuery(cell, keywords[k]);
      var page := NearbySearch(geo, svc.nearby(q), q);
      results', seen' := AcceptPage(geo, a, results', seen', page, s);
      StreamSnoc(geo, svc, queries', q);
      queries' := queries' + [q];
      s := s + page;
      CellQueriesTake(cell, keywords, k);
    }
    assert CellQueries(cell, keywords)[..|keywords|] == CellQueries(cell, keywords);
  }

  lemma CellQueriesTake(cell: GridPoint, keywords: seq<string>, k: nat)
    requires k < |keywords|
    ensures CellQueries(cell, keywords)[..k + 1] == CellQueries(cell, keywords)[..k] + [CellQuery(cell, keywords[k])]
  {
    var qs := CellQueries(cell, keywords);
    assert qs[..k + 1] == qs[..k] + [qs[k]];
  }

  /** The cell loop of `search_grid`: every cell, every keyword, in order. */
  method CollectPasses(geo: Geo, svc: Services, a: Admission, cells: seq<GridPoint>, keywords: seq<string>)
    returns (results: seq<Place>, queries: seq<Query>)
    ensures queries == PassQueries(cells, keywords)
    ensures results == Accepted(geo, a, Stream(geo, svc, queries))
  {
    results, queries := [], [];
    var seen: set<Option<string>> := {};
    for c := 0 to |cells|
      invariant queries == PassQueries(cells[..c], keywords)
      invariant results == Accepted(geo, a, Stream(geo, svc, queries)) && seen == Ids(results)
    {
      results, seen, queries := SearchCell(geo, svc, a, cells[c], keywords, results, seen, queries);
      assert cells[..c + 1][..c] == cells[..c];
    }
    assert cells[..|cells|] == cells;
  }

  /** Every grid request carries one of the keywords. */
  lemma {:induction false} PassQueriesKeywords(cells: seq<GridPoint>, keywords: seq<string>)
    ensures forall q :: q in PassQueries(cells, keywords) ==> q.keyword in keywords
    decreases |cells|
  {
    if cells != [] {
      PassQueriesKeywords(cells[..|cells| - 1], keywords);
    }
  }

  // ----- after the searches -----

  /** The emails stage for one place: a non-empty website is crawled with the default page budget;
      any other place gets no addresses. */
  function PlaceEmails(p: Place, svc: Services): seq<string> {
    match p.website
    case Some(w) =>
      if w != "" then ExtractEmailsFromWebsite(w, DefaultMaxPages, svc.web, svc.emailPattern).emails else []
    case None => []
  }

  /** `_extract_emails_for_places`: every place gets an `emails` list and nothing else changes. */
  function ExtractEmailsForPlaces(places: seq<Place>, svc: Services): (r: seq<Place>)
    ensures |r| == |places|
    ensures forall i :: 0 <= i < |r| ==> r[i] == places[i].(emails := r[i].emails)
    ensures forall i :: 0 <= i < |r| ==> |r[i].emails| <= MaxEmails && NoDuplicates(r[i].emails)
    ensures forall i :: 0 <= i < |r| && (places[i].website.None? || places[i].website == Some("")) ==>
      r[i].emails == []
    ensures forall i :: 0 <= i < |r| && places[i].website.Some? && !IsValidUrl(places[i].website.value) ==>
      r[i].emails == []
    ensures forall i, e :: 0 <= i < |r| && places[i].website.Some? && e in r[i].emails ==>
      var w := places[i].website.value;
      IsValidEmail(e, BaseDomain(NormalizeUrl(w))) && Normalize(e) == e
    ensures forall i :: 0 <= i < |r| && places[i].website.Some? && places[i].website.value != "" ==>
      r[i].emails == ExtractEmailsFromWebsite(places[i].website.value, DefaultMaxPages, svc.web, svc.emailPattern).emails
    ensures forall i, e :: 0 <= i < |r| && places[i].website.Some? && e in r[i].emails ==>
      var w := places[i].website.value;
      e in Harvest(EmailPaths[..PageBudget(|EmailPaths|, DefaultMaxPages)], SiteVisit(w, svc.web, svc.emailPattern))
  {
    seq(|places|, i requires 0 <= i < |places| => places[i].(emails := PlaceEmails(places[i], svc)))
  }

  /** Sort key of `search_grid`: the distance from the centre, infinity when absent. */
  function CenterKey(p: Place): Key {
    match p.distanceFromCenter
    case Some(d) => Finite(d)
    case None => Infinite
  }

  /** Sort key of `search_single_point`: the distance from the search point. */
  function DistanceKey(p: Place): Key {
    Finite(p.distance)
  }

  /** A place with the later stages' fields cleared: the record as the search returned it. */
  function Listing(p: Place): Place {
    p.(website := None, phone := None, formattedAddress := None, emails := [])
  }

  /** Enrichment followed by the optional email crawl. */
  function Stages(svc: Services, accepted: seq<Place>, extractEmails: bool): seq<Place> {
    var enriched := EnrichPlaces(accepted, svc.details);
    if extractEmails then ExtractEmailsForPlaces(enriched, svc) else enriched
  }

  /** Enrichment, the optional email crawl and the final stable sort, shared by both searches. */
  function Finish(svc: Services, accepted: seq<Place>, extractEmails: bool, key: Place -> Key): seq<Place> {
    SortBy(Stages(svc, accepted, extractEmails), key)
  }

  /** The stages touch only website, phone, formatted address and emails, place by place. */
  lemma StagesKeepListing(svc: Services, accepted: seq<Place>, extractEmails: bool)
    requires forall p :: p in accepted ==> Listing(p) == p
    ensures var w := Stages(svc, accepted, extractEmails);
      && |w| == |accepted|
      && (forall i :: 0 <= i < |w| ==> Listing(w[i]) == accepted[i] && w[i].placeId == accepted[i].placeId)
      && (!extractEmails ==> forall i :: 0 <= i < |w| ==> w[i].emails == [])
  {
    var w := Stages(svc, accepted, extractEmails);
    forall i | 0 <= i < |w| ensures Listing(w[i]) == accepted[i] {
      assert accepted[i] in accepted;
    }
    if !extractEmails {
      forall i | 0 <= i < |w| ensures w[i].emails == [] {
        assert accepted[i] in accepted;
      }
    }
  }

  /** Places matched position by position with equal ids have equal id sets and equal uniqueness. */
  lemma PointwiseIds(a: seq<Place>, b: seq<Place>)
    requires |a| == |b| && forall i :: 0 <= i < |a| ==> a[i].placeId == b[i].placeId
    ensures Ids(a) == Ids(b)
    ensures UniqueIds(a) ==> UniqueIds(b)
  {
    forall id | id in Ids(a) ensures id in Ids(b) {
      var p :| p in a && p.placeId == id;
      var i :| 0 <= i < |a| && a[i] == p;
      assert b[i] in b;
    }
    forall id | id in Ids(b) ensures id in Ids(a) {
      var p :| p in b && p.placeId == id;
      var i :| 0 <= i < |b| && b[i] == p;
      assert a[i] in a;
    }
  }

  /** A permutation has the same places, the same ids, and unique ids when the original does. */
  lemma PermutationIds(a: seq<Place>, b: seq<Place>)
    requires multiset(a) == multiset(b)
    ensures forall p :: p in a <==> p in b
    ensures Ids(a) == Ids(b)
    ensures UniqueIds(a) ==> UniqueIds(b)
  {
    assert forall p :: p in a <==> p in b by {
      forall p ensures p in a <==> p in b {
        assert p in a <==> p in multiset(a);
        assert p in b <==> p in multiset(b);
      }
    }
    assert |a| == |multiset(a)| == |b|;
    if UniqueIds(a) {
      UniqueIdsCount(a);
      UniqueIdsCount(b);
    }
  }

  /** The final stages keep every place once, change only the later fields, and sort. */
  lemma FinishProperties(svc: Services, accepted: seq<Place>, extractEmails: bool, key: Place -> Key)
    requires forall p :: p in accepted ==> Listing(p) == p
    ensures var r := Finish(svc, accepted, extractEmails, key);
      && |r| == |accepted|
      && Sorted(r, key)
      && Ids(r) == Ids(accepted)
      && (UniqueIds(accepted) ==> UniqueIds(r))
      && (forall p :: p in r ==> Listing(p) in accepted)
      && (!extractEmails ==> forall p :: p in r ==> p.emails == [])
  {
    var w := Stages(svc, accepted, extractEmails);
    var r := SortBy(w, key);
    StagesKeepListing(svc, accepted, extractEmails);
    PointwiseIds(accepted, w);
    SortByProperties(w, key);
    PermutationIds(w, r);
    forall p | p in r ensures Listing(p) in accepted && (!extractEmails ==> p.emails == []) {
      var i :| 0 <= i < |w| && w[i] == p;
    }
  }

  /** Extending a sequence by one place adds that place's id. */
  lemma IdsSnoc(s: seq<Place>, x: Place)
    ensures Ids(s + [x]) == Ids(s) + {x.placeId}
  {
    assert forall p :: p in s + [x] <==> p in s || p == x;
  }

  /** Extending by one place keeps ids unique exactly when the new id is fresh. */
  lemma UniqueIdsSnoc(s: seq<Place>, x: Place)
    ensures UniqueIds(s + [x]) <==> UniqueIds(s) && x.placeId !in Ids(s)
  {
    var t := s + [x];
    if UniqueIds(t) {
      forall i, j | 0 <= i < j < |s| ensures s[i].placeId != s[j].placeId {
        assert s[i] == t[i] && s[j] == t[j];
      }
      forall p | p in s ensures p.placeId != x.placeId {
        var i :| 0 <= i < |s| && s[i] == p;
        assert t[i] == p && t[|s|] == x;
      }
    }
    if UniqueIds(s) && x.placeId !in Ids(s) {
      forall i, j | 0 <= i < j < |t| ensures t[i].placeId != t[j].placeId {
        if j < |s| {
          assert s[i] == t[i] && s[j] == t[j];
        } else {
          assert t[i] in s;
        }
      }
    }
  }

  /** Ids are unique exactly when there are as many ids as places. */
  lemma {:induction false} UniqueIdsCount(s: seq<Place>)
    ensures |Ids(s)| <= |s|
    ensures UniqueIds(s) <==> |Ids(s)| == |s|
    decreases |s|
  {
    if s == [] {
      assert Ids(s) == {};
    } else {
      var init := s[..|s| - 1];
      var x := s[|s| - 1];
      assert s == init + [x];
      UniqueIdsCount(init);
      IdsSnoc(init, x);
      UniqueIdsSnoc(init, x);
    }
  }

  // ----- the two searches -----

  /** What a search returns before its later stages carries none of their fields. */
  lemma AcceptedListings(geo: Geo, a: Admission, s: seq<Place>)
    requires forall x :: x in s ==> Listing(x) == x
    ensures forall p :: p in Accepted(geo, a, s) ==> Listing(p) == p
  {
    forall p | p in Accepted(geo, a, s) ensures Listing(p) == p {
      AcceptedSound(geo, a, s, p);
      var i :| 0 <= i < |s| && FirstAdmitted(geo, a, s, i) && p == Annotate(geo, a, s[i]);
      assert s[i] in s;
    }
  }

  /** Every result of a request list whose keywords come from `keywords` is a listing with one of
      them. */
  lemma StreamListings(geo: Geo, svc: Services, qs: seq<Query>, keywords: seq<string>)
    requires forall q :: q in qs ==> q.keyword in keywords
    ensures forall x :: x in Stream(geo, svc, qs) ==> Listing(x) == x && x.keyword in keywords
  {
    StreamMembers(geo, svc, qs);
    forall x | x in Stream(geo, svc, qs) ensures Listing(x) == x && x.keyword in keywords {
      var i :| 0 <= i < |qs| && FreshlyParsed(x, qs[i].keyword);
      assert qs[i] in qs;
    }
  }

  /** What both searches promise about their results, given the admission rule, the requests made
      and the sort key. */
  lemma SearchOutcome(geo: Geo, svc: Services, a: Admission, queries: seq<Query>, keywords: seq<string>,
                      extractEmails: bool, key: Place -> Key)
    requires forall q :: q in queries ==> q.keyword in keywords
    ensures var accepted := Accepted(geo, a, Stream(geo, svc, queries));
      var r := Finish(svc, accepted, extractEmails, key);
      && UniqueIds(r)
      && Sorted(r, key)
      && (forall p :: p in r ==> Listing(p) in accepted && p.keyword in keywords)
      && (forall x :: x in Stream(geo, svc, queries) && Admits(geo, a, x) ==> x.placeId in Ids(r))
      && (!extractEmails ==> forall p :: p in r ==> p.emails == [])
  {
    var s := Stream(geo, svc, queries);
    var accepted := Accepted(geo, a, s);
    StreamListings(geo, svc, queries, keywords);
    AcceptedListings(geo, a, s);
    AcceptedUnique(geo, a, s);
    AcceptedIds(geo, a, s);
    FinishProperties(svc, accepted, extractEmails, key);
    forall p | p in Finish(svc, accepted, extractEmails, key) ensures p.keyword in keywords {
      AcceptedSound(geo, a, s, Listing(p));
      var i :| 0 <= i < |s| && FirstAdmitted(geo, a, s, i) && Listing(p) == Annotate(geo, a, s[i]);
      assert s[i] in s;
    }
    forall x | x in s && Admits(geo, a, x) ensures x.placeId in Ids(accepted) {
      var i :| 0 <= i < |s| && s[i] == x;
      assert AdmittedId(geo, a, s, x.placeId);
    }
  }

  /** A kept grid result lies within the radius and records its rounded distance from the centre. */
  lemma GridListings(geo: Geo, a: Admission, s: seq<Place>)
    requires a.WithinRadius?
    ensures forall p :: p in Accepted(geo, a, s) ==>
      var d := geo.distance(a.centerLat, a.centerLng, p.lat, p.lng);
      d <= a.radiusKm && p.distanceFromCenter == Some(Round2(d))
  {
    forall p | p in Accepted(geo, a, s)
      ensures geo.distance(a.centerLat, a.centerLng, p.lat, p.lng) <= a.radiusKm
      ensures p.distanceFromCenter == Some(Round2(geo.distance(a.centerLat, a.centerLng, p.lat, p.lng)))
    {
      AcceptedSound(geo, a, s, p);
    }
  }

  /** `search_grid`. The planner's error propagates; otherwise the result holds each place found
      within the radius once, as first found, enriched, optionally with emails, nearest first.
      `queries` lists the requests made, in order. */
  method SearchGrid(geo: Geo, svc: Services, centerLat: real, centerLng: real, radiusKm: real,
                    keywords: seq<string>, gridSize: int, extractEmails: bool)
    returns (r: Result<seq<Place>, PlanError>, queries: seq<Query>)
    ensures r.Err? <==> gridSize == 0 || geo.cosDeg(centerLat) == 0.0
    ensures r.Err? ==> queries == []
    ensures r.Ok? ==> queries == PassQueries(GridPlan(geo, centerLat, centerLng, radiusKm, gridSize).value, keywords)
    ensures r.Ok? ==> r.value == Finish(svc, Accepted(geo, WithinRadius(centerLat, centerLng, radiusKm),
                                                       Stream(geo, svc, queries)), extractEmails, CenterKey)
    ensures r.Ok? ==> UniqueIds(r.value) && Sorted(r.value, CenterKey)
    ensures r.Ok? ==> forall p :: p in r.value ==>
      var d := geo.distance(centerLat, centerLng, p.lat, p.lng);
      d <= radiusKm && p.distanceFromCenter == Some(Round2(d)) && p.keyword in keywords
    ensures r.Ok? ==> forall p :: p in r.value ==>
      Listing(p) in Accepted(geo, WithinRadius(centerLat, centerLng, radiusKm), Stream(geo, svc, queries))
    ensures r.Ok? ==> forall x ::
      (x in Stream(geo, svc, queries) && geo.distance(centerLat, centerLng, x.lat, x.lng) <= radiusKm) ==>
      x.placeId in Ids(r.value)
    ensures r.Ok? && !extractEmails ==> forall p :: p in r.value ==> p.emails == []
  {
    var plan := CalculateGridPoints(geo, centerLat, centerLng, radiusKm, gridSize);
    if plan.Err? {
      return Err(plan.error), [];
    }
    var a := WithinRadius(centerLat, centerLng, radiusKm);
    var results;
    results, queries := CollectPasses(geo, svc, a, plan.value, keywords);
    var places := EnrichPlaces(results, svc.details);
    if extractEmails {
      places := ExtractEmailsForPlaces(places, svc);
    }
    places := SortBy(places, CenterKey);
    r := Ok(places);
    PassQueriesKeywords(plan.value, keywords);
    SearchOutcome(geo, svc, a, queries, keywords, extractEmails, CenterKey);
    GridListings(geo, a, Stream(geo, svc, queries));
  }

  /** `search_single_point`: one request per keyword at the point itself; no radius filter and no
      distance from a centre; the result holds each place once, as first found, nearest first. */
  method SearchSinglePoint(geo: Geo, svc: Services, lat: real, lng: real, radiusKm: real,
                           keywords: seq<string>, extractEmails: bool)
    returns (r: seq<Place>, queries: seq<Query>)
    ensures queries == CellQueries(GridPoint(lat, lng, radiusKm), keywords)
    ensures r == Finish(svc, Accepted(geo, Unfiltered, Stream(geo, svc, queries)), extractEmails, DistanceKey)
    ensures UniqueIds(r) && Sorted(r, DistanceKey)
    ensures forall p :: p in r ==>
      Listing(p) in Stream(geo, svc, queries) && p.keyword in keywords && p.distanceFromCenter.None?
    ensures forall x :: x in Stream(geo, svc, queries) ==> x.placeId in Ids(r)
    ensures !extractEmails ==> forall p :: p in r ==> p.emails == []
  {
    var results, seen;
    results, seen, queries := SearchCell(geo, svc, Unfiltered, GridPoint(lat, lng, radiusKm), keywords, [], {}, []);
    var places := EnrichPlaces(results, svc.details);
    if extractEmails {
      places := ExtractEmailsForPlaces(places, svc);
    }
    r := SortBy(places, DistanceKey);
    assert forall q :: q in queries ==> q.keyword in keywords;
    SearchOutcome(geo, svc, Unfiltered, queries, keywords, extractEmails, DistanceKey);
    UnfilteredListings(geo, svc, queries);
  }

  /** Without a radius filter a kept place is a result exactly as the search returned it. */
  lemma UnfilteredListings(geo: Geo, svc: Services, queries: seq<Query>)
    ensures forall p :: p in Accepted(geo, Unfiltered, Stream(geo, svc, queries)) ==>
      p in Stream(geo, svc, queries) && p.distanceFromCenter.None?
  {
    var s := Stream(geo, svc, queries);
    StreamUnannotated(geo, svc, queries);
    forall p | p in Accepted(geo, Unfiltered, s) ensures p in s {
      AcceptedSound(geo, Unfiltered, s, p);
      var i :| 0 <= i < |s| && FirstAdmitted(geo, Unfiltered, s, i) && p == Annotate(geo, Unfiltered, s[i]);
      assert p == s[i];
    }
  }

  /** A search result carries no distance from a centre. */
  lemma StreamUnannotated(geo: Geo, svc: Services, queries: seq<Query>)
    ensures forall x :: x in Stream(geo, svc, queries) ==> x.distanceFromCenter.None?
  {
    StreamMembers(geo, svc, queries);
    forall x | x in Stream(geo, svc, queries) ensures x.distanceFromCenter.None? {
      var j :| 0 <= j < |queries| && FreshlyParsed(x, queries[j].keyword);
    }
  }
}

/** The string logic of `backend/email_extractor.py`: URL normalisation and validation, base-domain
    extraction, `mailto:` surgery, the address validator, the bounded crawl over a fixed path list
    and the final dedup/priority/top-5 filter. Fetching and HTML parsing are replaced by a
    `PageResult` per (site, path); the address regular expression by a predicate. */
module Emails {
  import opened Wrappers
  import opened Text

  /** Pages crawled per website unless the caller asks otherwise. */
  const DefaultMaxPages: int := 3

  /** Paths tried, in this order, relative to the site's URL. */
  const EmailPaths: seq<string> :=
    ["", "/contact", "/contact-us", "/about", "/about-us", "/support", "/help", "/info"]

  /** Substrings that disqualify an address (matched against the lower-cased address). */
  const InvalidPatterns: seq<string> :=
    ["example.com", "test.com", "dummy.com", "placeholder", "noreply", "no-reply", "donotreply",
     "admin@admin", "test@test", "user@user"]

  /** Providers the validator names as acceptable business domains. */
  const BusinessDomains: seq<string> :=
    ["gmail.com", "yahoo.com", "hotmail.com", "outlook.com",
     "naver.com", "daum.net", "hanmail.net", "kakao.com"]

  /** Providers whose addresses the final filter ranks first. */
  const PriorityDomains: seq<string> := ["gmail.com", "yahoo.com", "hotmail.com", "outlook.com"]

  /** At most this many addresses are returned per website. */
  const MaxEmails: nat := 5

  predicate NoDuplicates(s: seq<string>) {
    forall i, j :: 0 <= i < j < |s| ==> s[i] != s[j]
  }

  /** Some pattern of `patterns` occurs in `s`. */
  predicate ContainsAny(s: string, patterns: seq<string>) {
    exists k :: 0 <= k < |patterns| && Contains(s, patterns[k])
  }

  // ----- URLs -----

  predicate HasHttpScheme(url: string) {
    StartsWith(url, "http://") || StartsWith(url, "https://")
  }

  /** Prefix `https://` unless the URL already starts with `http://` or `https://`. */
  function NormalizeUrl(url: string): (r: string)
    ensures HasHttpScheme(r)
    ensures HasHttpScheme(url) ==> r == url
    ensures !HasHttpScheme(url) ==> r == "https://" + url
    ensures |url| <= |r| && r[|r| - |url|..] == url
  {
    if HasHttpScheme(url) then url else "https://" + url
  }

  /** What follows the `http://` or `https://` prefix (everything, for any other URL). */
  function AfterScheme(url: string): string {
    if StartsWith(url, "http://") then url[7..]
    else if StartsWith(url, "https://") then url[8..]
    else url
  }

  predicate IsDelimiter(c: char) {
    c == '/' || c == '?' || c == '#'
  }

  /** The authority: the text up to the first `/`, `?` or `#`. */
  function Authority(rest: string): (a: string)
    ensures |a| <= |rest| && a == rest[..|a|]
    ensures forall k :: 0 <= k < |a| ==> !IsDelimiter(a[k])
    ensures |a| < |rest| ==> IsDelimiter(rest[|a|])
  {
    if rest == [] || IsDelimiter(rest[0]) then [] else [rest[0]] + Authority(rest[1..])
  }

  /** Tab, carriage return and line feed: `urlsplit` deletes these wherever they occur in a URL
      before parsing it. */
  predicate IsUnsafeUrlChar(c: char) {
    c == '\t' || c == '\r' || c == '\n'
  }

  /** The URL as `urlsplit` parses it: every tab, CR and LF deleted, everything else kept in order. */
  function RemoveUnsafe(url: string): (r: string)
    ensures |r| <= |url|
    ensures forall c :: c in r <==> c in url && !IsUnsafeUrlChar(c)
  {
    if url == [] then []
    else
      var rest := RemoveUnsafe(url[1..]);
      assert forall c :: c in url <==> c == url[0] || c in url[1..];
      if IsUnsafeUrlChar(url[0]) then rest else [url[0]] + rest
  }

  lemma {:induction false} RemoveUnsafeConcat(a: string, b: string)
    ensures RemoveUnsafe(a + b) == RemoveUnsafe(a) + RemoveUnsafe(b)
    decreases |a|
  {
    if a == [] {
      assert a + b == b;
    } else {
      assert (a + b)[0] == a[0] && (a + b)[1..] == a[1..] + b;
      RemoveUnsafeConcat(a[1..], b);
    }
  }

  /** A URL without tab, CR or LF is parsed as written. */
  lemma {:induction false} RemoveUnsafeOfClean(url: string)
    requires forall k :: 0 <= k < |url| ==> !IsUnsafeUrlChar(url[k])
    ensures RemoveUnsafe(url) == url
    decreases |url|
  {
    if url != [] {
      RemoveUnsafeOfClean(url[1..]);
      assert url == [url[0]] + url[1..];
    }
  }

  /** Deleting the characters twice is deleting them once. */
  lemma RemoveUnsafeIdempotent(url: string)
    ensures RemoveUnsafe(RemoveUnsafe(url)) == RemoveUnsafe(url)
  {
    var r := RemoveUnsafe(url);
    forall k | 0 <= k < |r| ensures !IsUnsafeUrlChar(r[k]) {
      assert r[k] in r;
    }
    RemoveUnsafeOfClean(r);
  }

  /** The `http://` or `https://` prefix has none of the deleted characters, so it survives, and
      what follows it is filtered on its own. */
  lemma SchemeSurvives(url: string)
    requires HasHttpScheme(url)
    ensures HasHttpScheme(RemoveUnsafe(url))
    ensures AfterScheme(RemoveUnsafe(url)) == RemoveUnsafe(AfterScheme(url))
  {
    if StartsWith(url, "http://") {
      PrefixSurvives(url, "http://");
    } else {
      PrefixSurvives(url, "https://");
      var r := RemoveUnsafe(url);
      assert r[..8] == "https://";
      assert r[..7] != "http://" by { assert r[..7][4] == 's'; }
    }
  }

  /** A prefix free of the deleted characters is kept in front of the filtered remainder. */
  lemma PrefixSurvives(url: string, prefix: string)
    requires StartsWith(url, prefix)
    requires forall k :: 0 <= k < |prefix| ==> !IsUnsafeUrlChar(prefix[k])
    ensures RemoveUnsafe(url) == prefix + RemoveUnsafe(url[|prefix|..])
    ensures StartsWith(RemoveUnsafe(url), prefix)
    ensures RemoveUnsafe(url)[|prefix|..] == RemoveUnsafe(url[|prefix|..])
  {
    assert url == prefix + url[|prefix|..];
    RemoveUnsafeConcat(prefix, url[|prefix|..]);
    RemoveUnsafeOfClean(prefix);
  }

  /** A simplified `urlparse(url).netloc` for `http`/`https` URLs, taken after tab, CR and LF are
      deleted; other URLs have no host here. */
  function Netloc(url: string): (host: string)
    ensures |host| <= |url|
    ensures HasHttpScheme(RemoveUnsafe(url)) ==>
      var rest := AfterScheme(RemoveUnsafe(url));
      |host| <= |rest| && host == rest[..|host|] && (|host| < |rest| ==> IsDelimiter(rest[|host|]))
    ensures !HasHttpScheme(RemoveUnsafe(url)) ==> host == ""
    ensures forall k :: 0 <= k < |host| ==> !IsDelimiter(host[k]) && !IsUnsafeUrlChar(host[k])
  {
    var u := RemoveUnsafe(url);
    if HasHttpScheme(u) then
      var rest := AfterScheme(u);
      var a := Authority(rest);
      assert forall k :: 0 <= k < |a| ==> a[k] in u by {
        forall k | 0 <= k < |a| ensures a[k] in u {
          assert a[k] == rest[k];
          assert rest[k] in rest;
        }
      }
      a
    else ""
  }

  /** `_is_valid_url`: non-empty and, once normalised, with a non-empty host. Equivalently, once
      tab, CR and LF are deleted, the first character after the scheme exists and is not a path,
      query or fragment delimiter. */
  function IsValidUrl(url: string): (valid: bool)
    ensures valid ==> url != ""
    ensures valid <==>
      url != "" &&
      var rest := RemoveUnsafe(AfterScheme(NormalizeUrl(url)));
      |rest| > 0 && !IsDelimiter(rest[0])
  {
    if url == "" then false
    else
      SchemeSurvives(NormalizeUrl(url));
      Netloc(NormalizeUrl(url)) != ""
  }

  /** A website of a single line feed becomes `https://` followed by nothing once the line feed
      is deleted, so it has no host and is not crawled. */
  lemma LineFeedUrlInvalid()
    ensures !IsValidUrl("\n")
  {
    var lf := "\n";
    assert !HasHttpScheme(lf);
    assert NormalizeUrl(lf) == "https://" + lf;
    assert ("https://" + lf)[..7] != "http://" by { assert ("https://" + lf)[4] == 's'; }
    assert AfterScheme(NormalizeUrl(lf)) == lf;
    assert lf[1..] == [];
    assert RemoveUnsafe(lf) == RemoveUnsafe(lf[1..]);
  }

  /** `_get_base_domain`: the lower-cased host with one leading `www.` removed. */
  function BaseDomain(url: string): (d: string)
    ensures HasNoUpper(d)
    ensures Lower(Netloc(url)) == d || Lower(Netloc(url)) == "www." + d
    ensures StartsWith(Lower(Netloc(url)), "www.") <==> Lower(Netloc(url)) == "www." + d
  {
    var host := Lower(Netloc(url));
    LowerHasNoUpper(Netloc(url));
    if StartsWith(host, "www.") then
      assert host == "www." + host[4..];
      host[4..]
    else host
  }

  /** A tab, CR or LF anywhere in a URL leaves its base domain as if it were not there:
      `https://ex` + tab + `ample.com` has the base domain of `https://example.com`. */
  lemma BaseDomainSkipsUnsafe(a: string, c: char, b: string)
    requires IsUnsafeUrlChar(c)
    ensures BaseDomain(a + [c] + b) == BaseDomain(a + b)
  {
    RemoveUnsafeSkips(a, c, b);
  }

  lemma RemoveUnsafeSkips(a: string, c: char, b: string)
    requires IsUnsafeUrlChar(c)
    ensures RemoveUnsafe(a + [c] + b) == RemoveUnsafe(a + b)
  {
    calc {
      RemoveUnsafe(a + [c] + b);
      { RemoveUnsafeConcat(a + [c], b); }
      RemoveUnsafe(a + [c]) + RemoveUnsafe(b);
      { RemoveUnsafeConcat(a, [c]); RemoveUnsafeDeletes(c); }
      RemoveUnsafe(a) + RemoveUnsafe(b);
      { RemoveUnsafeConcat(a, b); }
      RemoveUnsafe(a + b);
    }
  }

  lemma RemoveUnsafeDeletes(c: char)
    requires IsUnsafeUrlChar(c)
    ensures RemoveUnsafe([c]) == []
  {
    assert [c][1..] == [];
  }

  // ----- mailto links -----

  const MailtoScheme: string := "mailto:"

  /** The address of a `mailto:` link: every `mailto:` removed, then everything from the first `?`
      on dropped. */
  function MailtoAddress(href: string): (addr: string)
    ensures '?' !in addr
    ensures |addr| <= |href|
  {
    var stripped := RemoveAll(href, MailtoScheme);
    var parts := Split(stripped, '?');
    assert |parts[0]| <= |stripped|;
    parts[0]
  }

  /** Round trip: a link built as `mailto:` + address (+ `?` + query) gives back the address,
      provided the address has no `?` and no embedded `mailto:`. */
  lemma MailtoRoundTrip(addr: string, query: string)
    requires '?' !in addr && !Contains(addr, MailtoScheme)
    ensures MailtoAddress(MailtoScheme + addr) == addr
    ensures MailtoAddress(MailtoScheme + addr + "?" + query) == addr
  {
    MailtoPlain(addr);
    MailtoWithQuery(addr, query);
  }

  lemma MailtoPlain(addr: string)
    requires '?' !in addr && !Contains(addr, MailtoScheme)
    ensures MailtoAddress(MailtoScheme + addr) == addr
  {
    RemoveAllSkipsPrefix(MailtoScheme, addr);
    RemoveAllKeepsClean(addr, "");
    assert addr + "" == addr;
    assert RemoveAll("", MailtoScheme) == "";
    assert Split(addr, '?') == [addr];
  }

  lemma MailtoWithQuery(addr: string, query: string)
    requires '?' !in addr && !Contains(addr, MailtoScheme)
    ensures MailtoAddress(MailtoScheme + addr + "?" + query) == addr
  {
    var t := "?" + query;
    assert MailtoScheme + addr + "?" + query == MailtoScheme + (addr + t);
    RemoveAllSkipsPrefix(MailtoScheme, addr + t);
    RemoveAllKeepsClean(addr, t);
    var rest := RemoveAll(t, MailtoScheme);
    RemoveAllKeepsQuestion(query);
    var s := addr + rest;
    assert s[|addr|] == '?';
    IndexOfPastClean(addr, rest);
    assert s[..|addr|] == addr;
  }

  /** A leading `?` is never part of a `mailto:`, so the scan keeps it. */
  lemma RemoveAllKeepsQuestion(query: string)
    ensures var rest := RemoveAll("?" + query, MailtoScheme); |rest| > 0 && rest[0] == '?'
  {
    var t := "?" + query;
    if |t| >= |MailtoScheme| {
      assert t[..|MailtoScheme|][0] == '?';
      assert RemoveAll(t, MailtoScheme) == [t[0]] + RemoveAll(t[1..], MailtoScheme);
    }
  }

  lemma {:induction false} IndexOfPastClean(a: string, rest: string)
    requires '?' !in a && |rest| > 0 && rest[0] == '?'
    ensures IndexOf(a + rest, '?') == |a|
  {
    if a != [] {
      assert (a + rest)[1..] == a[1..] + rest;
      IndexOfPastClean(a[1..], rest);
    }
  }

  lemma RemoveAllSkipsPrefix(pattern: string, s: string)
    requires |pattern| > 0
    ensures RemoveAll(pattern + s, pattern) == RemoveAll(s, pattern)
  {
    assert (pattern + s)[..|pattern|] == pattern;
    assert (pattern + s)[|pattern|..] == s;
  }

  /** Scanning an address free of `mailto:` copies it unchanged, as long as what follows starts
      with `?` (which `mailto:` does not contain) or is empty. */
  lemma {:induction false} RemoveAllKeepsClean(a: string, t: string)
    requires !Contains(a, MailtoScheme)
    requires t == "" || t[0] == '?'
    ensures RemoveAll(a + t, MailtoScheme) == a + RemoveAll(t, MailtoScheme)
    decreases |a|
  {
    var s := a + t;
    if a != [] {
      assert s[1..] == a[1..] + t;
      RemoveAllKeepsClean(a[1..], t);
      if |s| >= |MailtoScheme| {
        CleanHeadIsNotScheme(a, t);
        assert RemoveAll(s, MailtoScheme) == [s[0]] + RemoveAll(s[1..], MailtoScheme);
        ConsOntoTail(a, RemoveAll(t, MailtoScheme));
      } else {
        assert RemoveAll(t, MailtoScheme) == t;
        assert RemoveAll(s, MailtoScheme) == s;
      }
    } else {
      assert s == t;
    }
  }

  lemma ConsOntoTail<T>(a: seq<T>, x: seq<T>)
    requires a != []
    ensures [a[0]] + (a[1..] + x) == a + x
  {
  }

  /** The scan does not match `mailto:` at the head of a clean address. */
  lemma CleanHeadIsNotScheme(a: string, t: string)
    requires a != [] && !StartsWith(a, MailtoScheme)
    requires t == "" || t[0] == '?'
    requires |a + t| >= |MailtoScheme|
    ensures (a + t)[..|MailtoScheme|] != MailtoScheme
  {
    var s := a + t;
    var n := |MailtoScheme|;
    if |a| >= n {
      assert s[..n] == a[..n];
    } else {
      assert s[..n][|a|] == '?';
      assert MailtoScheme[|a|] != '?';
    }
  }

  // ----- validation -----

  /** `email.split('@')[1]`: the text between the first and the second `@`. */
  function Domain(email: string): (d: string)
    requires '@' in email
    ensures var rest := email[IndexOf(email, '@') + 1..];
      d == if '@' in rest then rest[..IndexOf(rest, '@')] else rest
  {
    var i := IndexOf(email, '@');
    assert Split(email, '@') == [email[..i]] + Split(email[i + 1..], '@');
    Split(email, '@')[1]
  }

  /** Both share the second-to-last label of the base domain. */
  predicate SharesCompanyLabel(baseDomain: string, domain: string) {
    var baseParts := Split(baseDomain, '.');
    var emailParts := Split(domain, '.');
    |baseParts| >= 2 && |emailParts| >= 2 && baseParts[|baseParts| - 2] in emailParts
  }

  /** `_is_valid_email`. Only the first two checks can reject: past the denylist every branch,
      including the default one, accepts. */
  function IsValidEmail(email: string, baseDomain: string): (valid: bool)
    ensures valid <==> email != "" && '@' in email && !ContainsAny(Lower(email), InvalidPatterns)
  {
    if email == "" || '@' !in email then false
    else if ContainsAny(Lower(email), InvalidPatterns) then false
    else
      var domain := Lower(Domain(email));
      if baseDomain != "" && Contains(baseDomain, domain) then true
      else if domain in BusinessDomains then true
      else if baseDomain != "" && SharesCompanyLabel(baseDomain, domain) then true
      else true
  }

  /** `email.lower().strip()`. */
  function Normalize(email: string): string {
    Strip(Lower(email))
  }

  lemma NormalizeIdempotent(email: string)
    ensures Normalize(Normalize(email)) == Normalize(email)
  {
    var t := Normalize(email);
    LowerHasNoUpper(email);
    StripOfNoUpper(Lower(email));
    LowerOfLowerCase(t);
    StripOfStripped(t);
  }

  /** Lower-casing and stripping neither add nor remove an `@`. */
  lemma NormalizeKeepsAt(email: string)
    ensures '@' in Normalize(email) <==> '@' in email
  {
    if '@' in email {
      var i :| 0 <= i < |email| && email[i] == '@';
      assert Lower(email)[i] == '@';
      StripKeepsNonSpace(Lower(email), '@');
    }
    if '@' in Normalize(email) {
      StripKeepsOnlyInputChars(Lower(email), '@');
      var i :| 0 <= i < |email| && Lower(email)[i] == '@';
      assert email[i] == '@';
    }
  }

  // ----- one page -----

  /** What one page yields: the regular-expression matches found in its visible text and the
      `href` of each of its anchors; or nothing, when the request or the parsing failed. */
  datatype PageResult = Fetched(textMatches: seq<string>, anchorHrefs: seq<string>) | FetchFailed

  /** The `mailto:` links whose address matches the address pattern (`pattern` stands for
      `email_pattern.match`), as addresses, in document order. */
  function MailtoCandidates(hrefs: seq<string>, pattern: string -> bool): (r: seq<string>)
    ensures forall e :: e in r ==> pattern(e) && exists h :: h in hrefs && StartsWith(h, MailtoScheme) && e == MailtoAddress(h)
    ensures forall h :: h in hrefs && StartsWith(h, MailtoScheme) && pattern(MailtoAddress(h)) ==> MailtoAddress(h) in r
  {
    if hrefs == [] then []
    else
      var h := hrefs[0];
      var rest := MailtoCandidates(hrefs[1..], pattern);
      assert forall x :: x in hrefs ==> x == h || x in hrefs[1..];
      if StartsWith(h, MailtoScheme) && pattern(MailtoAddress(h)) then [MailtoAddress(h)] + rest else rest
  }

  /** Every raw candidate of a fetched page: text matches first, then mailto addresses. */
  function Candidates(page: PageResult, pattern: string -> bool): seq<string>
    requires page.Fetched?
  {
    page.textMatches + MailtoCandidates(page.anchorHrefs, pattern)
  }

  /** Insert each element of `es` that `keep` accepts into `acc` (a set kept in first-insertion
      order). */
  function AddAccepted(acc: seq<string>, es: seq<string>, keep: string -> bool): seq<string>
    decreases |es|
  {
    if es == [] then acc
    else AddAccepted(if keep(es[0]) && es[0] !in acc then acc + [es[0]] else acc, es[1..], keep)
  }

  /** `AddAccepted` adds exactly the accepted elements, each once. */
  lemma {:induction false} AddAcceptedContents(acc: seq<string>, es: seq<string>, keep: string -> bool)
    ensures NoDuplicates(acc) ==> NoDuplicates(AddAccepted(acc, es, keep))
    ensures forall e :: e in AddAccepted(acc, es, keep) <==> e in acc || (e in es && keep(e))
    decreases |es|
  {
    if es != [] {
      AddAcceptedContents(if keep(es[0]) && es[0] !in acc then acc + [es[0]] else acc, es[1..], keep);
      assert forall x :: x in es ==> x == es[0] || x in es[1..];
    }
  }

  /** `_extract_emails_from_page`: the lower-cased, stripped candidates the validator accepts.
      A failed fetch is swallowed and yields no address. */
  function PageEmails(page: PageResult, baseDomain: string, pattern: string -> bool): (r: seq<string>)
    ensures page.FetchFailed? ==> r == []
    ensures NoDuplicates(r)
    ensures forall e :: e in r <==>
      page.Fetched? && e in NormalizeAll(Candidates(page, pattern)) && IsValidEmail(e, baseDomain)
    ensures forall e :: e in r ==> Normalize(e) == e
  {
    match page
    case FetchFailed => []
    case Fetched(_, _) =>
      var normalized := NormalizeAll(Candidates(page, pattern));
      var keep := e => IsValidEmail(e, baseDomain);
      AddAcceptedContents([], normalized, keep);
      NormalizeAllIdempotent(Candidates(page, pattern));
      AddAccepted([], normalized, keep)
  }

  lemma NormalizeAllIdempotent(emails: seq<string>)
    ensures forall e :: e in NormalizeAll(emails) ==> Normalize(e) == e
  {
    forall e | e in NormalizeAll(emails) ensures Normalize(e) == e {
      var i :| 0 <= i < |emails| && NormalizeAll(emails)[i] == e;
      NormalizeIdempotent(emails[i]);
    }
  }

  /** `emails.update(more)`: add the elements of `more` not yet present, keeping first-insertion order. */
  function Union(acc: seq<string>, more: seq<string>): seq<string>
    decreases |more|
  {
    if more == [] then acc
    else Union(if more[0] in acc then acc else acc + [more[0]], more[1..])
  }

  /** Union adds what is missing and nothing else, and never duplicates. */
  lemma {:induction false} UnionContents(acc: seq<string>, more: seq<string>)
    ensures NoDuplicates(acc) ==> NoDuplicates(Union(acc, more))
    ensures forall e :: e in Union(acc, more) <==> e in acc || e in more
    decreases |more|
  {
    if more != [] {
      UnionContents(if more[0] in acc then acc else acc + [more[0]], more[1..]);
      assert forall x :: x in more ==> x == more[0] || x in more[1..];
    }
  }

  // ----- the crawl -----

  /** The outcome of a crawl: the addresses collected and the paths that were requested, in order. */
  datatype Crawl = Crawl(emails: seq<string>, fetched: seq<string>)

  /** How many of `count` paths a budget of `budget` pages admits. */
  function PageBudget(count: nat, budget: int): (n: nat)
    ensures n <= count
  {
    if budget <= 0 then 0 else if budget < count then budget else count
  }

  /** The addresses accepted on the page at `path` of `site`. */
  function Visit(site: string, baseDomain: string, web: (string, string) -> PageResult,
                 pattern: string -> bool): string -> seq<string>
  {
    path => PageEmails(web(site, path), baseDomain, pattern)
  }

  /** Everything `visit` yields on `paths`, path by path. */
  function Harvest(paths: seq<string>, visit: string -> seq<string>): seq<string> {
    if paths == [] then [] else visit(paths[0]) + Harvest(paths[1..], visit)
  }

  /** The path loop of `extract_emails_from_website`: stop once `maxPages` pages have been
      requested; every request counts, whether or not the page could be fetched. */
  function CrawlPaths(paths: seq<string>, crawled: int, maxPages: int, found: seq<string>,
                      visit: string -> seq<string>): (c: Crawl)
    decreases |paths|
    ensures |c.fetched| <= |paths| && c.fetched == paths[..|c.fetched|]
    ensures crawled >= maxPages ==> c == Crawl(found, [])
    ensures crawled < maxPages && paths != [] ==> c.fetched != [] && c.fetched[0] == paths[0]
  {
    if paths == [] || crawled >= maxPages then Crawl(found, [])
    else
      var rest := CrawlPaths(paths[1..], crawled + 1, maxPages, Union(found, visit(paths[0])), visit);
      Crawl(rest.emails, [paths[0]] + rest.fetched)
  }

  /** The crawl requests the paths in order until the budget is spent, failed pages included. */
  lemma {:induction false} CrawlFetched(paths: seq<string>, crawled: int, maxPages: int, found: seq<string>,
                                        visit: string -> seq<string>)
    ensures CrawlPaths(paths, crawled, maxPages, found, visit).fetched == paths[..PageBudget(|paths|, maxPages - crawled)]
    decreases |paths|
  {
    if paths != [] && crawled < maxPages {
      CrawlFetched(paths[1..], crawled + 1, maxPages, Union(found, visit(paths[0])), visit);
      var n := PageBudget(|paths|, maxPages - crawled);
      assert n == PageBudget(|paths[1..]|, maxPages - (crawled + 1)) + 1;
      assert paths[..n] == [paths[0]] + paths[1..][..n - 1];
    }
  }

  /** The crawl collects exactly what was already found plus what the requested pages yield,
      each once. */
  lemma {:induction false} CrawlContents(paths: seq<string>, crawled: int, maxPages: int, found: seq<string>,
                                         visit: string -> seq<string>)
    ensures var c := CrawlPaths(paths, crawled, maxPages, found, visit);
      && (NoDuplicates(found) ==> NoDuplicates(c.emails))
      && (forall e :: e in c.emails <==> e in found || e in Harvest(c.fetched, visit))
    decreases |paths|
  {
    if paths != [] && crawled < maxPages {
      var next := Union(found, visit(paths[0]));
      UnionContents(found, visit(paths[0]));
      CrawlContents(paths[1..], crawled + 1, maxPages, next, visit);
      var rest := CrawlPaths(paths[1..], crawled + 1, maxPages, next, visit);
      assert ([paths[0]] + rest.fetched)[1..] == rest.fetched;
    }
  }

  // ----- the final filter -----

  function NormalizeAll(emails: seq<string>): (r: seq<string>)
    ensures |r| == |emails|
    ensures forall i :: 0 <= i < |emails| ==> r[i] == Normalize(emails[i])
  {
    seq(|emails|, i requires 0 <= i < |emails| => Normalize(emails[i]))
  }

  /** The ranking key of `_filter_emails`: the domain contains one of the priority providers. */
  predicate IsPriority(email: string) {
    '@' in email && ContainsAny(Lower(Domain(email)), PriorityDomains)
  }

  /** The addresses of `u` whose priority is `priority`, in their order in `u`. */
  function Select(u: seq<string>, priority: bool): (r: seq<string>)
    ensures |r| <= |u|
    ensures forall e :: e in r <==> e in u && IsPriority(e) == priority
    ensures NoDuplicates(u) ==> NoDuplicates(r)
  {
    if u == [] then []
    else
      var rest := Select(u[1..], priority);
      assert forall x :: x in u ==> x == u[0] || x in u[1..];
      if IsPriority(u[0]) == priority then [u[0]] + rest else rest
  }

  /** A stable sort on the priority key, highest first: priority addresses, then the others. */
  function RankByPriority(u: seq<string>): seq<string> {
    Select(u, true) + Select(u, false)
  }

  /** At most `MaxEmails` leading elements. */
  function Top(ranked: seq<string>): (r: seq<string>)
    ensures |r| <= MaxEmails && |r| <= |ranked| && r == ranked[..|r|]
    ensures |r| < MaxEmails ==> r == ranked
  {
    if |ranked| <= MaxEmails then ranked else ranked[..MaxEmails]
  }

  /** Raised by `_filter_emails` when a (normalised) address has no `@` to split on. */
  datatype FilterError = IndexError

  /** `_filter_emails`: normalise, deduplicate, put the priority providers first and keep five.
      The order inside each priority class follows the input's (for the source, the arbitrary
      iteration order of a set); nothing below depends on it. */
  function FilterEmails(emails: seq<string>): (r: Result<seq<string>, FilterError>)
    ensures emails == [] ==> r == Ok([])
    ensures r.Err? <==> exists i :: 0 <= i < |emails| && '@' !in emails[i]
    ensures r.Ok? ==> NoDuplicates(r.value) && |r.value| <= MaxEmails
    ensures r.Ok? ==> forall e :: e in r.value ==> e in NormalizeAll(emails)
    ensures r.Ok? ==> forall a, b :: 0 <= a < b < |r.value| && IsPriority(r.value[b]) ==> IsPriority(r.value[a])
    ensures r.Ok? ==> forall e :: e in NormalizeAll(emails) && e !in r.value ==>
      && |r.value| == MaxEmails
      && (IsPriority(e) ==> forall x :: x in r.value ==> IsPriority(x))
  {
    if |emails| == 0 then Ok([])
    else
      var normalized := NormalizeAll(emails);
      var unique := Union([], normalized);
      UnionContents([], normalized);
      AtSurvivesNormalize(emails);
      if !forall e :: e in unique ==> '@' in e then Err(IndexError)
      else
        RankAndCut(unique);
        Ok(Top(RankByPriority(unique)))
  }

  /** Ranking then truncating a duplicate-free list keeps at most five of its addresses, each
      once, priority first; whatever is cut implies a full, and for a priority address an
      all-priority, result. */
  lemma RankAndCut(u: seq<string>)
    requires NoDuplicates(u)
    ensures var top := Top(RankByPriority(u));
      && NoDuplicates(top) && |top| <= MaxEmails
      && (forall e :: e in top ==> e in u)
      && (forall a, b :: 0 <= a < b < |top| && IsPriority(top[b]) ==> IsPriority(top[a]))
      && (forall e :: e in u && e !in top ==>
            |top| == MaxEmails && (IsPriority(e) ==> forall x :: x in top ==> IsPriority(x)))
  {
    RankedProperties(u);
    TopProperties(u, RankByPriority(u));
  }

  /** Every deduplicated address has an `@` exactly when every input does. */
  lemma AtSurvivesNormalize(emails: seq<string>)
    ensures (forall e :: e in Union([], NormalizeAll(emails)) ==> '@' in e)
        <==> (forall i :: 0 <= i < |emails| ==> '@' in emails[i])
  {
    var normalized := NormalizeAll(emails);
    forall i | 0 <= i < |emails| ensures '@' in normalized[i] <==> '@' in emails[i] {
      NormalizeKeepsAt(emails[i]);
    }
    AtSurvivesUnion(normalized, emails);
  }

  lemma AtSurvivesUnion(xs: seq<string>, ys: seq<string>)
    requires |xs| == |ys|
    requires forall i :: 0 <= i < |xs| ==> ('@' in xs[i] <==> '@' in ys[i])
    ensures (forall e :: e in Union([], xs) ==> '@' in e) <==> (forall i :: 0 <= i < |ys| ==> '@' in ys[i])
  {
    UnionContents([], xs);
    if forall e :: e in Union([], xs) ==> '@' in e {
      forall i | 0 <= i < |ys| ensures '@' in ys[i] {
        assert xs[i] in xs;
      }
    }
    if forall i :: 0 <= i < |ys| ==> '@' in ys[i] {
      forall e | e in Union([], xs) ensures '@' in e {
        var i :| 0 <= i < |xs| && xs[i] == e;
      }
    }
  }

  /** Ranking keeps every address once and puts each priority address before every other one. */
  lemma RankedProperties(u: seq<string>)
    requires NoDuplicates(u)
    ensures var ranked := RankByPriority(u);
      && NoDuplicates(ranked)
      && (forall e :: e in ranked <==> e in u)
      && (forall k :: 0 <= k < |ranked| && IsPriority(ranked[k]) ==> k < |Select(u, true)|)
      && (forall k :: 0 <= k < |Select(u, true)| ==> IsPriority(ranked[k]))
  {
    var p := Select(u, true);
    var o := Select(u, false);
    var ranked := p + o;
    forall a, b | 0 <= a < b < |ranked| ensures ranked[a] != ranked[b] {
      if b < |p| {
      } else if a >= |p| {
        assert ranked[a] == o[a - |p|] && ranked[b] == o[b - |p|];
      } else {
        assert ranked[a] in p && ranked[b] in o;
      }
    }
    forall k | 0 <= k < |ranked| ensures IsPriority(ranked[k]) <==> k < |p| {
      assert ranked[k] in p || ranked[k] in o;
      if k < |p| {
        assert ranked[k] in p;
      } else {
        assert ranked[k] == o[k - |p|];
      }
    }
  }

  /** Truncating the ranking keeps its order; whatever is cut implies a full, and, for a priority
      address, an all-priority, result. */
  lemma TopProperties(u: seq<string>, ranked: seq<string>)
    requires ranked == RankByPriority(u)
    requires NoDuplicates(ranked)
    requires forall k :: 0 <= k < |ranked| && IsPriority(ranked[k]) ==> k < |Select(u, true)|
    requires forall k :: 0 <= k < |Select(u, true)| ==> IsPriority(ranked[k])
    ensures var top := Top(ranked);
      && NoDuplicates(top)
      && (forall e :: e in top ==> e in ranked)
      && (forall a, b :: 0 <= a < b < |top| && IsPriority(top[b]) ==> IsPriority(top[a]))
      && (forall e :: e in ranked && e !in top ==>
            |top| == MaxEmails && (IsPriority(e) ==> forall x :: x in top ==> IsPriority(x)))
  {
    var top := Top(ranked);
    forall e | e in ranked && e !in top
      ensures |top| == MaxEmails && (IsPriority(e) ==> forall x :: x in top ==> IsPriority(x))
    {
      var k :| 0 <= k < |ranked| && ranked[k] == e;
      assert k >= |top|;
      if IsPriority(e) {
        forall x | x in top ensures IsPriority(x) {
          var j :| 0 <= j < |top| && top[j] == x;
          assert ranked[j] == x;
        }
      }
    }
  }

  // ----- the whole extraction -----

  /** What the pages of `paths` yield is normalised, valid and carries an `@`. */
  lemma {:induction false} HarvestAccepted(site: string, baseDomain: string, paths: seq<string>,
                                           web: (string, string) -> PageResult, pattern: string -> bool)
    ensures forall e :: e in Harvest(paths, Visit(site, baseDomain, web, pattern)) ==>
      IsValidEmail(e, baseDomain) && Normalize(e) == e && '@' in e
    decreases |paths|
  {
    if paths != [] {
      HarvestAccepted(site, baseDomain, paths[1..], web, pattern);
      assert Visit(site, baseDomain, web, pattern)(paths[0]) == PageEmails(web(site, paths[0]), baseDomain, pattern);
    }
  }

  /** Normalising addresses that are already normalised changes none of them. */
  lemma NormalizeAllOfNormalized(emails: seq<string>)
    requires forall e :: e in emails ==> Normalize(e) == e
    ensures forall e :: e in NormalizeAll(emails) <==> e in emails
  {
    forall e ensures e in NormalizeAll(emails) <==> e in emails {
      if e in emails {
        var i :| 0 <= i < |emails| && emails[i] == e;
        assert NormalizeAll(emails)[i] == e;
      }
    }
  }

  /** On addresses that are already normalised and carry an `@`, the filter succeeds and keeps or
      drops input addresses only. */
  lemma FilterNormalized(emails: seq<string>)
    requires forall e :: e in emails ==> Normalize(e) == e && '@' in e
    ensures var r := FilterEmails(emails);
      && r.Ok?
      && (forall e :: e in r.value ==> e in emails)
      && (forall e :: e in emails && e !in r.value ==>
            |r.value| == MaxEmails && (IsPriority(e) ==> forall x :: x in r.value ==> IsPriority(x)))
  {
    NormalizeAllOfNormalized(emails);
    forall i | 0 <= i < |emails| ensures '@' in emails[i] {
      assert emails[i] in emails;
    }
  }

  /** `extract_emails_from_website` with `max_pages` = `maxPages`: validate the URL, add a scheme,
      crawl the paths in order, then filter. The result's `fetched` records the paths requested. */
  function ExtractEmailsFromWebsite(url: string, maxPages: int,
                                    web: (string, string) -> PageResult, pattern: string -> bool)
    : (c: Crawl)
    ensures !IsValidUrl(url) ==> c == Crawl([], [])
    ensures IsValidUrl(url) ==> c.fetched == EmailPaths[..PageBudget(|EmailPaths|, maxPages)]
    ensures NoDuplicates(c.emails) && |c.emails| <= MaxEmails
    ensures forall e :: e in c.emails ==>
      IsValidEmail(e, BaseDomain(NormalizeUrl(url))) && Normalize(e) == e
    ensures forall e :: e in c.emails ==> e in Harvest(c.fetched, SiteVisit(url, web, pattern))
    ensures forall e :: e in Harvest(c.fetched, SiteVisit(url, web, pattern)) && e !in c.emails ==>
      && |c.emails| == MaxEmails
      && (IsPriority(e) ==> forall x :: x in c.emails ==> IsPriority(x))
    ensures forall a, b :: 0 <= a < b < |c.emails| && IsPriority(c.emails[b]) ==> IsPriority(c.emails[a])
  {
    if !IsValidUrl(url) then Crawl([], []) else CrawlSite(url, maxPages, web, pattern)
  }

  /** The crawl and filter of `extract_emails_from_website` once the URL has passed validation:
      the budgeted paths in order, then dedup, priority ranking and the top five. */
  function CrawlSite(url: string, maxPages: int, web: (string, string) -> PageResult, pattern: string -> bool)
    : (c: Crawl)
    ensures c.fetched == EmailPaths[..PageBudget(|EmailPaths|, maxPages)]
    ensures NoDuplicates(c.emails) && |c.emails| <= MaxEmails
    ensures forall e :: e in c.emails ==>
      IsValidEmail(e, BaseDomain(NormalizeUrl(url))) && Normalize(e) == e
    ensures forall e :: e in c.emails ==> e in Harvest(c.fetched, SiteVisit(url, web, pattern))
    ensures forall e :: e in Harvest(c.fetched, SiteVisit(url, web, pattern)) && e !in c.emails ==>
      && |c.emails| == MaxEmails
      && (IsPriority(e) ==> forall x :: x in c.emails ==> IsPriority(x))
    ensures forall a, b :: 0 <= a < b < |c.emails| && IsPriority(c.emails[b]) ==> IsPriority(c.emails[a])
  {
    var visit := SiteVisit(url, web, pattern);
    var crawl := CrawlPaths(EmailPaths, 0, maxPages, [], visit);
    CrawlContents(EmailPaths, 0, maxPages, [], visit);
    CrawlFetched(EmailPaths, 0, maxPages, [], visit);
    HarvestAccepted(NormalizeUrl(url), BaseDomain(NormalizeUrl(url)), crawl.fetched, web, pattern);
    FilterNormalized(crawl.emails);
    var filtered := FilterEmails(crawl.emails);
    Crawl(filtered.value, crawl.fetched)
  }

  /** The pages of a website: its URL with a scheme added, validated against its own domain. */
  function SiteVisit(url: string, web: (string, string) -> PageResult, pattern: string -> bool)
    : string -> seq<string>
  {
    var site := NormalizeUrl(url);
    Visit(site, BaseDomain(site), web, pattern)
  }
}

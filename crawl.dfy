/** `crawl_links` (backend/scraper.py): a depth-first crawl from one start
    page that collects product links, with the depth checked on entry to each
    visit and a visited set that keeps any page from being fetched twice. */
module Crawl {
  import opened Exceptions
  import opened Links

  predicate NoDuplicates(s: seq<string>) {
    forall i, j :: 0 <= i < j < |s| ==> s[i] != s[j]
  }

  /** How one call of `recurse(url, ...)` may change the crawl state, from
      visited `v0`, results `r0` and fetch log `f0` to `v1`, `r1`, `f1`:
      everything only grows; `url` and the pages visited before never become
      results; every page newly visited other than `url` is a result (it may
      have been one already, found earlier past the depth bound); and every
      new result is a link of a page newly visited. */
  ghost predicate Extends(web: Web, url: string,
                          v0: set<string>, r0: set<string>, f0: seq<string>,
                          v1: set<string>, r1: set<string>, f1: seq<string>)
  {
    && v0 <= v1 && r0 <= r1
    && |f0| <= |f1| && f1[..|f0|] == f0
    && (r1 - r0) !! (v0 + {url})
    && v1 - v0 <= r1 + {url}
    && forall x :: x in r1 - r0 ==> exists v :: v in v1 - v0 && LinksTo(web, v, x)
  }

  /** Every page in `pages` was fetched and each of its links is a result or
      visited. */
  ghost predicate Closed(web: Web, pages: set<string>, results: set<string>, visited: set<string>) {
    forall p :: p in pages ==>
      PageLinks(web, p).Ok? && forall l :: l in PageLinks(web, p).value ==> l in results || l in visited
  }

  lemma ExtendsRefl(web: Web, url: string, v: set<string>, r: set<string>, f: seq<string>)
    ensures Extends(web, url, v, r, f, v, r, f)
  {
    assert f[..|f|] == f;
  }

  /** Visiting `url`: it joins the visited set and the fetch log. */
  lemma ExtendsByVisit(web: Web, url: string, v: set<string>, r: set<string>, f: seq<string>)
    requires url !in v
    ensures Extends(web, url, v, r, f, v + {url}, r, f + [url])
  {
    assert (f + [url])[..|f|] == f;
  }

  /** Following `link`, a link of the newly visited `url` not visited yet:
      `link` becomes a result, then the nested call extends the state. The
      whole is still an extension for `url`. */
  lemma ExtendsThroughChild(web: Web, url: string, link: string,
                            v0: set<string>, r0: set<string>, f0: seq<string>,
                            v1: set<string>, r1: set<string>, f1: seq<string>,
                            v2: set<string>, r2: set<string>, f2: seq<string>)
    requires Extends(web, url, v0, r0, f0, v1, r1, f1)
    requires url in v1 - v0 && link !in v1 && LinksTo(web, url, link)
    requires Extends(web, link, v1, r1 + {link}, f1, v2, r2, f2)
    ensures Extends(web, url, v0, r0, f0, v2, r2, f2)
  {
    assert f2[..|f0|] == f1[..|f0|];
    assert v1 - v0 <= r1 + {url};
    assert v2 - v1 <= r2 + {link};
    assert r1 + {link} <= r2;
    forall v | v in v2 - v0 ensures v in r2 + {url} {
      if v in v1 {
        assert v in r1 + {url};
      } else {
        assert v in v2 - v1;
        assert v in r2 + {link};
      }
    }
    forall x | x in r2 - r0 ensures exists v :: v in v2 - v0 && LinksTo(web, v, x) {
      if x in r1 - r0 {
        var v :| v in v1 - v0 && LinksTo(web, v, x);
        assert v in v2 - v0;
      } else if x == link {
        assert url in v2 - v0;
      } else {
        assert x in r2 - (r1 + {link});
        var v :| v in v2 - v1 && LinksTo(web, v, x);
        assert v in v2 - v0;
      }
    }
  }

  /** A crawl that starts from nothing: the start page is no result, every
      other page visited is one, and every result is a link of a visited page. */
  lemma ExtendsFromNothing(web: Web, url: string, v: set<string>, r: set<string>, f: seq<string>)
    requires Extends(web, url, {}, {}, [], v, r, f)
    ensures url !in r
    ensures v <= r + {url}
    ensures forall x :: x in r ==> exists p :: p in v && LinksTo(web, p, x)
  {
    assert r - {} == r && v - {} == v;
  }

  /** What was closed stays closed as the sets grow, and the pages closed by
      a nested call join them. */
  lemma ClosedAfterChild(web: Web, url: string, v0: set<string>,
                         v1: set<string>, r1: set<string>,
                         v2: set<string>, r2: set<string>)
    requires Closed(web, v1 - v0 - {url}, r1, v1)
    requires v1 <= v2 && r1 <= r2
    requires Closed(web, v2 - v1, r2, v2)
    ensures Closed(web, v2 - v0 - {url}, r2, v2)
  {
  }

  /** The last page fetched is the one whose fetch raised `message`. */
  ghost predicate FailedLast(web: Web, fetched: seq<string>, message: string) {
    |fetched| > 0 && PageLinks(web, fetched[|fetched| - 1]) == Raised(message)
  }

  /** The page `url` was fetched and each of its links was visited in turn. */
  ghost predicate Descended(web: Web, url: string, visited: set<string>) {
    PageLinks(web, url).Ok? && forall l :: l in PageLinks(web, url).value ==> l in visited
  }

  /** Closing the page `url` itself, once each of its links is a result or
      visited. */
  lemma ClosedWithPage(web: Web, url: string, v0: set<string>, r: set<string>, v: set<string>)
    requires Closed(web, v - v0 - {url}, r, v)
    requires PageLinks(web, url).Ok? && forall l :: l in PageLinks(web, url).value ==> l in r || l in v
    ensures Closed(web, v - v0, r, v)
  {
  }

  /** Every page visited since `v0` has a level between `depth` and
      `maxDepth`, and every one but `url` is one level below a visited page
      that links to it. */
  ghost predicate Levelled(web: Web, maxDepth: int, depth: int, url: string,
                           v0: set<string>, visited: set<string>, level: map<string, int>) {
    && (forall p :: p in visited - v0 ==> p in level && depth <= level[p] <= maxDepth)
    && (forall p :: p in visited - v0 - {url} ==>
          exists q :: q in visited && q in level && level[q] + 1 == level[p] && LinksTo(web, q, p))
  }

  /** Every page visited since `v0` below the last level had all its links visited. */
  ghost predicate DescendedBelow(web: Web, maxDepth: int, v0: set<string>, visited: set<string>, level: map<string, int>) {
    forall p :: p in visited - v0 && p in level && level[p] < maxDepth ==> Descended(web, p, visited)
  }

  lemma LevelledAfterChild(web: Web, maxDepth: int, depth: int, url: string, link: string, v0: set<string>,
                           v1: set<string>, l1: map<string, int>, v2: set<string>, l2: map<string, int>)
    requires Levelled(web, maxDepth, depth, url, v0, v1, l1)
    requires url in v1 && url in l1 && l1[url] == depth && depth < maxDepth && LinksTo(web, url, link) && link !in v1
    requires v1 <= v2 && forall p :: p in v1 ==> p in l1 && p in l2 && l2[p] == l1[p]
    requires Levelled(web, maxDepth, depth + 1, link, v1, v2, l2)
    requires link in v2 && link in l2 && l2[link] == depth + 1
    ensures Levelled(web, maxDepth, depth, url, v0, v2, l2)
  {
    forall p | p in v2 - v0 - {url}
      ensures exists q :: q in v2 && q in l2 && l2[q] + 1 == l2[p] && LinksTo(web, q, p)
    {
      if p in v1 {
        var q :| q in v1 && q in l1 && l1[q] + 1 == l1[p] && LinksTo(web, q, p);
        assert q in v2 && l2[q] + 1 == l2[p];
      } else if p == link {
        assert url in v2 && l2[url] + 1 == l2[p];
      }
    }
  }

  lemma DescendedBelowAfterChild(web: Web, maxDepth: int, v0: set<string>,
                                 v1: set<string>, l1: map<string, int>, v2: set<string>, l2: map<string, int>)
    requires DescendedBelow(web, maxDepth, v0, v1, l1)
    requires v1 <= v2 && forall p :: p in v1 ==> p in l1 && p in l2 && l2[p] == l1[p]
    requires DescendedBelow(web, maxDepth, v1, v2, l2)
    ensures DescendedBelow(web, maxDepth, v0, v2, l2)
  {
  }

  /** The state the inner `recurse` closure of `crawl_links` shares: the
      `visited` and `results` sets, plus the pages fetched in the order the
      "Visiting" lines are printed. */
  class Crawler {
    const web: Web
    const maxDepth: int
    var visited: set<string>
    var results: set<string>
    var fetched: seq<string>
    ghost var level: map<string, int>

    /** A page is visited exactly when it has been fetched, and it was
        fetched once. */
    ghost predicate Valid()
      reads this
    {
      NoDuplicates(fetched) && (forall u :: u in visited <==> u in fetched) && level.Keys == visited
    }

    constructor (web: Web, maxDepth: int)
      ensures Valid() && this.web == web && this.maxDepth == maxDepth
      ensures visited == {} && results == {} && fetched == []
    {
      this.web := web;
      this.maxDepth := maxDepth;
      visited, results, fetched := {}, {}, [];
      level := map[];
    }

    /** `recurse(url, depth)`: stops at once past the depth bound or on a
        visited page; otherwise marks the page visited at level `depth`,
        fetches its links and follows them. An exception from a fetch ends
        the whole crawl. */
    method Recurse(url: string, depth: int) returns (r: Outcome<()>)
      requires Valid()
      modifies this
      decreases if depth <= maxDepth then maxDepth - depth + 1 else 0, 1
      ensures Valid()
      ensures Visit(web, maxDepth, depth, url, r, old(visited), old(results), old(fetched), old(level),
                    visited, results, fetched, level)
    {
      if depth > maxDepth || url in visited {
        ExtendsRefl(web, url, visited, results, fetched);
        return Ok(());
      }
      ghost var v0, r0, f0, l0 := visited, results, fetched, level;
      visited := visited + {url};
      fetched := fetched + [url];
      level := level[url := depth];
      var page := GetLinksFromPage(web, url);
      if page.Raised? {
        VisitFailed(web, maxDepth, depth, url, page.message, v0, r0, f0, l0);
        return Raised(page.message);
      }
      r := FollowLinks(url, depth, page.value, v0, r0, f0, l0);
    }

    /** The `for link in links` loop of `recurse(url, depth)`, once `url` has
        been visited at level `depth` and its links fetched: each link not
        visited yet is added to the results, then visited one level deeper.
        `v0`, `r0`, `f0` and `l0` are the state before `url` was visited;
        together with that visit, the loop keeps the promise of `Visit`. */
    method FollowLinks(url: string, depth: int, links: seq<string>,
                       ghost v0: set<string>, ghost r0: set<string>, ghost f0: seq<string>,
                       ghost l0: map<string, int>)
      returns (r: Outcome<()>)
      requires Valid() && depth <= maxDepth && PageLinks(web, url) == Ok(links)
      requires url !in v0 && l0.Keys == v0
      requires visited == v0 + {url} && results == r0 && fetched == f0 + [url] && level == l0[url := depth]
      modifies this
      decreases maxDepth - depth + 1, 0
      ensures Valid()
      ensures Visit(web, maxDepth, depth, url, r, v0, r0, f0, l0, visited, results, fetched, level)
    {
      FollowingStart(web, maxDepth, depth, url, links, v0, r0, f0, l0, visited, results, fetched, level);
      for i := 0 to |links|
        invariant Valid()
        invariant Following(web, maxDepth, depth, url, links, i, v0, r0, f0, l0, visited, results, fetched, level)
      {
        var link := links[i];
        if link !in visited {
          ghost var v1, r1, f1, l1 := visited, results, fetched, level;
          results := results + {link};
          var sub := Recurse(link, depth + 1);
          if sub.Raised? {
            FollowedFailed(web, maxDepth, depth, url, links, i, v0, r0, f0, l0,
                           v1, r1, f1, l1, visited, results, fetched, level, sub);
            return sub;
          }
          if depth < maxDepth {
            assert fetched[|f1|] in fetched;
          }
          FollowedChild(web, maxDepth, depth, url, links, i, v0, r0, f0, l0,
                        v1, r1, f1, l1, visited, results, fetched, level);
        } else {
          FollowingSkip(web, maxDepth, depth, url, links, i, v0, r0, f0, l0, visited, results, fetched, level);
        }
      }
      FollowingDone(web, maxDepth, depth, url, links, v0, r0, f0, l0, visited, results, fetched, level);
      return Ok(());
    }
  }

  /** What one call `recurse(url, depth)` promises, from visited `v1`, results
      `r1`, fetch log `f1` and levels `l1` to `v2`, `r2`, `f2`, `l2`, with
      outcome `r`: the crawl state is extended; past the depth bound or on a
      visited page nothing changes; otherwise `url` is fetched next, at level
      `depth` (alone when `depth` is the bound); on a normal return every page
      newly visited is closed, `url`'s links are all visited below the bound,
      and so are those of every new page below it; an exception is the last
      fetch's; levels already given are kept, and the pages newly visited are
      levelled from `url`. */
  ghost predicate Visit(web: Web, maxDepth: int, depth: int, url: string, r: Outcome<()>,
                        v1: set<string>, r1: set<string>, f1: seq<string>, l1: map<string, int>,
                        v2: set<string>, r2: set<string>, f2: seq<string>, l2: map<string, int>)
  {
    && Extends(web, url, v1, r1, f1, v2, r2, f2)
    && (depth > maxDepth || url in v1 ==> v2 == v1 && r2 == r1 && f2 == f1 && l2 == l1 && r.Ok?)
    && (depth <= maxDepth && url !in v1 ==> |f1| < |f2| && f2[|f1|] == url)
    && (depth == maxDepth && url !in v1 ==> v2 == v1 + {url} && f2 == f1 + [url])
    && (r.Ok? ==> Closed(web, v2 - v1, r2, v2))
    && (r.Ok? && depth < maxDepth && url !in v1 ==> Descended(web, url, v2))
    && (r.Raised? ==> FailedLast(web, f2, r.message))
    && (forall p :: p in v1 && p in l1 ==> p in l2 && l2[p] == l1[p])
    && (depth <= maxDepth && url !in v1 ==> url in l2 && l2[url] == depth)
    && Levelled(web, maxDepth, depth, url, v1, v2, l2)
    && (r.Ok? ==> DescendedBelow(web, maxDepth, v1, v2, l2))
  }

  /** Visiting `url` whose fetch raised `message`. */
  lemma VisitFailed(web: Web, maxDepth: int, depth: int, url: string, message: string,
                    v0: set<string>, r0: set<string>, f0: seq<string>, l0: map<string, int>)
    requires depth <= maxDepth && url !in v0 && PageLinks(web, url) == Raised(message)
    ensures Visit(web, maxDepth, depth, url, Raised(message), v0, r0, f0, l0,
                  v0 + {url}, r0, f0 + [url], l0[url := depth])
  {
    ExtendsByVisit(web, url, v0, r0, f0);
    assert (f0 + [url])[|f0|] == url;
    assert (v0 + {url}) - v0 - {url} == {};
  }

  /** The invariant of the loop over the links of `url`, after the first `i`
      links: the crawl invariant for `url`, visited at level `depth`; the
      pages visited since `url` are closed; the links so far are results or
      visited, and visited when `url` is below the last level; levels of the
      pages before `url` are kept; the pages visited since `v0` are levelled
      and, below the last level, descended. */
  ghost predicate Following(web: Web, maxDepth: int, depth: int, url: string, links: seq<string>, i: nat,
                            v0: set<string>, r0: set<string>, f0: seq<string>, l0: map<string, int>,
                            visited: set<string>, results: set<string>, fetched: seq<string>, level: map<string, int>)
    requires i <= |links|
  {
    && FollowingState(web, maxDepth, depth, url, v0, r0, f0, l0, visited, results, fetched, level)
    && Closed(web, visited - v0 - {url}, results, visited)
    && DescendedBelow(web, maxDepth, v0 + {url}, visited, level)
    && LinksSeen(links, i, depth < maxDepth, results, visited)
  }

  /** The part of `Following` that does not depend on the links. */
  ghost predicate FollowingState(web: Web, maxDepth: int, depth: int, url: string,
                                 v0: set<string>, r0: set<string>, f0: seq<string>, l0: map<string, int>,
                                 visited: set<string>, results: set<string>, fetched: seq<string>, level: map<string, int>)
  {
    && Extends(web, url, v0, r0, f0, visited, results, fetched)
    && url !in v0 && url in visited && url in level && level[url] == depth
    && |f0| < |fetched| && fetched[|f0|] == url
    && (depth == maxDepth ==> visited == v0 + {url} && fetched == f0 + [url])
    && (forall p :: p in v0 && p in l0 ==> p in level && level[p] == l0[p])
    && Levelled(web, maxDepth, depth, url, v0, visited, level)
  }

  /** The first `i` links are results or visited, and visited when `below`. */
  ghost predicate LinksSeen(links: seq<string>, i: nat, below: bool, results: set<string>, visited: set<string>)
    requires i <= |links|
  {
    && (forall l :: l in links[..i] ==> l in results || l in visited)
    && (below ==> forall l :: l in links[..i] ==> l in visited)
  }

  /** On entry to the loop, `url` just visited at level `depth`. */
  lemma FollowingStart(web: Web, maxDepth: int, depth: int, url: string, links: seq<string>,
                       v0: set<string>, r0: set<string>, f0: seq<string>, l0: map<string, int>,
                       visited: set<string>, results: set<string>, fetched: seq<string>, level: map<string, int>)
    requires depth <= maxDepth && url !in v0
    requires visited == v0 + {url} && results == r0 && fetched == f0 + [url] && level == l0[url := depth]
    ensures Following(web, maxDepth, depth, url, links, 0, v0, r0, f0, l0, visited, results, fetched, level)
  {
    ExtendsByVisit(web, url, v0, r0, f0);
    assert visited - v0 - {url} == {};
    assert (v0 + {url}) - (v0 + {url}) == {};
  }

  /** A link already visited is passed over. */
  lemma FollowingSkip(web: Web, maxDepth: int, depth: int, url: string, links: seq<string>, i: nat,
                      v0: set<string>, r0: set<string>, f0: seq<string>, l0: map<string, int>,
                      visited: set<string>, results: set<string>, fetched: seq<string>, level: map<string, int>)
    requires i < |links| && links[i] in visited
    requires Following(web, maxDepth, depth, url, links, i, v0, r0, f0, l0, visited, results, fetched, level)
    ensures Following(web, maxDepth, depth, url, links, i + 1, v0, r0, f0, l0, visited, results, fetched, level)
  {
    assert links[..i + 1] == links[..i] + [links[i]];
  }

  /** A link `links[i]` not visited yet (state `v1`, `r1`, `f1`, `l1`) is
      added to the results and visited one level deeper (state `v2`, `r2`,
      `f2`, `l2`, with outcome `sub`): whatever the nested call returned, the
      crawl invariant for `url`, the head of the fetch log and the levels are
      kept. */
  lemma FollowedAny(web: Web, maxDepth: int, depth: int, url: string, links: seq<string>, i: nat,
                    v0: set<string>, r0: set<string>, f0: seq<string>, l0: map<string, int>,
                    v1: set<string>, r1: set<string>, f1: seq<string>, l1: map<string, int>,
                    v2: set<string>, r2: set<string>, f2: seq<string>, l2: map<string, int>, sub: Outcome<()>)
    requires i < |links| && PageLinks(web, url) == Ok(links) && links[i] !in v1
    requires depth <= maxDepth && l1.Keys == v1
    requires Following(web, maxDepth, depth, url, links, i, v0, r0, f0, l0, v1, r1, f1, l1)
    requires Visit(web, maxDepth, depth + 1, links[i], sub, v1, r1 + {links[i]}, f1, l1, v2, r2, f2, l2)
    requires depth < maxDepth ==> links[i] in v2
    ensures FollowingState(web, maxDepth, depth, url, v0, r0, f0, l0, v2, r2, f2, l2)
  {
    var link := links[i];
    assert LinksTo(web, url, link);
    ExtendsThroughChild(web, url, link, v0, r0, f0, v1, r1, f1, v2, r2, f2);
    assert f2[..|f1|] == f1;
    assert f2[|f0|] == f1[|f0|];
    if depth < maxDepth {
      LevelledAfterChild(web, maxDepth, depth, url, link, v0, v1, l1, v2, l2);
    }
  }

  /** A nested call that raised: the call for `url` raises the same. */
  lemma FollowedFailed(web: Web, maxDepth: int, depth: int, url: string, links: seq<string>, i: nat,
                       v0: set<string>, r0: set<string>, f0: seq<string>, l0: map<string, int>,
                       v1: set<string>, r1: set<string>, f1: seq<string>, l1: map<string, int>,
                       v2: set<string>, r2: set<string>, f2: seq<string>, l2: map<string, int>, sub: Outcome<()>)
    requires i < |links| && PageLinks(web, url) == Ok(links) && links[i] !in v1
    requires depth <= maxDepth && l1.Keys == v1
    requires Following(web, maxDepth, depth, url, links, i, v0, r0, f0, l0, v1, r1, f1, l1)
    requires Visit(web, maxDepth, depth + 1, links[i], sub, v1, r1 + {links[i]}, f1, l1, v2, r2, f2, l2)
    requires sub.Raised?
    requires depth < maxDepth ==> links[i] in v2
    ensures Visit(web, maxDepth, depth, url, sub, v0, r0, f0, l0, v2, r2, f2, l2)
  {
    FollowedAny(web, maxDepth, depth, url, links, i, v0, r0, f0, l0, v1, r1, f1, l1, v2, r2, f2, l2, sub);
  }

  /** A nested call that returned normally: the loop invariant holds for the
      first `i + 1` links. */
  lemma FollowedChild(web: Web, maxDepth: int, depth: int, url: string, links: seq<string>, i: nat,
                      v0: set<string>, r0: set<string>, f0: seq<string>, l0: map<string, int>,
                      v1: set<string>, r1: set<string>, f1: seq<string>, l1: map<string, int>,
                      v2: set<string>, r2: set<string>, f2: seq<string>, l2: map<string, int>)
    requires i < |links| && PageLinks(web, url) == Ok(links) && links[i] !in v1
    requires depth <= maxDepth && l1.Keys == v1
    requires Following(web, maxDepth, depth, url, links, i, v0, r0, f0, l0, v1, r1, f1, l1)
    requires Visit(web, maxDepth, depth + 1, links[i], Ok(()), v1, r1 + {links[i]}, f1, l1, v2, r2, f2, l2)
    requires depth < maxDepth ==> links[i] in v2
    ensures Following(web, maxDepth, depth, url, links, i + 1, v0, r0, f0, l0, v2, r2, f2, l2)
  {
    var link := links[i];
    FollowedAny(web, maxDepth, depth, url, links, i, v0, r0, f0, l0, v1, r1, f1, l1, v2, r2, f2, l2, Ok(()));
    DescendedBelowAfterChild(web, maxDepth, v0 + {url}, v1, l1, v2, l2);
    ClosedAfterChild(web, url, v0, v1, r1 + {link}, v2, r2);
    LinksSoFar(links, i, depth < maxDepth, r1, v1, r2, v2);
  }

  /** The first `i + 1` links are results or visited (and visited when
      `below`), once the first `i` were and link `i` was followed. */
  lemma LinksSoFar(links: seq<string>, i: nat, below: bool,
                   r1: set<string>, v1: set<string>, r2: set<string>, v2: set<string>)
    requires i < |links| && r1 + {links[i]} <= r2 && v1 <= v2
    requires LinksSeen(links, i, below, r1, v1)
    requires below ==> links[i] in v2
    ensures LinksSeen(links, i + 1, below, r2, v2)
  {
    assert links[..i + 1] == links[..i] + [links[i]];
  }

  /** Once every link has been followed, the call for `url` keeps the
      promise of `Visit`. */
  lemma FollowingDone(web: Web, maxDepth: int, depth: int, url: string, links: seq<string>,
                      v0: set<string>, r0: set<string>, f0: seq<string>, l0: map<string, int>,
                      visited: set<string>, results: set<string>, fetched: seq<string>, level: map<string, int>)
    requires depth <= maxDepth && PageLinks(web, url) == Ok(links)
    requires Following(web, maxDepth, depth, url, links, |links|, v0, r0, f0, l0, visited, results, fetched, level)
    ensures Visit(web, maxDepth, depth, url, Ok(()), v0, r0, f0, l0, visited, results, fetched, level)
  {
    assert links[..|links|] == links;
    ClosedWithPage(web, url, v0, results, visited);
  }

  /** Each page fetched has a level: the start page 0, every other page one
      more than a fetched page linking to it, none above `maxDepth`; the links
      of a page below `maxDepth` were all fetched. */
  ghost predicate CrawlLevels(web: Web, start: string, maxDepth: int, fetched: seq<string>, level: map<string, int>) {
    && (forall p :: p in level <==> p in fetched)
    && start in level && level[start] == 0
    && (forall p :: p in level ==> 0 <= level[p] <= maxDepth)
    && (forall p :: p in level && p != start ==> exists q :: q in level && level[q] + 1 == level[p] && LinksTo(web, q, p))
    && (forall p :: p in level && level[p] < maxDepth ==>
          PageLinks(web, p).Ok? && forall l :: l in PageLinks(web, p).value ==> l in fetched)
  }

  lemma LevelsOfCrawl(web: Web, start: string, maxDepth: int, visited: set<string>, fetched: seq<string>, level: map<string, int>)
    requires level.Keys == visited && (forall u :: u in visited <==> u in fetched)
    requires start in visited && level[start] == 0
    requires Levelled(web, maxDepth, 0, start, {}, visited, level)
    requires DescendedBelow(web, maxDepth, {}, visited, level)
    ensures CrawlLevels(web, start, maxDepth, fetched, level)
  {
    assert visited - {} == visited;
    forall p | p in level && level[p] < maxDepth
      ensures PageLinks(web, p).Ok? && forall l :: l in PageLinks(web, p).value ==> l in fetched
    {
      assert Descended(web, p, visited);
    }
  }

  /** What the crawl from `start` at level 0 and an empty state leaves, as
      `CrawlLinks` reports it: `done` is the outcome, `visited`, `results`,
      `fetched` and `level` the final state. */
  lemma CrawlOutcome(web: Web, start: string, maxDepth: int, done: Outcome<()>,
                     visited: set<string>, results: set<string>, fetched: seq<string>, level: map<string, int>)
    requires NoDuplicates(fetched) && (forall u :: u in visited <==> u in fetched) && level.Keys == visited
    requires Visit(web, maxDepth, 0, start, done, {}, {}, [], map[], visited, results, fetched, level)
    ensures maxDepth < 0 ==> fetched == [] && done.Ok? && results == {}
    ensures maxDepth >= 0 ==> |fetched| > 0 && fetched[0] == start
    ensures maxDepth == 0 ==> fetched == [start]
    ensures maxDepth > 0 && done.Ok? ==>
      PageLinks(web, start).Ok? && forall l :: l in PageLinks(web, start).value ==> l in fetched
    ensures done.Ok? ==> start !in results
    ensures done.Ok? ==> forall v :: v in fetched && v != start ==> v in results
    ensures done.Ok? ==> forall x :: x in results ==> exists v :: v in fetched && LinksTo(web, v, x)
    ensures done.Ok? ==> forall v :: v in fetched ==>
      PageLinks(web, v).Ok? && forall l :: l in PageLinks(web, v).value ==> l in results || l == start
    ensures done.Raised? ==> |fetched| > 0 && PageLinks(web, fetched[|fetched| - 1]) == Raised(done.message)
    ensures maxDepth == 0 && done.Ok? ==>
      PageLinks(web, start).Ok? && results == (set l | l in PageLinks(web, start).value) - {start}
    ensures done.Ok? && maxDepth >= 0 ==> CrawlLevels(web, start, maxDepth, fetched, level)
  {
    ExtendsFromNothing(web, start, visited, results, fetched);
    assert visited - {} == visited;
    if done.Ok? {
      if maxDepth >= 0 {
        LevelsOfCrawl(web, start, maxDepth, visited, fetched, level);
      }
      if maxDepth == 0 {
        assert visited == {start};
        var links := PageLinks(web, start).value;
        forall x ensures x in results <==> x in links && x != start {
          if x in results {
            var v :| v in visited && LinksTo(web, v, x);
          }
        }
      }
    }
  }

  /** `crawl_links(start_url, max_depth)`: the links collected from the start
      page on, as a set; or the exception of the first fetch that failed.
      Besides the outcome it gives the pages fetched, in order. */
  method CrawlLinks(web: Web, start: string, maxDepth: int) returns (r: Outcome<set<string>>, fetched: seq<string>)
    ensures NoDuplicates(fetched)
    ensures maxDepth < 0 ==> fetched == [] && r == Ok({})
    ensures maxDepth >= 0 ==> |fetched| > 0 && fetched[0] == start
    ensures maxDepth == 0 ==> fetched == [start]
    ensures maxDepth > 0 && r.Ok? ==>
      PageLinks(web, start).Ok? && forall l :: l in PageLinks(web, start).value ==> l in fetched
    ensures r.Ok? ==> start !in r.value
    ensures r.Ok? ==> forall v :: v in fetched && v != start ==> v in r.value
    ensures r.Ok? ==> forall x :: x in r.value ==> exists v :: v in fetched && LinksTo(web, v, x)
    ensures r.Ok? ==> forall v :: v in fetched ==>
      PageLinks(web, v).Ok? && forall l :: l in PageLinks(web, v).value ==> l in r.value || l == start
    ensures r.Raised? ==> |fetched| > 0 && PageLinks(web, fetched[|fetched| - 1]) == Raised(r.message)
    ensures maxDepth == 0 && r.Ok? ==>
      PageLinks(web, start).Ok? && r.value == (set l | l in PageLinks(web, start).value) - {start}
    ensures r.Ok? && maxDepth >= 0 ==> exists level :: CrawlLevels(web, start, maxDepth, fetched, level)
  {
    var crawler := new Crawler(web, maxDepth);
    var done := crawler.Recurse(start, 0);
    fetched := crawler.fetched;
    CrawlOutcome(web, start, maxDepth, done, crawler.visited, crawler.results, fetched, crawler.level);
    if done.Raised? {
      r := Raised(done.message);
    } else {
      r := Ok(crawler.results);
    }
  }
}

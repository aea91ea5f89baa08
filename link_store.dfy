/** The two collections the redirector works on, and the two operations that
    change them: `create_link`, a check-then-insert that keeps slugs unique when
    requests are handled one at a time, and `redirect_link`, which resolves a
    slug, records a Click and computes the URL to redirect to. */
module LinkStore {
  import opened Common
  import opened Dict
  import opened Handlers
  import opened Links

  /** The collection as a dict keyed by slug, in collection order. */
  function BySlug(links: seq<Link>): (d: Dict<Link>)
    ensures |d| == |links|
    ensures forall j :: 0 <= j < |links| ==> d[j] == (links[j].slug, links[j])
  {
    seq(|links|, j requires 0 <= j < |links| => (links[j].slug, links[j]))
  }

  /** The position of the first Link with `slug` in collection order, or -1. */
  function SlugIndex(links: seq<Link>, slug: string): (i: int)
    ensures -1 <= i < |links|
    ensures i == -1 <==> forall j :: 0 <= j < |links| ==> links[j].slug != slug
    ensures 0 <= i ==> links[i].slug == slug && forall j :: 0 <= j < i ==> links[j].slug != slug
  {
    IndexOf(BySlug(links), slug)
  }

  /** No two Links share a slug. */
  predicate UniqueSlugs(links: seq<Link>) {
    forall i, j :: 0 <= i < j < |links| ==> links[i].slug != links[j].slug
  }

  /** Appending a Link whose slug is not taken keeps slugs unique. */
  lemma AppendFreshSlug(links: seq<Link>, link: Link)
    requires UniqueSlugs(links) && SlugIndex(links, link.slug) == -1
    ensures UniqueSlugs(links + [link])
  {
  }

  /** With unique slugs, the first Link with a slug is the only one. */
  lemma UniqueResolution(links: seq<Link>, k: nat)
    requires UniqueSlugs(links) && k < |links|
    ensures SlugIndex(links, links[k].slug) == k
  {
  }

  /** The response of a successful redirect: a status and the URL components. */
  datatype Redirect = Redirect(status: nat, url: RebuiltUrl)

  const TemporaryRedirect: nat := 307

  /** The framework's answer to an exception no handler catches. */
  const UncaughtDetail: string := "Internal Server Error"

  class Store {
    /** The `link` collection, in collection order. */
    var links: seq<Link>
    /** The `click` collection, appended to only. */
    var clicks: seq<Click>

    constructor ()
      ensures links == [] && clicks == []
    {
      links, clicks := [], [];
    }

    /** `create_link`. `findFault` and `insertFault` are the messages of the
        store's exceptions, when `find_one` or `create_document` raises. The
        result is the new Link's identifier; the model uses its position. */
    method CreateLink(link: Link, findFault: Option<string>, insertFault: Option<string>) returns (res: Reply<nat>)
      modifies this
      ensures clicks == old(clicks)
      ensures findFault.Some? ==> res == Failure(InternalError, findFault.value) && links == old(links)
      ensures findFault.None? && SlugIndex(old(links), link.slug) >= 0 ==>
        res == Failure(BadRequest, "Slug already exists") && links == old(links)
      ensures findFault.None? && SlugIndex(old(links), link.slug) == -1 && insertFault.Some? ==>
        res == Failure(InternalError, insertFault.value) && links == old(links)
      ensures findFault.None? && SlugIndex(old(links), link.slug) == -1 && insertFault.None? ==>
        res == Success(|old(links)|) && links == old(links) + [link]
      ensures UniqueSlugs(old(links)) ==> UniqueSlugs(links)
    {
      var outcome: Outcome<nat>;
      if findFault.Some? {
        outcome := Raised(OtherExc(findFault.value));
      } else if SlugIndex(links, link.slug) >= 0 {
        outcome := Raised(HttpExc(BadRequest, "Slug already exists"));
      } else if insertFault.Some? {
        outcome := Raised(OtherExc(insertFault.value));
      } else {
        outcome := Returned(|links|);
        if UniqueSlugs(links) { AppendFreshSlug(links, link); }
        links := links + [link];
      }
      res := ReraiseHttp(outcome);
    }

    /** `redirect_link`. The request's `Referer` and `User-Agent` headers and its
        client host are passed in; `clickFault` says whether writing the Click
        raises; `parse` is the URL library's split of a target, `None` when the
        library rejects it (an unclosed IPv6 bracket, say). That call is outside
        any `try`, so the framework answers 500, after the Click is written. */
    method RedirectLink(slug: string, referer: Option<string>, userAgent: Option<string>, clientHost: Option<string>,
                        clickFault: bool, parse: string -> Option<ParsedTarget>) returns (res: Reply<Redirect>)
      modifies this
      ensures links == old(links)
      ensures SlugIndex(links, slug) == -1 ==>
        res == Failure(NotFound, "Link not found") && clicks == old(clicks)
      ensures SlugIndex(links, slug) >= 0 ==>
        clicks == old(clicks) + (if clickFault then [] else [Click(slug, referer, userAgent, clientHost)])
      ensures SlugIndex(links, slug) >= 0 && !Truthy(links[SlugIndex(links, slug)].target) ==>
        res == Failure(BadRequest, "Link target missing")
      ensures SlugIndex(links, slug) >= 0 && Truthy(links[SlugIndex(links, slug)].target) ==>
        var link := links[SlugIndex(links, slug)];
        res == match parse(link.target.value)
               case None => Failure(InternalError, UncaughtDetail)
               case Some(p) => Success(Redirect(TemporaryRedirect, RedirectUrl(p, link)))
    {
      var i := SlugIndex(links, slug);
      if i == -1 {
        return Failure(NotFound, "Link not found");
      }
      var link := links[i];
      // The Click is written before the target is looked at; a failed write is swallowed.
      if !clickFault {
        clicks := clicks + [Click(slug, referer, userAgent, clientHost)];
      }
      var target := link.target;
      if !Truthy(target) {
        return Failure(BadRequest, "Link target missing");
      }
      var parsedOrNot := parse(target.value);
      if parsedOrNot.None? {
        return Failure(InternalError, UncaughtDetail);
      }
      var parsed := parsedOrNot.value;
      var q := MergeUtm(parsed.query, link);
      var url := RebuiltUrl(parsed.scheme, parsed.netloc, parsed.path, parsed.params, FirstValues(q), parsed.fragment);
      res := Success(Redirect(TemporaryRedirect, url));
    }
  }
}

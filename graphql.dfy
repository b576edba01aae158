/** The GitHubGraphQL client: extracting `data.repository` from a query answer,
    funding links and the homepage URL. The HTTP request is not modelled: its
    answer is an input, None when the response was not ok. */
module GraphQL {
  import opened Wrappers

  /** A decoded GraphQL answer. `data` is None when the key is absent or null. */
  datatype Response<T> = Response(data: Option<Data<T>>)

  /** The `data` object. `repository` is None when the key is absent or null. */
  datatype Data<T> = Data(repository: Option<T>)

  /** One entry of `fundingLinks { platform url }`. */
  datatype FundingLink = FundingLink(platform: string, url: string)

  /** The repository object answered to `fundingLinks { platform url }`. */
  datatype FundingNode = FundingNode(fundingLinks: seq<FundingLink>)

  /** The repository object answered to `homepageUrl`; GitHub reports an unset
      homepage as null. */
  datatype HomepageNode = HomepageNode(homepageUrl: Option<string>)

  const SponsorsPrefix := "https://github.com/sponsors/"

  /** The extraction in GitHubGraphQL.query_repository: `result.get("data").get("repository")`,
      where a missing response or a missing `data` level is an AttributeError turned into None. */
  function QueryRepository<T>(result: Option<Response<T>>): (repository: Option<T>)
    ensures repository.None? <==>
      result.None? || result.value.data.None? || result.value.data.value.repository.None?
    ensures repository.Some? ==> result == Some(Response(Some(Data(repository))))
  {
    match result
    case None => None
    case Some(response) =>
      match response.data
      case None => None
      case Some(data) => data.repository
  }

  /** Index of the last '/' in `url`, or -1 when there is none. */
  function LastSlash(url: string): (k: int)
    ensures -1 <= k < |url|
    ensures k >= 0 ==> url[k] == '/'
    ensures forall j :: k < j < |url| ==> url[j] != '/'
  {
    if url == [] then -1
    else if url[|url| - 1] == '/' then |url| - 1
    else LastSlash(url[..|url| - 1])
  }

  /** `url.split("/")[-1]`: the longest suffix of `url` without a '/'. */
  function LastSegment(url: string): (segment: string)
    ensures '/' !in segment
    ensures |segment| <= |url| && url[|url| - |segment|..] == segment
    ensures |segment| < |url| ==> url[|url| - |segment| - 1] == '/'
  {
    url[LastSlash(url) + 1..]
  }

  /** The last segment of a path `prefix/segment` is `segment`; a URL without '/'
      is its own last segment. */
  lemma LastSegmentOfPath(prefix: string, segment: string)
    requires '/' !in segment
    ensures LastSegment(prefix + "/" + segment) == segment
    ensures LastSegment(segment) == segment
  {
    var url := prefix + "/" + segment;
    var k := LastSlash(url);
    assert url[|prefix|] == '/';
    assert k == |prefix|;
    assert url[k + 1..] == segment;
    assert LastSlash(segment) == -1;
  }

  /** One funding entry as a donation link. */
  function SponsorLink(link: FundingLink): string {
    if link.platform == "GITHUB" then SponsorsPrefix + LastSegment(link.url) else link.url
  }

  /** The donation links of a list of funding entries, in order. */
  function SponsorLinks(links: seq<FundingLink>): (urls: seq<string>)
    ensures |urls| == |links|
  {
    if links == [] then [] else [SponsorLink(links[0])] + SponsorLinks(links[1..])
  }

  /** The donation links of a funding query answer; none when the repository is missing. */
  function SponsorUrls(result: Option<Response<FundingNode>>): (urls: seq<string>)
    ensures QueryRepository(result).None? ==> urls == []
    ensures QueryRepository(result).Some? ==> |urls| == |QueryRepository(result).value.fundingLinks|
  {
    match QueryRepository(result)
    case None => []
    case Some(node) => SponsorLinks(node.fundingLinks)
  }

  /** Sponsor links keep the length and order of the funding entries; a GITHUB
      entry becomes the canonical sponsors URL of its last path segment and any
      other entry is passed through. */
  lemma {:induction false} SponsorLinksPointwise(links: seq<FundingLink>)
    ensures |SponsorLinks(links)| == |links|
    ensures forall i :: 0 <= i < |links| ==>
      if links[i].platform == "GITHUB"
      then SponsorLinks(links)[i] == SponsorsPrefix + LastSegment(links[i].url)
      else SponsorLinks(links)[i] == links[i].url
  {
    if links != [] {
      SponsorLinksPointwise(links[1..]);
      forall i | 1 <= i < |links| ensures SponsorLinks(links)[i] == SponsorLinks(links[1..])[i - 1] {
      }
    }
  }

  /** GitHubGraphQL.get_sponsor_url: appends one link per funding entry. */
  method GetSponsorUrl(result: Option<Response<FundingNode>>) returns (links: seq<string>)
    ensures QueryRepository(result).None? ==> links == []
    ensures QueryRepository(result).Some? ==>
      var funding := QueryRepository(result).value.fundingLinks;
      && |links| == |funding|
      && forall i :: 0 <= i < |links| ==>
           links[i] == if funding[i].platform == "GITHUB"
                       then SponsorsPrefix + LastSegment(funding[i].url)
                       else funding[i].url
    ensures links == SponsorUrls(result)
  {
    var repository := QueryRepository(result);
    if repository.None? {
      return [];
    }
    links := [];
    var fundingLinks := repository.value.fundingLinks;
    for n := 0 to |fundingLinks|
      invariant |links| == n
      invariant forall i :: 0 <= i < n ==> links[i] == SponsorLink(fundingLinks[i])
    {
      var item := fundingLinks[n];
      if item.platform == "GITHUB" {
        var name := LastSegment(item.url);
        links := links + [SponsorsPrefix + name];
      } else {
        links := links + [item.url];
      }
      assert links[n] == SponsorLink(fundingLinks[n]);
    }
    SponsorLinksPointwise(fundingLinks);
    assert links == SponsorLinks(fundingLinks);
  }

  /** A GITHUB entry for `https://github.com/<org>` followed by an entry of another
      platform: the first link is the canonical sponsors URL of `org`, the second
      is passed through. */
  lemma SponsorUrlsExample(org: string, other: FundingLink)
    requires '/' !in org && other.platform != "GITHUB"
    ensures
      var github := FundingLink("GITHUB", "https://github.com/" + org);
      SponsorUrls(Some(Response(Some(Data(Some(FundingNode([github, other]))))))) == [SponsorsPrefix + org, other.url]
  {
    var github := FundingLink("GITHUB", "https://github.com/" + org);
    assert SponsorLink(github) == SponsorsPrefix + org by {
      assert github.url == "https://github.com" + "/" + org;
      LastSegmentOfPath("https://github.com", org);
    }
    assert [github, other][1..] == [other];
    assert [other][1..] == [];
    assert SponsorLinks([other]) == [SponsorLink(other)] + SponsorLinks([]);
    assert SponsorLinks([github, other]) == [SponsorLink(github)] + SponsorLinks([other]);
  }

  /** GitHubGraphQL.get_homepage_url: the homepage URL, None when the repository
      is missing or the URL is null or empty. */
  function GetHomepageUrl(result: Option<Response<HomepageNode>>): (homepage: Option<string>)
    ensures homepage.Some? ==>
      homepage.value != "" && QueryRepository(result) == Some(HomepageNode(homepage))
    ensures homepage.None? ==>
      || QueryRepository(result).None?
      || QueryRepository(result).value.homepageUrl in {None, Some("")}
  {
    match QueryRepository(result)
    case None => None
    case Some(repository) =>
      if repository.homepageUrl != Some("") then repository.homepageUrl else None
  }
}

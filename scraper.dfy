/** `scrapeData` and the `/api` route: the profile page is expanded, read
    and turned into the faculty record, then every publication link is
    crawled and the records are returned together. */
module Scraper {
  import opened Wrappers
  import opened Text
  import opened Pagination
  import opened Profile
  import opened Details
  import opened Crawl
  import opened Gate

  /** What the browser gives for the profile URL: whether the browser and
      the page could be opened and the page loaded, the answers of the
      "show more" rounds, the four text elements, and the `href` reads of
      the publication anchors visible once pagination is over. */
  datatype ProfilePage = ProfilePage(
    reachable: bool,
    rounds: seq<Round>,
    name: Element,
    uniName: Element,
    noOfCitations: Element,
    hIndex: Element,
    hrefs: seq<Option<string>>)

  datatype ScrapeOutput = ScrapeOutput(facultyDetails: FacultyDetails, publicationDetailsArray: seq<Record>)

  /** The errors that escape `scrapeData`: both are rethrown by its outer
      handler and end the request. */
  datatype ScrapeError = NavigationFailed | EvaluationFailed

  /** What a scrape returns. `details[i]` is what the crawl task of the
      i-th publication URL finds; `order` is the order the pool runs them in. */
  function ScrapeResult(profile: ProfilePage, details: seq<DetailPage>, order: seq<nat>): Result<ScrapeOutput, ScrapeError> {
    if !profile.reachable then Failure(NavigationFailed)
    else if !AllReadable(profile.hrefs) then Failure(EvaluationFailed)
    else Success(ScrapeOutput(
      FacultyDetails(ReturnText(profile.name), ReturnText(profile.uniName), ReturnText(profile.noOfCitations),
                     ReturnText(profile.hIndex), |profile.hrefs|),
      Produced(details, order)))
  }

  method ScrapeData(profile: ProfilePage, details: seq<DetailPage>, order: seq<nat>)
    returns (r: Result<ScrapeOutput, ScrapeError>)
    requires |details| == |profile.hrefs|
    requires IsSchedule(order, |details|)
    ensures r == ScrapeResult(profile, details, order)
  {
    if !profile.reachable {
      return Failure(NavigationFailed);
    }
    var clicks := ClickShowMoreButton(profile.rounds);
    var name := ReturnText(profile.name);
    var uniName := ReturnText(profile.uniName);
    var noOfCitations := ReturnText(profile.noOfCitations);
    var hIndex := ReturnText(profile.hIndex);
    var publicationsUrl := GetScholarlyLiterature(profile.hrefs);
    if publicationsUrl.Failure? {
      return Failure(EvaluationFailed);
    }
    var facultyDetails := FacultyDetails(name, uniName, noOfCitations, hIndex, |publicationsUrl.value|);
    var publicationDetailsArray := new DetailsArray();
    RunQueue(details, order, publicationDetailsArray);
    assert publicationDetailsArray.items == Produced(details, order);
    return Success(ScrapeOutput(facultyDetails, publicationDetailsArray.items));
  }

  /** A scrape whose profile page loads and whose links can be read always
      succeeds, however many detail tasks fail: it returns at most one
      record per publication URL, one for every task that did not fail, the
      same records whatever order the pool ran the tasks in, and a
      publication count that may exceed the number of records. */
  lemma ScrapeOutcome(profile: ProfilePage, details: seq<DetailPage>, order: seq<nat>)
    requires |details| == |profile.hrefs|
    requires IsSchedule(order, |details|)
    ensures ScrapeResult(profile, details, order).Success? <==> profile.reachable && AllReadable(profile.hrefs)
    ensures var r := ScrapeResult(profile, details, order);
            r.Success? ==>
              r.value.facultyDetails.noOfPublications == |profile.hrefs| &&
              |r.value.publicationDetailsArray| == r.value.facultyDetails.noOfPublications - FailedCount(details) &&
              |r.value.publicationDetailsArray| <= r.value.facultyDetails.noOfPublications &&
              multiset(r.value.publicationDetailsArray) == multiset(InQueueOrder(details))
  {
    CrawlOutcome(details, order);
  }

  /** The response of the route: a rejection before any scrape, or the
      outcome of the scrape. */
  datatype ApiResponse = BadRequest(error: string) | Served(result: Result<ScrapeOutput, ScrapeError>)

  /** The `/api` route. A rejected URL gets the gate's message and no
      scrape is started; an accepted one is scraped, and its result is
      served (as data on success, as a server error otherwise). */
  method Api(query: Option<string>, profile: ProfilePage, details: seq<DetailPage>, order: seq<nat>)
    returns (resp: ApiResponse)
    requires |details| == |profile.hrefs|
    requires IsSchedule(order, |details|)
    ensures query == None || query == Some("") ==> resp == BadRequest("Google Scholar URL is required")
    ensures CheckUrl(query) == Failure(InvalidFormat) ==>
              resp == BadRequest("Invalid URL format. Please provide a valid Google Scholar URL.")
    ensures resp.Served? <==> query.Some? && MatchesProfileUrl(query.value)
    ensures resp.Served? ==> resp.result == ScrapeResult(profile, details, order)
  {
    var gate := CheckUrl(query);
    if gate.Failure? {
      return BadRequest(Message(gate.error));
    }
    var data := ScrapeData(profile, details, order);
    return Served(data);
  }
}

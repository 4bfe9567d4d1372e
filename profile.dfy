/** The profile page's own data: the publication links and the faculty
    record built from the four text fields and the number of links. */
module Profile {
  import opened Wrappers
  import opened Text

  /** The faculty record, citation metrics kept as the page's raw text. */
  datatype FacultyDetails = FacultyDetails(
    name: string,
    uniName: string,
    noOfCitations: string,
    hIndex: string,
    noOfPublications: nat)

  /** Reading an anchor's `href` can throw (the element is gone, the page
      crashed); `hrefs[i] == None` stands for that. */
  predicate AllReadable(hrefs: seq<Option<string>>) {
    forall i :: 0 <= i < |hrefs| ==> hrefs[i].Some?
  }

  /** `getScholarlyLiterature`: one URL per anchor element, in the order of
      the elements. An `href` read that throws is not caught here: the
      whole call fails. */
  method GetScholarlyLiterature(hrefs: seq<Option<string>>) returns (r: Result<seq<string>, nat>)
    ensures r.Success? <==> AllReadable(hrefs)
    ensures r.Success? ==> |r.value| == |hrefs|
    ensures r.Success? ==> forall i :: 0 <= i < |hrefs| ==> r.value[i] == hrefs[i].value
    ensures r.Failure? ==> r.error < |hrefs| && hrefs[r.error].None? && AllReadable(hrefs[..r.error])
  {
    var listOfPublications: seq<string> := [];
    for i := 0 to |hrefs|
      invariant |listOfPublications| == i
      invariant AllReadable(hrefs[..i])
      invariant forall k :: 0 <= k < i ==> listOfPublications[k] == hrefs[k].value
    {
      match hrefs[i]
      case None =>
        return Failure(i);
      case Some(anchor) =>
        listOfPublications := listOfPublications + [anchor];
    }
    assert hrefs[..|hrefs|] == hrefs;
    return Success(listOfPublications);
  }
}

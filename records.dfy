/**
 * The company record both scrapers produce and the reconciliation code
 * reads and updates, and the outcomes of the network requests the code
 * makes, which the model takes as inputs.
 */
module Records {
  import opened Optional

  /** The evidence `{"location": label, "snippet": text}` of a mention. */
  datatype Match = Match(location: string, snippet: string)

  /**
   * A company record as a value. A JSON `null` and a missing key are both
   * `None`; `name` may be `None` because `normalize_name` accepts it.
   */
  datatype Record = Record(
    name: Option<string>,
    description: string,
    website: Option<string>,
    ycProfileUrl: Option<string>,
    linkedinUrl: Option<string>,
    mentionsS25: Option<bool>,
    linkedinMatch: Option<Match>,
    source: string)

  /** Python truthiness of an optional string: present and non-empty. */
  predicate Truthy(s: Option<string>)
  {
    s.Some? && s.value != ""
  }

  /**
   * A company record as the mutable dictionary the merge and enrichment
   * loops update in place. Only the three LinkedIn fields are ever written.
   */
  class Company {
    const name: Option<string>
    const description: string
    const website: Option<string>
    const ycProfileUrl: Option<string>
    var linkedinUrl: Option<string>
    var mentionsS25: Option<bool>
    var linkedinMatch: Option<Match>
    const source: string

    constructor (r: Record)
      ensures Value() == r
    {
      name, description, website, ycProfileUrl := r.name, r.description, r.website, r.ycProfileUrl;
      linkedinUrl, mentionsS25, linkedinMatch, source := r.linkedinUrl, r.mentionsS25, r.linkedinMatch, r.source;
    }

    /** The dictionary's current contents; Python's `==` on dictionaries compares these. */
    function Value(): Record
      reads this
    {
      Record(name, description, website, ycProfileUrl, linkedinUrl, mentionsS25, linkedinMatch, source)
    }
  }

  /** No dictionary occurs twice in the list (true of a list `json.load` returns). */
  predicate Distinct(cs: seq<Company>)
  {
    forall i, j :: 0 <= i < j < |cs| ==> cs[i] != cs[j]
  }

  function Values(cs: seq<Company>): (vs: seq<Record>)
    reads cs
    ensures |vs| == |cs|
    ensures forall i :: 0 <= i < |cs| ==> vs[i] == cs[i].Value()
  {
    if cs == [] then [] else [cs[0].Value()] + Values(cs[1..])
  }

  /**
   * What the HTML of a company page offers: the stripped text of the title,
   * the short and the full description and the website element, each
   * `None` when the selector finds no element.
   */
  datatype Page = Page(tagline: Option<string>, shortDesc: Option<string>, fullDesc: Option<string>, website: Option<string>)

  /** One HTTP request: it raised, or it answered with a status and a page. */
  datatype Response = Raised | Response(status: int, page: Page)

  /**
   * The network as seen by the code: the request `linkedin_check_yc_mention`
   * makes, the profile request of `extract_and_check` and its second
   * ("about") request, each as a function of the URL.
   */
  datatype Network = Network(check: string -> Response, profile: string -> Response, about: string -> Response)

  /** The records a fetch step returns for the URLs, in order, dropping the `None`s. */
  function Collected(calls: seq<string>, fetch: string -> Option<Record>): (added: seq<Record>)
    ensures |added| <= |calls|
  {
    if calls == [] then []
    else
      var rest := Collected(calls[..|calls| - 1], fetch);
      match fetch(calls[|calls| - 1])
      case None => rest
      case Some(r) => rest + [r]
  }

  /** Fetching one more URL appends its record, if the fetch step returns one. */
  lemma {:induction false} CollectedAppend(calls: seq<string>, fetch: string -> Option<Record>, u: string)
    ensures Collected(calls + [u], fetch)
      == Collected(calls, fetch) + (if fetch(u).Some? then [fetch(u).value] else [])
  {
    assert (calls + [u])[..|calls|] == calls;
  }

  /** Every collected record is what the fetch step returned for one of the URLs. */
  lemma {:induction false} CollectedFrom(calls: seq<string>, fetch: string -> Option<Record>, r: Record)
    requires r in Collected(calls, fetch)
    ensures exists u :: u in calls && fetch(u) == Some(r)
  {
    var n := |calls|;
    var rest := Collected(calls[..n - 1], fetch);
    if r in rest {
      CollectedFrom(calls[..n - 1], fetch, r);
      var u :| u in calls[..n - 1] && fetch(u) == Some(r);
      assert u in calls;
    } else {
      assert fetch(calls[n - 1]) == Some(r);
    }
  }
}

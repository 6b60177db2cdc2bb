/** The corpus fetch of `WikiProvenance` (`get_wiki_page`): the search titles
    for the topic are tried in order until one yields a page. Wikipedia search
    and page fetch are parameters; the exceptions of a fetch become the
    variants of `FetchResult`. */
module Fetching {
  import opened Base

  /** A Wikipedia page: its title and its plain-text content. */
  datatype Page = Page(title: string, content: string)

  /** The outcome of fetching a title without auto-suggestion: the page, a
      disambiguation error with its options, or a page error. */
  datatype FetchResult = Found(page: Page) | Ambiguous(options: seq<string>) | NotFound

  /** The number of search results asked for (`results=3`). */
  const SearchLimit: nat := 3

  /** The handler of a disambiguation error: fetch the first option and stop.
      No option at all, or a failing fetch of it, is an error that ends the search. */
  function ResolveAmbiguity(options: seq<string>, fetch: string -> FetchResult): Result<Page>
  {
    if options == [] then Err(NoDisambiguationOption)
    else
      match fetch(options[0])
      case Found(page) => Ok(page)
      case Ambiguous(more) => Err(DisambiguationError(options[0], more))
      case NotFound => Err(PageError(options[0]))
  }

  /** The page `get_wiki_page` settles on for the search titles `titles`. */
  function FirstPage(topic: string, titles: seq<string>, fetch: string -> FetchResult): Result<Page>
    decreases |titles|
  {
    if titles == [] then Err(PageNotFound(topic))
    else
      match fetch(titles[0])
      case Found(page) => Ok(page)
      case Ambiguous(options) => ResolveAmbiguity(options, fetch)
      case NotFound => FirstPage(topic, titles[1..], fetch)
  }

  /** `get_wiki_page`: search, then try the titles in order. */
  method GetWikiPage(topic: string, search: (string, nat) -> seq<string>, fetch: string -> FetchResult)
    returns (r: Result<Page>)
    ensures r == FirstPage(topic, search(topic, SearchLimit), fetch)
  {
    var searchResults := search(topic, SearchLimit);
    var page: Option<Page> := None;
    var i := 0;
    while i < |searchResults|
      invariant 0 <= i <= |searchResults|
      invariant page == None
      invariant FirstPage(topic, searchResults, fetch) == FirstPage(topic, searchResults[i..], fetch)
    {
      var result := fetch(searchResults[i]);
      if result.Found? {
        page := Some(result.page);
        break;
      } else if result.Ambiguous? {
        var options := result.options;
        if options == [] {
          return Err(NoDisambiguationOption);
        }
        var resolved := fetch(options[0]);
        if resolved.Found? {
          page := Some(resolved.page);
          break;
        } else if resolved.Ambiguous? {
          return Err(DisambiguationError(options[0], resolved.options));
        } else {
          return Err(PageError(options[0]));
        }
      }
      assert searchResults[i..][1..] == searchResults[i + 1..];
      i := i + 1;
    }
    if page == None {
      return Err(PageNotFound(topic));
    }
    return Ok(page.value);
  }

  /** Titles that are not found are skipped: the search goes on with the rest. */
  lemma {:induction false} SkipNotFound(topic: string, titles: seq<string>, fetch: string -> FetchResult, i: nat)
    requires i <= |titles|
    requires forall j :: 0 <= j < i ==> fetch(titles[j]) == NotFound
    ensures FirstPage(topic, titles, fetch) == FirstPage(topic, titles[i..], fetch)
    decreases i
  {
    if i > 0 {
      SkipNotFound(topic, titles[1..], fetch, i - 1);
      assert titles[1..][i - 1..] == titles[i..];
    }
  }

  /** The first title that fetches a page is the result. */
  lemma FirstFoundWins(topic: string, titles: seq<string>, fetch: string -> FetchResult, i: nat, page: Page)
    requires i < |titles|
    requires forall j :: 0 <= j < i ==> fetch(titles[j]) == NotFound
    requires fetch(titles[i]) == Found(page)
    ensures FirstPage(topic, titles, fetch) == Ok(page)
  {
    SkipNotFound(topic, titles, fetch, i);
  }

  /** The first ambiguous title ends the search: its first option decides the result. */
  lemma AmbiguousEndsSearch(topic: string, titles: seq<string>, fetch: string -> FetchResult, i: nat, options: seq<string>)
    requires i < |titles|
    requires forall j :: 0 <= j < i ==> fetch(titles[j]) == NotFound
    requires fetch(titles[i]) == Ambiguous(options)
    ensures FirstPage(topic, titles, fetch) == ResolveAmbiguity(options, fetch)
  {
    SkipNotFound(topic, titles, fetch, i);
  }

  /** The error naming the topic is raised exactly when no title is found. */
  lemma {:induction false} ExhaustedIff(topic: string, titles: seq<string>, fetch: string -> FetchResult)
    ensures FirstPage(topic, titles, fetch) == Err(PageNotFound(topic)) <==>
      forall j :: 0 <= j < |titles| ==> fetch(titles[j]) == NotFound
    decreases |titles|
  {
    if titles != [] {
      ExhaustedIff(topic, titles[1..], fetch);
      if fetch(titles[0]) == NotFound {
        assert forall j :: 1 <= j < |titles| ==> titles[j] == titles[1..][j - 1];
      }
    }
  }

  /** A page returned was fetched either from a search title after only
      not-found titles, or from the first option of the first ambiguous one. */
  lemma {:induction false} PageProvenance(topic: string, titles: seq<string>, fetch: string -> FetchResult, page: Page)
    returns (i: nat)
    requires FirstPage(topic, titles, fetch) == Ok(page)
    ensures i < |titles|
    ensures forall j :: 0 <= j < i ==> fetch(titles[j]) == NotFound
    ensures fetch(titles[i]) == Found(page) ||
      (fetch(titles[i]).Ambiguous? && fetch(titles[i]).options != [] &&
       fetch(fetch(titles[i]).options[0]) == Found(page))
    decreases |titles|
  {
    if fetch(titles[0]).NotFound? {
      var k := PageProvenance(topic, titles[1..], fetch, page);
      i := k + 1;
      assert forall j :: 1 <= j < i ==> titles[j] == titles[1..][j - 1];
    } else {
      i := 0;
    }
  }
}

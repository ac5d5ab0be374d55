/** The `fetch` replacement of the generic path (src/App.tsx:376-394): while
    a program that uses both `fetch(` and `async` runs, requests to the joke
    API go out and every other request is answered with a fixed mock. */
module Fetch {
  import opened Text

  /** Which `fetch` the running program sees. */
  datatype Fetcher = Network | Mocked

  /** What a request gets: the network's answer, or the mock's JSON body
      `{ message: ... }`. */
  datatype Reply = Forwarded(url: string) | Mock(message: string)

  const MockMessage := "Mock API response (non-joke API)"

  /** The replacement is installed for code that mentions both `fetch(` and
      `async` (src/App.tsx:376). */
  function FetcherFor(js: string): (f: Fetcher)
    ensures f == Mocked <==> Contains(js, "fetch(") && Contains(js, "async")
  {
    if Contains(js, "fetch(") && Contains(js, "async") then Mocked else Network
  }

  /** The URLs the replacement lets through (src/App.tsx:384). */
  predicate JokeUrl(url: string) {
    Contains(url, "joke-api") || Contains(url, "official-joke-api")
  }

  /** What a request to `url` gets under each `fetch`. */
  function Request(f: Fetcher, url: string): (r: Reply)
    ensures r.Mock? ==> f == Mocked && !Contains(url, "joke-api") && r.message == MockMessage
    ensures r.Forwarded? ==> r.url == url
  {
    match f
    case Network => Forwarded(url)
    case Mocked => if JokeUrl(url) then Forwarded(url) else Mock(MockMessage)
  }

  /** `official-joke-api` holds `joke-api`: the second test of the allow-list
      adds nothing, and a URL goes out exactly when it mentions `joke-api`. */
  lemma JokeUrlIff(url: string)
    ensures JokeUrl(url) <==> Contains(url, "joke-api")
  {
    if Contains(url, "official-joke-api") {
      assert "official-joke-api"[9..17] == "joke-api";
      ContainsInner(url, "official-joke-api", 9, 17);
    }
  }

  /** The replacement changes nothing for the joke API: a program asking it
      gets the same answer whether or not the replacement is installed. */
  lemma JokeRequestsUnchanged(url: string)
    requires Contains(url, "joke-api")
    ensures Request(Mocked, url) == Request(Network, url)
  {
  }

  /** Every other request under the replacement gets the mock, whatever it
      asks for; without the replacement it goes out. */
  lemma OtherRequestsMocked(url: string)
    requires !Contains(url, "joke-api")
    ensures Request(Mocked, url) == Mock(MockMessage)
    ensures Request(Network, url) == Forwarded(url)
  {
    JokeUrlIff(url);
  }
}

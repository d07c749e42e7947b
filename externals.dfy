/** The shapes of what the foreign services hand back, already decoded from JSON
    or XML. Each failure the Python code can meet while calling or decoding them
    (a transport exception, an undecodable body) is a variant of its own, so the
    callers' exception handlers become ordinary case analysis. An optional field
    is `None` when the key or element is absent. */
module Externals {
  import opened Common

  // ---- Naver news search (JSON) ----

  /** `NAVER_CLIENT_ID` and `NAVER_CLIENT_SECRET` as read from the environment. */
  datatype NaverCredentials = NaverCredentials(clientId: Option<string>, clientSecret: Option<string>)

  /** One element of the `items` array of a search response. */
  datatype NaverItem = NaverItem(
    title: Option<string>,
    link: Option<string>,
    originallink: Option<string>,
    pubDate: Option<string>)

  datatype NaverBody =
    | NaverUndecodable                          // response.json() raises
    | NaverJson(items: Option<seq<NaverItem>>)  // None: no "items" key

  datatype NaverReply =
    | NaverUnreachable                          // requests.get raises
    | NaverResponse(status: int, body: NaverBody)

  /** The search call, by query and `display` count. */
  type NaverSearch = (string, nat) -> NaverReply

  // ---- yfinance news of a ticker ----

  /** A news object, or the object under its `content` key. `clickThroughUrl` is
      `None` when the key is absent or null, and otherwise its dictionary. */
  datatype YahooPayload = YahooPayload(
    title: Option<string>,
    clickThroughUrl: Option<map<string, string>>,
    link: Option<string>,
    pubDate: Option<string>)

  datatype YahooItem =
    | Wrapped(content: YahooPayload)  // has a "content" key holding an object
    | WrappedNull                     // has a "content" key holding null
    | Flat(payload: YahooPayload)     // no "content" key

  datatype YahooReply =
    | YahooUnreachable                // yf.Ticker(...).news raises
    | NewsObjects(items: seq<YahooItem>)

  type YahooFeed = string -> YahooReply

  /** GoogleTranslator(source='auto', target='ko').translate; `None` when the
      constructor or the call raises. */
  type Translator = string -> Option<string>

  // ---- Google News RSS 2.0 ----

  /** A `channel/item` element; a field is `None` when its child element is missing. */
  datatype RssItem = RssItem(title: Option<string>, link: Option<string>, pubDate: Option<string>)

  datatype RssDocument =
    | RssMalformed                    // ET.fromstring raises
    | RssFeed(items: seq<RssItem>)    // root.findall('./channel/item'), in document order

  datatype RssReply =
    | RssUnreachable                  // requests.get raises (including the 5 s timeout)
    | RssResponse(status: int, document: RssDocument)

  type RssSearch = string -> RssReply

  // ---- yfinance quote ----

  datatype Quote =
    /** `fast_info` answered; `lastPrice` / `previousClose` are `None` when it has no value. */
    | FastInfo(lastPrice: Option<real>, previousClose: Option<real>, currency: string)
    /** `fast_info` raised and `history(period="5d")` answered with these closing prices. */
    | History(closes: seq<real>)
    /** The ticker or its history raised. */
    | QuoteRaised

  type QuoteSource = string -> Quote

  // ---- Gemini ----

  /** `genai.GenerativeModel(...)` either constructs or raises; `generate` is
      `generate_content(prompt).text`, `None` when that raises. */
  datatype Gemini = Gemini(constructs: bool, generate: string -> Option<string>)
}

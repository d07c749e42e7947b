/** app/main.py: the route rules around the pipeline. The database tables the
    routes touch are fields of two classes (the watch list, keyed by the
    `(user_id, ticker)` pair that app/models.py declares unique, and the user
    accounts, keyed by the unique e-mail); an HTTPException is an `HttpError` reply. */
module Routes {
  import opened Common
  import opened Externals
  import opened Finance
  import opened AiAnalyst

  /** A route's answer: the response body, or the status and detail of the HTTPException raised. */
  datatype Reply<+T> = Success(body: T) | HttpError(code: int, detail: string)

  // ---- read_home_chart ----

  /** `ticker_map`: URL-safe aliases of the index symbols. */
  const ChartAliases: map<string, string> :=
    map["KOSPI" := "^KS11", "NASDAQ" := "^IXIC", "S_P500" := "^GSPC", "NIKKEI" := "^N225"]

  /** The history request `read_home_chart` makes: symbol and period. */
  datatype ChartRequest = ChartRequest(symbol: string, period: string)

  /** `read_home_chart`: the symbol is never left as an alias, and the period is three months. */
  function ReadHomeChart(ticker: string): (r: ChartRequest)
    ensures r.symbol !in ChartAliases
    ensures r.period == "3mo"
  {
    assert forall k | k in ChartAliases :: k[0] != '^' && ChartAliases[k][0] == '^';
    ChartRequest(if ticker in ChartAliases then ChartAliases[ticker] else ticker, "3mo")
  }

  /** The four aliases resolve to the index symbols, anything else is passed through,
      and the period is always three months. */
  lemma HomeChartAliases(ticker: string)
    ensures ReadHomeChart("KOSPI").symbol == "^KS11" && ReadHomeChart("NASDAQ").symbol == "^IXIC"
    ensures ReadHomeChart("S_P500").symbol == "^GSPC" && ReadHomeChart("NIKKEI").symbol == "^N225"
    ensures ticker != "KOSPI" && ticker != "NASDAQ" && ticker != "S_P500" && ticker != "NIKKEI"
            ==> ReadHomeChart(ticker).symbol == ticker
    ensures ReadHomeChart(ticker).period == "3mo"
  {
  }

  /** Resolving an alias twice is resolving it once: no target is itself an alias. */
  lemma HomeChartResolvesOnce(ticker: string)
    ensures ReadHomeChart(ReadHomeChart(ticker).symbol) == ReadHomeChart(ticker)
  {
    var s := ReadHomeChart(ticker).symbol;
    if ticker in ChartAliases {
      assert s[0] == '^';
      assert forall k | k in ChartAliases :: k[0] != '^';
    }
  }

  // ---- read_asset_price / read_asset_briefing ----

  const PriceNotFound: string := "데이터를 찾을 수 없습니다."
  const BriefingPriceNotFound: string := "가격 정보를 찾을 수 없습니다."

  /** `read_asset_price`: the snapshot, or 404 when the lookup gives nothing. */
  function ReadAssetPrice(ticker: string, quotes: QuoteSource): (r: Reply<PriceInfo>)
    ensures r.HttpError? <==> GetCurrentPrice(ticker, quotes).None?
    ensures r.HttpError? ==> r.code == 404
    ensures r.Success? ==> r.body == GetCurrentPrice(ticker, quotes).value
    ensures r.Success? ==> r.body.code == NormalizeSymbol(ticker)
  {
    match GetCurrentPrice(ticker, quotes)
    case None => HttpError(404, PriceNotFound)
    case Some(data) => Success(data)
  }

  /** The `AiBriefingResponse` body; `ticker` is the path parameter as given. */
  datatype Briefing = Briefing(ticker: string, briefing: string)

  /** `read_asset_briefing`: 404 unless the price lookup answers; then the routes'
      integrated headlines for the ticker as given, and the analysis of both. */
  method ReadAssetBriefing(ticker: string, quotes: QuoteSource, search: NaverSearch, rss: RssSearch,
                           show: real -> string, gemini: Gemini)
    returns (r: Reply<Briefing>)
    ensures GetCurrentPrice(ticker, quotes).None? ==> r == HttpError(404, BriefingPriceNotFound)
    ensures GetCurrentPrice(ticker, quotes).Some? ==>
      r == Success(Briefing(ticker, Analysis(ticker, GetCurrentPrice(ticker, quotes).value,
                                             IntegratedHeadlines(ticker, search, rss), show, gemini)))
  {
    var priceInfo := GetCurrentPrice(ticker, quotes);
    if priceInfo.None? {
      return HttpError(404, BriefingPriceNotFound);
    }
    var newsList := GetIntegratedNews(ticker, search, rss);
    var briefingText := AnalyzeMarketData(ticker, priceInfo.value, newsList, show, gemini);
    return Success(Briefing(ticker, briefingText));
  }

  // ---- the watch list: create_interest, read_interests, delete_interest ----

  /** The `InterestCreate` body sent back by `create_interest`. */
  datatype Interest = Interest(ticker: string, category: string)

  const AlreadyWatched: string := "이미 관심 종목에 등록되어 있습니다."
  const NotWatched: string := "해당 종목이 관심 목록에 없습니다."

  /** What `create_interest` answers for a table and a request. */
  function CreateReply(rows: map<(nat, string), string>, userId: nat, ticker: string, category: string)
    : Reply<Interest>
  {
    if (userId, ticker) in rows then HttpError(400, AlreadyWatched) else Success(Interest(ticker, category))
  }

  /** The table after `create_interest`. */
  function AfterCreate(rows: map<(nat, string), string>, userId: nat, ticker: string, category: string)
    : map<(nat, string), string>
  {
    if (userId, ticker) in rows then rows else rows[(userId, ticker) := category]
  }

  /** What `delete_interest` answers. */
  function DeleteReply(rows: map<(nat, string), string>, userId: nat, ticker: string): Reply<string> {
    if (userId, ticker) in rows then Success(ticker + " 삭제 완료") else HttpError(404, NotWatched)
  }

  /** The table after `delete_interest`. */
  function AfterDelete(rows: map<(nat, string), string>, userId: nat, ticker: string): map<(nat, string), string> {
    rows - {(userId, ticker)}
  }

  /** The tickers one user watches (`user.interests`). */
  function Watched(rows: map<(nat, string), string>, userId: nat): set<string> {
    set key | key in rows && key.0 == userId :: key.1
  }

  class InterestTable {
    /** The `user_interests` rows: category by `(user_id, ticker)`. */
    var rows: map<(nat, string), string>

    constructor()
      ensures rows == map[]
    {
      rows := map[];
    }

    /** The `(user_id, ticker)` pairs present. */
    function Pairs(): set<(nat, string)>
      reads this
    {
      rows.Keys
    }

    /** `read_interests`: that user's rows, and no other user's, each ticker with its category. */
    function ReadInterests(userId: nat): (r: map<string, string>)
      reads this
      ensures forall t :: t in r <==> (userId, t) in rows
      ensures forall t | t in r :: r[t] == rows[(userId, t)]
    {
      map key | key in rows && key.0 == userId :: key.1 := rows[key]
    }

    method CreateInterest(userId: nat, ticker: string, category: string) returns (r: Reply<Interest>)
      modifies this
      ensures r == CreateReply(old(rows), userId, ticker, category)
      ensures rows == AfterCreate(old(rows), userId, ticker, category)
    {
      if (userId, ticker) in rows {
        return HttpError(400, AlreadyWatched);
      }
      rows := rows[(userId, ticker) := category];
      return Success(Interest(ticker, category));
    }

    method DeleteInterest(userId: nat, ticker: string) returns (r: Reply<string>)
      modifies this
      ensures r == DeleteReply(old(rows), userId, ticker)
      ensures rows == AfterDelete(old(rows), userId, ticker)
    {
      if (userId, ticker) !in rows {
        return HttpError(404, NotWatched);
      }
      rows := rows - {(userId, ticker)};
      return Success(ticker + " 삭제 완료");
    }
  }

  /** A duplicate add is refused with 400 and changes nothing; a fresh add inserts
      exactly that pair and leaves every other row as it was. */
  lemma CreateInterestRule(rows: map<(nat, string), string>, userId: nat, ticker: string, category: string)
    ensures var r := CreateReply(rows, userId, ticker, category);
      var after := AfterCreate(rows, userId, ticker, category);
      && (r.HttpError? <==> (userId, ticker) in rows)
      && (r.HttpError? ==> r.code == 400 && after == rows)
      && (r.Success? ==> after.Keys == rows.Keys + {(userId, ticker)} && after[(userId, ticker)] == category)
      && forall key | key in rows && key != (userId, ticker) :: key in after && after[key] == rows[key]
  {
  }

  /** Deleting a missing pair is 404 and changes nothing; otherwise only that pair goes. */
  lemma DeleteInterestRule(rows: map<(nat, string), string>, userId: nat, ticker: string)
    ensures var r := DeleteReply(rows, userId, ticker);
      var after := AfterDelete(rows, userId, ticker);
      && (r.HttpError? <==> (userId, ticker) !in rows)
      && (r.HttpError? ==> r.code == 404 && after == rows)
      && after.Keys == rows.Keys - {(userId, ticker)}
      && forall key | key in after :: after[key] == rows[key]
  {
  }

  /** Adding a new pair and then deleting it gives the table back. */
  lemma CreateThenDeleteRestores(rows: map<(nat, string), string>, userId: nat, ticker: string, category: string)
    requires (userId, ticker) !in rows
    ensures AfterDelete(AfterCreate(rows, userId, ticker, category), userId, ticker) == rows
  {
    var after := AfterDelete(AfterCreate(rows, userId, ticker, category), userId, ticker);
    assert after.Keys == rows.Keys;
  }

  /** An add shows up in the user's list and only there; a delete takes it out. */
  lemma WatchedAfterChanges(rows: map<(nat, string), string>, userId: nat, other: nat, ticker: string, category: string)
    requires other != userId
    ensures Watched(AfterCreate(rows, userId, ticker, category), userId) == Watched(rows, userId) + {ticker}
    ensures Watched(AfterCreate(rows, userId, ticker, category), other) == Watched(rows, other)
    ensures Watched(AfterDelete(rows, userId, ticker), userId) == Watched(rows, userId) - {ticker}
    ensures Watched(AfterDelete(rows, userId, ticker), other) == Watched(rows, other)
  {
    var added := AfterCreate(rows, userId, ticker, category);
    assert (userId, ticker) in added;
    assert ticker in Watched(added, userId);
  }

  // ---- create_user and login_for_access_token ----

  /** A `users` row; the e-mail is the directory key. */
  datatype Account = Account(id: nat, email: string, hashedPassword: string, nickname: Option<string>)

  /** The login answer (`Token`). */
  datatype Token = Token(accessToken: string, tokenType: string, nickname: string)

  const EmailTaken: string := "이미 등록된 이메일입니다."
  const BadCredentials: string := "이메일 또는 비밀번호가 잘못되었습니다."
  const DefaultNickname: string := "사용자"

  /** The nickname shown at login: the stored one when present and non-empty, else the default. */
  function NicknameOrDefault(nickname: Option<string>): (r: string)
    ensures r != ""
    ensures nickname.Some? && nickname.value != "" ==> r == nickname.value
    ensures nickname.None? || nickname.value == "" ==> r == DefaultNickname
  {
    if nickname.Some? && nickname.value != "" then nickname.value else DefaultNickname
  }

  /** What `login_for_access_token` answers; `verify` is the password check and
      `issue` makes the token for an e-mail. */
  function LoginReply(accounts: map<string, Account>, email: string, password: string,
                      verify: (string, string) -> bool, issue: string -> string): (r: Reply<Token>)
    ensures r.HttpError? <==> email !in accounts || !verify(password, accounts[email].hashedPassword)
    ensures r.HttpError? ==> r.code == 401 && r.detail == BadCredentials
    ensures r.Success? ==> r.body == Token(issue(email), "bearer", NicknameOrDefault(accounts[email].nickname))
  {
    if email !in accounts || !verify(password, accounts[email].hashedPassword) then
      HttpError(401, BadCredentials)
    else
      Success(Token(issue(email), "bearer", NicknameOrDefault(accounts[email].nickname)))
  }

  class UserDirectory {
    /** The `users` table by e-mail. */
    var accounts: map<string, Account>
    /** The next primary key the database hands out. */
    var nextId: nat

    /** Every row is filed under its own e-mail, and ids are distinct and already handed out. */
    ghost predicate Valid()
      reads this
    {
      && (forall e | e in accounts :: accounts[e].email == e && accounts[e].id < nextId)
      && (forall e1, e2 | e1 in accounts && e2 in accounts && e1 != e2 :: accounts[e1].id != accounts[e2].id)
    }

    constructor()
      ensures Valid() && accounts == map[]
    {
      accounts := map[];
      nextId := 1;
    }

    /** `create_user`: 400 for a registered e-mail; otherwise a new row with the
        hashed password (`hash`) and the next id. */
    method CreateUser(email: string, password: string, nickname: Option<string>, hash: string -> string)
      returns (r: Reply<Account>)
      requires Valid()
      modifies this
      ensures Valid()
      ensures email in old(accounts) ==>
        r == HttpError(400, EmailTaken) && accounts == old(accounts) && nextId == old(nextId)
      ensures email !in old(accounts) ==>
        && r == Success(Account(old(nextId), email, hash(password), nickname))
        && accounts == old(accounts)[email := r.body]
        && nextId == old(nextId) + 1
    {
      if email in accounts {
        return HttpError(400, EmailTaken);
      }
      var user := Account(nextId, email, hash(password), nickname);
      accounts := accounts[email := user];
      nextId := nextId + 1;
      return Success(user);
    }

    /** `login`: 401 unless the e-mail is registered and the password matches its hash. */
    function Login(email: string, password: string, verify: (string, string) -> bool, issue: string -> string)
      : (r: Reply<Token>)
      reads this
      ensures r.Success? <==> email in accounts && verify(password, accounts[email].hashedPassword)
      ensures r.Success? ==> r.body.accessToken == issue(email) && r.body.tokenType == "bearer"
    {
      LoginReply(accounts, email, password, verify, issue)
    }
  }

  /** After a successful signup the account logs in with its own password (for any
      check that accepts a password against its hash), and the token carries the
      nickname or its default. */
  lemma SignupThenLogin(accounts: map<string, Account>, id: nat, email: string, password: string,
                        nickname: Option<string>, hash: string -> string,
                        verify: (string, string) -> bool, issue: string -> string)
    requires verify(password, hash(password))
    ensures var after := accounts[email := Account(id, email, hash(password), nickname)];
      LoginReply(after, email, password, verify, issue) == Success(Token(issue(email), "bearer", NicknameOrDefault(nickname)))
  {
  }
}

/**
 * The logic of the Funda gateway: deriving a listing's public id from its
 * detail URL, turning the search route's string parameters into the one
 * upstream search call, keying search results by public id, and keying a
 * listing's price history by date. The scraping client is not modelled: its
 * answers (the search results, each result's `detail_url` and `to_dict()`,
 * the price-history points) are inputs.
 */
module FundaGateway {
  import opened Wrappers
  import opened Builtins
  import opened IntLiteral
  import opened DictComprehension

  /** The JSON scalars the gateway's records hold. */
  datatype Json = Null | Bool(b: bool) | Int(n: int) | Str(s: string)

  /** A JSON object, such as one price-history point. */
  type Record = map<string, Json>

  /** The exceptions the gateway's code can raise or declares. */
  datatype GatewayError =
    | InvalidListingUrl(url: string)  // the ValueError of fetch_public_id
    | InvalidLiteral(text: string)    // the ValueError of int(text)
    | MissingKey(key: string)         // the KeyError of item[key]

  // ---------------------------------------------------------------------------
  // fetch_public_id

  /**
   * `url.rstrip("/").split("/")[-1]`, with `IndexError` turned into the
   * `ValueError` for an invalid listing URL. That error never happens: the
   * split always has a last piece. The id never contains a `/`.
   */
  function FetchPublicId(url: string): (r: Result<string, GatewayError>)
    ensures r.Ok?
    ensures r.Ok? ==> '/' !in r.value
  {
    match Last(Split(RStrip(url, '/'), '/'))
    case Ok(id) => Ok(id)
    case Err(_) => Err(InvalidListingUrl(url))
  }

  /** The public id of a URL, as the search handler uses it: the value
      `fetch_public_id` always returns, free of `/`. */
  function PublicId(url: string): (id: string)
    ensures '/' !in id
    ensures FetchPublicId(url) == Ok(id)
  {
    FetchPublicId(url).value
  }

  /** The public id is what follows the last `/` once trailing slashes are gone. */
  lemma FetchPublicIdIsAfterLast(url: string)
    ensures FetchPublicId(url) == Ok(AfterLast(RStrip(url, '/'), '/'))
  {
    LastPieceIsAfterLast(RStrip(url, '/'), '/');
  }

  /** A URL ending in a non-empty, slash-free segment, with or without one
      trailing slash, has that segment as its public id. */
  lemma FetchPublicIdOfSegment(prefix: string, segment: string)
    requires segment != [] && '/' !in segment
    ensures FetchPublicId(prefix + "/" + segment) == Ok(segment)
    ensures FetchPublicId(prefix + "/" + segment + "/") == Ok(segment)
  {
    var url := prefix + "/" + segment;
    assert url[|url| - 1] == segment[|segment| - 1];
    assert segment[|segment| - 1] in segment;
    assert RStrip(url, '/') == url;
    RStripAppend(url, '/');
    FetchPublicIdIsAfterLast(url);
    AfterLastOfSuffix(prefix, '/', segment);
  }

  /** Trailing slashes do not matter. */
  lemma FetchPublicIdIgnoresTrailingSlash(url: string)
    ensures FetchPublicId(url + "/") == FetchPublicId(url)
  {
    RStripAppend(url, '/');
  }

  /** A public id is its own public id. */
  lemma FetchPublicIdIdempotent(url: string)
    ensures FetchPublicId(PublicId(url)) == FetchPublicId(url)
  {
    var id := PublicId(url);
    if id != [] {
      assert id[|id| - 1] in id;
    }
    assert RStrip(id, '/') == id;
    SplitOfSeparatorFree(id, '/');
  }

  /** The first listing URL of the gateway's tests, which ends in a slash. */
  lemma FetchPublicIdOfListingUrl(url: string)
    requires url == "https://www.funda.nl/detail/koop/amsterdam/appartement-aragohof-11-1/43242669/"
    ensures FetchPublicId(url) == Ok("43242669")
  {
    FetchPublicIdOfSegment("https://www.funda.nl/detail/koop/amsterdam/appartement-aragohof-11-1", "43242669");
    assert url == "https://www.funda.nl/detail/koop/amsterdam/appartement-aragohof-11-1" + "/" + "43242669" + "/";
  }

  /** The second listing URL of the gateway's tests, which has no trailing slash. */
  lemma FetchPublicIdOfListingUrlWithoutSlash(url: string)
    requires url == "https://www.funda.nl/detail/koop/utrecht/huis-test/12345678"
    ensures FetchPublicId(url) == Ok("12345678")
  {
    FetchPublicIdOfSegment("https://www.funda.nl/detail/koop/utrecht/huis-test", "12345678");
    assert url == "https://www.funda.nl/detail/koop/utrecht/huis-test" + "/" + "12345678";
  }

  /** A URL without a path is not rejected: its id is the host name. */
  lemma FetchPublicIdOfBareHost(scheme: string, host: string)
    requires host != [] && '/' !in host
    ensures FetchPublicId(scheme + "//" + host) == Ok(host)
    ensures FetchPublicId(scheme + "//" + host + "/") == Ok(host)
  {
    FetchPublicIdOfSegment(scheme + "/", host);
    assert scheme + "//" + host == scheme + "/" + "/" + host;
  }

  /** The empty URL is not rejected either: its id is empty. */
  lemma FetchPublicIdOfEmptyUrl()
    ensures FetchPublicId("") == Ok("")
  {
  }

  // ---------------------------------------------------------------------------
  // search_listings

  /** The raw `page` argument: the handler's default is the integer 0, a query
      string supplies text. */
  datatype PageArg = PageNumber(n: int) | PageText(text: string)

  /** The search route's arguments as the HTTP layer hands them over. */
  datatype SearchParams = SearchParams(
    location: string,
    offeringType: string,
    radiusKm: string,
    priceMin: string,
    priceMax: string,
    areaMin: string,
    areaMax: string,
    plotMin: string,
    plotMax: string,
    objectType: seq<string>,
    energyLabel: seq<string>,
    sort: string,
    page: PageArg)

  /** The arguments of the one upstream `search_listing` call. */
  datatype SearchCall = SearchCall(
    location: string,
    offeringType: string,
    radiusKm: int,
    priceMin: int,
    priceMax: int,
    areaMin: int,
    areaMax: int,
    plotMin: int,
    plotMax: int,
    objectType: seq<string>,
    energyLabel: seq<string>,
    sort: string,
    page: int)

  /** The numeric filters, in the order the call's arguments evaluate them. */
  function NumericTexts(p: SearchParams): seq<string>
  {
    [p.radiusKm, p.priceMin, p.priceMax, p.areaMin, p.areaMax, p.plotMin, p.plotMax]
  }

  /** `int(page)`: an integer is passed through unchanged and never fails; text
      is parsed as `int()` parses it. */
  function PageInt(page: PageArg): (r: Option<int>)
    ensures page.PageNumber? ==> r == Some(page.n)
    ensures page.PageText? ==> r == ParseInt(page.text)
    ensures r.None? ==> page.PageText?
  {
    match page
    case PageNumber(n) => Some(n)
    case PageText(t) => ParseInt(t)
  }

  /** `texts[i]` is the first of `texts` that `int()` rejects. */
  ghost predicate FirstUnparsable(texts: seq<string>, i: int)
  {
    && 0 <= i < |texts|
    && ParseInt(texts[i]) == None
    && forall j :: 0 <= j < i ==> ParseInt(texts[j]).Some?
  }

  /** `int(t)` for each of `texts` from left to right; the first failure raises. */
  function ParseAll(texts: seq<string>): (r: Result<seq<int>, GatewayError>)
    ensures r.Ok? ==> |r.value| == |texts| && forall i :: 0 <= i < |texts| ==> ParseInt(texts[i]) == Some(r.value[i])
    ensures r.Err? ==> exists i :: FirstUnparsable(texts, i) && r.error == InvalidLiteral(texts[i])
    decreases |texts|
  {
    if texts == [] then Ok([])
    else
      match ParseInt(texts[0])
      case None => assert FirstUnparsable(texts, 0); Err(InvalidLiteral(texts[0]))
      case Some(n) =>
        match ParseAll(texts[1..])
        case Err(e) =>
          assert exists i :: FirstUnparsable(texts, i) && e == InvalidLiteral(texts[i]) by {
            var i :| FirstUnparsable(texts[1..], i) && e == InvalidLiteral(texts[1..][i]);
            assert FirstUnparsable(texts, i + 1);
          }
          Err(e)
        case Ok(ns) => Ok([n] + ns)
  }

  /** `call` is what the handler passes upstream for `p`: the strings and lists
      unchanged, every numeric filter and the page as `int()` reads them. */
  ghost predicate Forwards(p: SearchParams, call: SearchCall)
  {
    && call.location == p.location
    && call.offeringType == p.offeringType
    && ParseInt(p.radiusKm) == Some(call.radiusKm)
    && ParseInt(p.priceMin) == Some(call.priceMin)
    && ParseInt(p.priceMax) == Some(call.priceMax)
    && ParseInt(p.areaMin) == Some(call.areaMin)
    && ParseInt(p.areaMax) == Some(call.areaMax)
    && ParseInt(p.plotMin) == Some(call.plotMin)
    && ParseInt(p.plotMax) == Some(call.plotMax)
    && call.objectType == p.objectType
    && call.energyLabel == p.energyLabel
    && call.sort == p.sort
    && PageInt(p.page) == Some(call.page)
  }

  /**
   * The arguments of `f.search_listing(...)`. It fails exactly when some
   * numeric filter or the page is not an integer literal, with the `ValueError`
   * of the first such argument in evaluation order.
   */
  function BuildSearchCall(p: SearchParams): (r: Result<SearchCall, GatewayError>)
    ensures r.Ok? <==> (forall i :: 0 <= i < 7 ==> ParseInt(NumericTexts(p)[i]).Some?) && PageInt(p.page).Some?
    ensures r.Ok? ==> Forwards(p, r.value)
    ensures r.Err? ==>
      (exists i :: FirstUnparsable(NumericTexts(p), i) && r.error == InvalidLiteral(NumericTexts(p)[i]))
      || ((forall i :: 0 <= i < 7 ==> ParseInt(NumericTexts(p)[i]).Some?)
          && p.page.PageText? && ParseInt(p.page.text) == None && r.error == InvalidLiteral(p.page.text))
  {
    match ParseAll(NumericTexts(p))
    case Err(e) => Err(e)
    case Ok(ns) =>
      match p.page
      case PageNumber(n) =>
        Ok(SearchCall(p.location, p.offeringType, ns[0], ns[1], ns[2], ns[3], ns[4], ns[5], ns[6],
                      p.objectType, p.energyLabel, p.sort, n))
      case PageText(t) =>
        match ParseInt(t)
        case None => Err(InvalidLiteral(t))
        case Some(n) =>
          Ok(SearchCall(p.location, p.offeringType, ns[0], ns[1], ns[2], ns[3], ns[4], ns[5], ns[6],
                        p.objectType, p.energyLabel, p.sort, n))
  }

  /**
   * `{fetch_public_id(item["detail_url"]): item.to_dict() for item in results}`.
   * Its keys are the results' public ids; a public id shared by several results
   * holds the `to_dict()` of the last of them; there are no more entries than
   * results, and none for no results.
   */
  function SearchResponse<L, V>(results: seq<L>, detailUrl: L -> string, toDict: L -> V): (m: map<string, V>)
    ensures m.Keys == set i | 0 <= i < |results| :: PublicId(detailUrl(results[i]))
    ensures |m| <= |results|
    ensures results == [] ==> m == map[]
    ensures forall i ::
              (0 <= i < |results|
               && (forall j :: i < j < |results| ==> PublicId(detailUrl(results[j])) != PublicId(detailUrl(results[i]))))
              ==> m[PublicId(detailUrl(results[i]))] == toDict(results[i])
    ensures forall id :: id in m ==>
      exists i :: 0 <= i < |results| && PublicId(detailUrl(results[i])) == id && m[id] == toDict(results[i])
  {
    ByPublicIdKeys(results, detailUrl, toDict);
    ByPublicIdLastWins(results, detailUrl, toDict);
    ByPublicIdOrigin(results, detailUrl, toDict);
    ByPublicId(results, detailUrl, toDict)
  }

  /** The comprehension keyed by public id. */
  function ByPublicId<L, V>(results: seq<L>, detailUrl: L -> string, toDict: L -> V): map<string, V>
  {
    DictFrom(results, (l: L) => PublicId(detailUrl(l)), toDict)
  }

  lemma ByPublicIdKeys<L, V>(results: seq<L>, detailUrl: L -> string, toDict: L -> V)
    ensures ByPublicId(results, detailUrl, toDict).Keys == set i | 0 <= i < |results| :: PublicId(detailUrl(results[i]))
  {
    var key := (l: L) => PublicId(detailUrl(l));
    assert forall i :: 0 <= i < |results| ==> key(results[i]) == PublicId(detailUrl(results[i]));
  }

  lemma ByPublicIdLastWins<L, V>(results: seq<L>, detailUrl: L -> string, toDict: L -> V)
    ensures forall i ::
              (0 <= i < |results|
               && (forall j :: i < j < |results| ==> PublicId(detailUrl(results[j])) != PublicId(detailUrl(results[i]))))
              ==> ByPublicId(results, detailUrl, toDict)[PublicId(detailUrl(results[i]))] == toDict(results[i])
  {
    var key := (l: L) => PublicId(detailUrl(l));
    forall i | 0 <= i < |results|
        && (forall j :: i < j < |results| ==> PublicId(detailUrl(results[j])) != PublicId(detailUrl(results[i])))
      ensures ByPublicId(results, detailUrl, toDict)[PublicId(detailUrl(results[i]))] == toDict(results[i])
    {
      assert LastWithKey(results, key, i);
    }
  }

  lemma ByPublicIdOrigin<L, V>(results: seq<L>, detailUrl: L -> string, toDict: L -> V)
    ensures var m := ByPublicId(results, detailUrl, toDict);
      forall id :: id in m ==>
        exists i :: 0 <= i < |results| && PublicId(detailUrl(results[i])) == id && m[id] == toDict(results[i])
  {
    var key := (l: L) => PublicId(detailUrl(l));
    var m := ByPublicId(results, detailUrl, toDict);
    forall id | id in m
      ensures exists i :: 0 <= i < |results| && PublicId(detailUrl(results[i])) == id && m[id] == toDict(results[i])
    {
      var i :| 0 <= i < |results| && key(results[i]) == id && m[id] == toDict(results[i]);
    }
  }

  /** What one request to the search route does: the upstream calls it makes, in order, and its response. */
  datatype SearchExchange<V> = SearchExchange(upstreamCalls: seq<SearchCall>, response: Result<map<string, V>, GatewayError>)

  /**
   * The search route's handler. It makes at most one upstream call, and makes it
   * exactly when the arguments parse; that call forwards the parsed arguments,
   * and the response keys that call's results by public id. Otherwise the
   * request fails with the parse error and nothing is sent upstream.
   */
  function SearchListings<L, V>(p: SearchParams, searchListing: SearchCall -> seq<L>,
                                detailUrl: L -> string, toDict: L -> V): (x: SearchExchange<V>)
    ensures |x.upstreamCalls| <= 1
    ensures x.response.Ok? <==> |x.upstreamCalls| == 1
    ensures x.response.Ok? <==> (forall i :: 0 <= i < 7 ==> ParseInt(NumericTexts(p)[i]).Some?) && PageInt(p.page).Some?
    ensures |x.upstreamCalls| == 1 ==> Forwards(p, x.upstreamCalls[0])
    ensures x.response.Ok? ==> x.response.value == SearchResponse(searchListing(x.upstreamCalls[0]), detailUrl, toDict)
    ensures x.response.Err? ==> x.response.error.InvalidLiteral? && ParseInt(x.response.error.text) == None
    ensures x.response.Err? ==> BuildSearchCall(p) == Err(x.response.error)
  {
    match BuildSearchCall(p)
    case Err(e) => SearchExchange([], Err(e))
    case Ok(call) => SearchExchange([call], Ok(SearchResponse(searchListing(call), detailUrl, toDict)))
  }

  // ---------------------------------------------------------------------------
  // get_price_history

  /** The key a point is filed under; only consulted for points that have a date. */
  function DateOf(point: Record): Json
  {
    if "date" in point then point["date"] else Null
  }

  /**
   * `{item["date"]: item for item in history}`. It fails with `KeyError` when
   * some point has no date. Otherwise its keys are the points' dates, every
   * point is filed under its own date, and of points sharing a date the last
   * one is kept.
   */
  function PriceHistoryResponse(history: seq<Record>): (r: Result<map<Json, Record>, GatewayError>)
    ensures r.Ok? <==> forall i :: 0 <= i < |history| ==> "date" in history[i]
    ensures r.Err? ==> r.error == MissingKey("date")
    ensures r.Ok? ==> r.value.Keys == set i | 0 <= i < |history| && "date" in history[i] :: history[i]["date"]
    ensures r.Ok? ==> forall date :: date in r.value ==> "date" in r.value[date] && r.value[date]["date"] == date
    ensures r.Ok? ==> forall i ::
              (0 <= i < |history| && "date" in history[i]
               && (forall j :: i < j < |history| && "date" in history[j] ==> history[j]["date"] != history[i]["date"]))
              ==> r.value[history[i]["date"]] == history[i]
    ensures r.Ok? ==> |r.value| <= |history|
  {
    if forall i :: 0 <= i < |history| ==> "date" in history[i] then
      ByDateKeys(history);
      ByDateConsistent(history);
      ByDateLastWins(history);
      Ok(ByDate(history))
    else
      Err(MissingKey("date"))
  }

  /** The comprehension keyed by `DateOf`, filing each point under its date. */
  function ByDate(history: seq<Record>): map<Json, Record>
  {
    DictFrom(history, DateOf, (point: Record) => point)
  }

  /** Over points that all have a date, the keys are exactly their dates. */
  lemma ByDateKeys(history: seq<Record>)
    requires forall i :: 0 <= i < |history| ==> "date" in history[i]
    ensures ByDate(history).Keys == (set i | 0 <= i < |history| && "date" in history[i] :: history[i]["date"])
  {
    assert forall i :: 0 <= i < |history| ==> DateOf(history[i]) == history[i]["date"];
  }

  /** Every point is filed under its own date. */
  lemma ByDateConsistent(history: seq<Record>)
    requires forall i :: 0 <= i < |history| ==> "date" in history[i]
    ensures forall date :: date in ByDate(history) ==> "date" in ByDate(history)[date] && ByDate(history)[date]["date"] == date
  {
    var m := ByDate(history);
    forall date | date in m ensures "date" in m[date] && m[date]["date"] == date {
      var i :| 0 <= i < |history| && DateOf(history[i]) == date && m[date] == history[i];
    }
  }

  /** Of points sharing a date, the last is kept. */
  lemma ByDateLastWins(history: seq<Record>)
    requires forall i :: 0 <= i < |history| ==> "date" in history[i]
    ensures forall i ::
              (0 <= i < |history|
               && (forall j :: i < j < |history| ==> history[j]["date"] != history[i]["date"]))
              ==> ByDate(history)[history[i]["date"]] == history[i]
  {
    forall i | 0 <= i < |history| && (forall j :: i < j < |history| ==> history[j]["date"] != history[i]["date"])
      ensures ByDate(history)[history[i]["date"]] == history[i]
    {
      assert LastWithKey(history, DateOf, i);
    }
  }

  /** The two-point history of the gateway's tests comes back keyed by its dates. */
  lemma PriceHistoryOfTwoMonths(january: Record, february: Record)
    requires january == map["date" := Str("2024-01-01"), "price" := Int(500000)]
    requires february == map["date" := Str("2024-02-01"), "price" := Int(495000)]
    ensures PriceHistoryResponse([january, february])
      == Ok(map[Str("2024-01-01") := january, Str("2024-02-01") := february])
  {
    var history := [january, february];
    var id := (point: Record) => point;
    assert DateOf(january) == Str("2024-01-01") && DateOf(february) == Str("2024-02-01");
    assert PriceHistoryResponse(history) == Ok(DictFrom(history, DateOf, id));
    calc {
      DictFrom(history, DateOf, id);
      InsertAll(map[], history, DateOf, id);
      { assert history[1..] == [february]; }
      InsertAll(map[Str("2024-01-01") := january], [february], DateOf, id);
      { assert [february][1..] == []; }
      InsertAll(map[Str("2024-01-01") := january, Str("2024-02-01") := february], [], DateOf, id);
      map[Str("2024-01-01") := january, Str("2024-02-01") := february];
    }
  }
}

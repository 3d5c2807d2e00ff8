# Funda gateway, modelled in Dafny

The Funda gateway is a small HTTP server in front of a scraping client for the
Dutch listing site Funda. It has three routes:

- `get_listing` returns the listing's `to_dict()`.
- `get_price_history` returns a listing's price history keyed by date.
- `search_listings` runs one search and returns the results keyed by each
  listing's *public id*, the last path segment of its detail URL.

This project models the gateway's own logic in `scripts/funda_gateway.py`:

- `fetch_public_id`;
- how `search_listings` turns its string query parameters into the one upstream
  search call, and how it keys the results;
- how `get_price_history` keys the history points by date.

The scraping client is not modelled. Its answers are inputs to the model:

- the search results;
- each result's `detail_url` and `to_dict()`, as opaque functions;
- the price-history points.

Files:

- `builtins.dfy` (module `Builtins`): the Python built-ins `fetch_public_id` is
  made of. These are `str.rstrip`, `str.split` with a one-character separator
  (with `Join` as its inverse), and `xs[-1]`.
- `int_literal.dfy` (module `IntLiteral`): `int(text)` for an optional sign
  followed by ASCII digits, with `str(n)` as its inverse.
- `dict_comprehension.dfy` (module `DictComprehension`): the dict comprehension
  `{key(x): val(x) for x in items}`. It inserts from left to right, so the last
  write wins.
- `funda_gateway.dfy` (module `FundaGateway`): public ids, the search route and
  the price-history route.
- `wrappers.dfy` (module `Wrappers`): `Option` and `Result`.

Main results:

- `fetch_public_id` never raises. Its `except IndexError` branch is dead code,
  because `str.split` always returns at least one piece (`FetchPublicId`).
- The public id never contains `/`. Trailing slashes do not change it. Applying
  `fetch_public_id` twice gives the same id as once.
- A search response has one entry per distinct public id. Each entry holds the
  `to_dict()` of the last result with that id.
- A price-history response has one entry per distinct date, holding the last
  point with that date, and every entry's `date` equals its key. A point
  without a `date` fails the request with `KeyError`.

The code never rejects a URL, although its `except IndexError` branch raises
`ValueError` for an "invalid" one. `"https://www.funda.nl/"` gives the id `"www.funda.nl"`
(`FetchPublicIdOfBareHost`), and `""` gives `""` (`FetchPublicIdOfEmptyUrl`).

## Model

| member | source | states |
|---|---|---|
| `Builtins.RStrip` | scripts/funda_gateway.py:25 | `url.rstrip("/")` is a prefix of `url` that does not end in `/`, and everything it drops is `/` |
| `Builtins.Split` | scripts/funda_gateway.py:25 | `split("/")` yields at least one piece, no piece holds `/`, and joining the pieces with `/` gives back the string |
| `Builtins.SplitJoin` | scripts/funda_gateway.py:25 | splitting the join of slash-free pieces gives back exactly those pieces |
| `Builtins.Last` | scripts/funda_gateway.py:25 | `xs[-1]` raises `IndexError` exactly when the list is empty, and otherwise yields its final element |
| `Builtins.LastPieceIsAfterLast` | scripts/funda_gateway.py:25 | the piece `[-1]` picks is the longest slash-free suffix of the string |
| `Builtins.AfterLastOfSuffix` | scripts/funda_gateway.py:25 | whatever precedes the final `/` does not affect the last piece |
| `Builtins.RStripAppend` | scripts/funda_gateway.py:25 | one more trailing `/` does not change `rstrip("/")` |
| `FundaGateway.FetchPublicId` | scripts/funda_gateway.py:20-27 | `fetch_public_id` always succeeds (the `IndexError` handler cannot run), and the id never contains `/` |
| `FundaGateway.PublicId` | scripts/funda_gateway.py:74 | the key the search comprehension computes is the value `fetch_public_id` returns, and it contains no `/` |
| `FundaGateway.FetchPublicIdIsAfterLast` | scripts/funda_gateway.py:25 | the id is the text after the last `/` once trailing slashes are stripped |
| `FundaGateway.FetchPublicIdOfSegment` | scripts/funda_gateway.py:25 | for `prefix + "/" + seg` with or without one trailing `/`, where `seg` is non-empty and slash-free, the id is `seg` |
| `FundaGateway.FetchPublicIdIgnoresTrailingSlash` | scripts/funda_gateway.py:25 | `fetch_public_id(u + "/") == fetch_public_id(u)` for every `u` |
| `FundaGateway.FetchPublicIdIdempotent` | scripts/funda_gateway.py:25 | a public id is its own public id |
| `FundaGateway.FetchPublicIdOfListingUrl` | tests/test_scripts.py:53-55 | the tests' listing URL with a trailing slash gives `43242669` |
| `FundaGateway.FetchPublicIdOfListingUrlWithoutSlash` | tests/test_scripts.py:57-59 | the tests' listing URL without a trailing slash gives `12345678` |
| `FundaGateway.FetchPublicIdOfBareHost` | scripts/funda_gateway.py:24-27 | a URL with no path, such as `https://www.funda.nl/`, is not rejected: its id is the host name |
| `FundaGateway.FetchPublicIdOfEmptyUrl` | scripts/funda_gateway.py:24-27 | the empty URL is not rejected: its id is empty |
| `IntLiteral.ParseInt` | scripts/funda_gateway.py:61-71 | `int(text)` succeeds exactly on one to 4300 ASCII digits, optionally after one `+` or `-`, and only a `-` gives a negative number; everything else is a `ValueError` |
| `IntLiteral.FormatNat` | scripts/funda_gateway.py:61-71 | every natural number has a non-empty digits-only spelling whose digit value is that number |
| `IntLiteral.ParseFormatInt` | scripts/funda_gateway.py:61-71 | `int(str(n)) == n` for every integer `n` of at most 4300 digits, the integers `str` can spell |
| `IntLiteral.FormatParseInt` | scripts/funda_gateway.py:61-71 | `str(int(s)) == s` for every literal `int()` accepts that has no `+`, no leading zero and is not `-0` |
| `IntLiteral.ParsePlus` | scripts/funda_gateway.py:61-71 | `int("+" + t) == int(t)` for every digit run `t` |
| `IntLiteral.ParseMinus` | scripts/funda_gateway.py:61-71 | `int("-" + t) == -int(t)` for every digit run `t`, so `int("-0") == 0` |
| `IntLiteral.ParseLeadingZero` | scripts/funda_gateway.py:61-71 | `int("0" + t) == int(t)` for every digit run `t` within the length limit, so `int("007") == 7`; with `FormatParseInt` and the two sign lemmas this fixes the value of every literal `int()` accepts |
| `FundaGateway.PageInt` | scripts/funda_gateway.py:71 | `int(page)` passes the integer default through and never fails on it; page text is read as `int()` reads it |
| `FundaGateway.ParseAll` | scripts/funda_gateway.py:61-67 | the numeric filters parse from left to right; on success every value is `int()` of its text; on failure the error names the first text `int()` rejects |
| `FundaGateway.BuildSearchCall` | scripts/funda_gateway.py:58-72 | the upstream call exists exactly when every numeric filter and the page parse; it forwards location, offering type, object types, energy labels and sort unchanged and every number as `int()` reads it; otherwise it fails with the `ValueError` of the first bad argument in evaluation order |
| `DictComprehension.DictFrom` | scripts/funda_gateway.py:73-75 | a dict comprehension's keys are exactly the items' keys; each key holds the value of the last item with that key; every entry comes from an item; there are at most as many entries as items |
| `DictComprehension.InsertAll` | scripts/funda_gateway.py:73-75 | evaluating a comprehension inserts the items left to right: no earlier key is lost, and the final item's value is the one stored under its key |
| `DictComprehension.InsertAllKeys` | scripts/funda_gateway.py:73-75 | inserting items left to right adds exactly their keys to the dict |
| `DictComprehension.InsertAllLastWins` | scripts/funda_gateway.py:73-75 | after inserting items left to right, the last item with a key decides that key's value |
| `FundaGateway.SearchResponse` | scripts/funda_gateway.py:73-75 | the keys are the results' public ids; on a shared id the last result's `to_dict()` wins; every entry is some result's `to_dict()` under its own id; at most one entry per result; no results give an empty map |
| `FundaGateway.SearchListings` | scripts/funda_gateway.py:58-76 | a search request makes at most one upstream call, and makes it exactly when the arguments parse; that call forwards the parsed arguments, and the response is its results keyed by public id; otherwise the request fails with the `ValueError` and nothing goes upstream |
| `FundaGateway.PriceHistoryResponse` | scripts/funda_gateway.py:40 | fails with `KeyError` exactly when some point has no `date`; otherwise the keys are the points' dates, every value's `date` equals its key, on a shared date the later point wins, and there are at most as many entries as points |
| `FundaGateway.PriceHistoryOfTwoMonths` | tests/test_scripts.py:446-479 | the tests' two-point history comes back keyed by its two dates |

## Left out

- `parse_args` (scripts/funda_gateway.py:9-17): command-line parsing, left to `argparse`.
- Route registration, parameter extraction by the HTTP framework and `server.start` (scripts/funda_gateway.py:33-57, 78). These are framework behaviour. The default argument values the search route declares (scripts/funda_gateway.py:44-56) are not modelled: the model takes the arguments as the framework hands them over.
- The `get_listing` route (scripts/funda_gateway.py:33-35) hands `f.get_listing(id).to_dict()` through and has no logic of its own.
- The `Funda` client's `search_listing`, `get_listing`, `get_price_history` and `to_dict()` are external. The search call and `to_dict()` are function parameters. The price history is an input sequence, so the `f.get_listing` call that precedes it is not modelled.
- `FundaGateway.SearchListings`: the upstream `f.search_listing` call, `item["detail_url"]` and `item.to_dict()` are total function parameters, assumed never to raise. In the program, an exception from any of them (a client timeout, say) fails the request even when the arguments parse. The model's "the response is `Ok` exactly when the arguments parse" holds only under that assumption.
- `FundaGateway.SearchResponse`: a Python dict keeps its keys in first-insertion order, and that order shows in the JSON body. A Dafny `map` has no order, so the model states which keys and values the response holds but not their order. The same holds for `FundaGateway.PriceHistoryResponse`.
- `item["detail_url"]` is assumed to yield a string. The model does not cover a listing without a detail URL, or with a non-string one.
- `IntLiteral.ParseInt`: accepts only an optional sign followed by 1 to 4300 ASCII digits. The 4300 is CPython's default `sys.get_int_max_str_digits()`; a process that changes that setting is not modelled. Python's `int()` also accepts surrounding whitespace, `_` between digits and non-ASCII digits; the model rejects those.
- `FundaGateway.PageInt`: the page is either the handler's integer default or text. A list-valued or other non-text `page` is not modelled.
- `FundaGateway.PriceHistoryResponse`: Python treats equal keys of different types as one key (`1`, `1.0` and `True`). The model's JSON values are always distinct across types, and floats are not modelled.
- `scripts/tls_client.py` forwards calls to `curl_cffi` and has no logic of its own.
- The tests in tests/test_scripts.py exercise helpers that scripts/funda_gateway.py does not define, so they are not part of this model:
  - the parameter normalisers `_as_list_param`, `_as_optional_int` and `_as_optional_str` (tests/test_scripts.py:61-80);
  - the port probe `is_port_listening` and the `server_host` argument (tests/test_scripts.py:98-105);
  - multi-page search with a delay between pages (tests/test_scripts.py:232-253);
  - the `page` alias for `pages` (tests/test_scripts.py:297-304).

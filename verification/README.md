# Link shortener: a Dafny model of its create / resolve / list core

This project models the URL shortener in `app/app.py`. That file is a Flask
application whose only state is the PostgreSQL table `urls(short_code,
original_url, created_at)`. Here the table becomes an in-memory store:
the class `App.UrlStore`, holding a sequence of rows and a logical clock.
The model covers:

- **`generate_short_code`** (module `ShortCode`): a code of `length`
  characters drawn from `ascii_letters + digits` (62 characters). A call is
  described by the indices it drew, so the generator is a total function
  from draws to code.
- **`shorten_url`** (`App.UrlStore.Shorten`), step by step:
  - the body check `not data or "url" not in data` gives 400;
  - a non-string `"url"` makes `.strip()` raise, so Flask answers 500;
  - Python's `str.strip()` (module `Text`) trims the URL, and an empty result
    gives 400;
  - the check-then-retry loop (`App.UrlStore.PickFreshCode`) generates
    codes until one is not in the table;
  - a URL containing U+0000 makes the INSERT raise, and Flask answers 500;
  - one row is inserted, and the route answers 201 with
    `short_url = "http://" + host + "/" + code`.
- **`redirect_to_url`** (`App.UrlStore.RedirectToUrl`): an exact-match
  lookup. A code containing U+0000 cannot be bound by the database driver,
  so the query raises and Flask answers 500. A hit gives a 302 redirect to the stored URL (section 15.4.3 of
  RFC 9110). A miss gives 404 (section 15.5.5 of RFC 9110).
- **`list_urls`** (`App.UrlStore.ListUrls`): every row, newest first, each
  with its short link. `ORDER BY created_at DESC` is modelled as a sort
  that lists rows with equal `created_at` newest insert first
  (`UrlsTable.OrderByCreatedAtDesc`).

The store invariant `App.UrlStore.Valid` is `UrlsTable.WellFormed`. It says
that:

- codes are unique (the `UNIQUE` constraint of the schema);
- codes have at most 10 characters (`VARCHAR(10)`);
- stored URLs are non-empty;
- `created_at` follows insertion order and never exceeds the clock.

`Shorten` preserves this invariant. Randomness and time are parameters:

- `rng` is the sequence of draws the random source yields;
- `elapsed` is the time that passed since the previous insert. A
  successful insert stamps `created_at` with `clock + elapsed`, so
  timestamps never decrease but can be equal.

## Model

| member | source | states |
|---|---|---|
| `ShortCode.GenerateShortCode` | app/app.py:85-99 | the code has exactly as many characters as there were draws, and every character is in the 62-character alphabet |
| `ShortCode.GenerateShortCodeAt` | app/app.py:99 | character i of the code is the alphabet character at draw i, so characters come in draw order |
| `ShortCode.AlphabetIsAlphanumeric` | app/app.py:91-98 | the alphabet has 62 pairwise distinct characters, and a character is in it exactly when it is an ASCII letter or digit |
| `ShortCode.AlphabetIsLettersThenDigits` | app/app.py:98 | the alphabet is the lowercase letters, then the uppercase letters, then the digits |
| `ShortCode.GenerateShortCodeOnto` | app/app.py:85-99 | every string of alphabet characters is the code for some draws, so every code of the right length can be produced |
| `ShortCode.GenerateShortCodeInjective` | app/app.py:99 | different draw sequences never give the same code |
| `Text.IsSpace` | app/app.py:130 | the characters Python's `str.isspace` accepts, which `str.strip()` removes: the ASCII controls TAB to CR and 0x1C to 0x1F, space, U+0085, U+00A0, U+1680, U+2000 to U+200A, U+2028, U+2029, U+202F, U+205F and U+3000 |
| `Text.LeadingSpace` | app/app.py:130 | the length of the whitespace run at the start of the input: everything before it is whitespace and the character after it is not |
| `Text.ContentEnd` | app/app.py:130 | where the whitespace run at the end of the input begins: everything from it on is whitespace and the character before it is not |
| `Text.Strip` | app/app.py:130 | `str.strip()`: `Text.StripShape` and `Text.StripTrimmed` together pin it down as the infix left after removing the longest whitespace prefix and suffix |
| `Text.StripTrimmed` | app/app.py:130 | a non-empty stripped URL neither starts nor ends with whitespace |
| `Text.StripShape` | app/app.py:130 | strip returns the infix of the input that lies between a whitespace-only prefix and a whitespace-only suffix |
| `Text.StripEmptyIffAllSpace` | app/app.py:130-133 | the stripped URL is empty exactly when the submitted URL is whitespace only |
| `Text.StripPadded` | app/app.py:129-130 | a URL with no whitespace at either end, padded with any whitespace, strips back to itself |
| `Text.StripIdempotent` | app/app.py:130 | stripping a stripped URL changes nothing |
| `UrlsTable.WellFormed` | app/app.py:73-78 | the table invariant: codes unique (`UNIQUE`) and at most 10 characters long (`VARCHAR(10)`), URLs non-empty (the check at app/app.py:132-133), `created_at` non-decreasing in insertion order and not ahead of the clock; `UrlsTable.InsertKeepsWellFormed` shows inserts keep it |
| `UrlsTable.InsertKeepsWellFormed` | app/app.py:73-78 | inserting a row with a new code of at most 10 characters, a non-empty URL and a time not before the clock keeps the table invariant |
| `UrlsTable.Lookup` | app/app.py:196-197 | the lookup finds nothing exactly when no row has the code, and otherwise returns the URL of a row with exactly that code |
| `UrlsTable.LookupStored` | app/app.py:75 | with unique codes, looking up any stored row's code returns that row's URL |
| `UrlsTable.LookupAppend` | app/app.py:152-155 | after inserting a row with a new code, that code resolves to the new URL and every other code resolves as before |
| `UrlsTable.InsertDesc` | app/app.py:223 | inserting one row into the listing adds exactly that row to its multiset of rows |
| `UrlsTable.InsertDescSorted` | app/app.py:223 | inserting into a newest-first listing keeps it newest first |
| `UrlsTable.OrderByCreatedAtDesc` | app/app.py:223 | the listing is ordered by created_at non-increasing and is a permutation of the rows |
| `UrlsTable.OrderOfAscendingIsReverse` | app/app.py:77 | when created_at follows insertion order, the model's listing (ties broken newest insert first) is the rows in reverse insertion order (A, B, C created gives C, B, A) |
| `UrlsTable.StrictListingIsReverse` | app/app.py:223 | when every row is strictly newer than the rows inserted before it, every ordering that `ORDER BY created_at DESC` may return (sorted newest first and a permutation of the rows) is reverse insertion order |
| `App.StatusCode` | app/app.py:125-207 | only the validation failure and the unknown code are 4xx responses, and only the redirect is 302 |
| `App.SubmittedUrl` | app/app.py:121-127 | a url value is found exactly when the body is a JSON object with a "url" key, and it is the value under that key |
| `App.ValidateRequest` | app/app.py:121-133 | a missing url is rejected with 400 and the missing-url message, a non-string url with 500, a whitespace-only url with 400 and the empty-url message; any other url is accepted as its stripped form, which is non-empty with no whitespace at either end |
| `App.ShortUrl` | app/app.py:164 | the short link `http://<host>/<code>`, also built for each listed row (app/app.py:237); `App.ShortUrlRoundTrip` shows the route recovers the code from it |
| `App.CodeFromShortUrl` | app/app.py:174 | the code the `/<short_code>` route captures from a link whose path is one plain segment (no `/`, `?`, `#` or `%`): a non-empty segment from which `App.ShortUrl` rebuilds the link; other links give nothing |
| `App.Bindable` | app/app.py:152-155 | a string the database driver can bind as a query parameter: one without U+0000 |
| `App.ShortUrlRoundTrip` | app/app.py:163-164 | following the short link built for a non-empty code leads the `/<short_code>` route back to that code |
| `App.Candidates` | app/app.py:142-145 | each successive generate_short_code() call yields a code of the default length 6 over the alphabet |
| `App.CandidatesCount` | app/app.py:142-145 | every 6 draws yield one candidate code |
| `App.FirstFresh` | app/app.py:142-146 | the chosen position holds a code not in the table, and every earlier candidate is in the table; with no position, every candidate is in the table |
| `App.CandidatesStep` | app/app.py:145 | when the stream has draws for another code, the next candidate is the code generated from the next 6 draws and the rest of the stream follows it |
| `App.FirstFreshAt` | app/app.py:144-146 | after candidates that were all taken, a free candidate is the one the loop stops at |
| `App.UrlStore.Valid` | app/app.py:73-78 | the store invariant is `UrlsTable.WellFormed` of the rows and the clock |
| `App.UrlStore.constructor` | app/app.py:56-82 | a first start on an empty database: the new table is empty and satisfies the store invariant |
| `App.UrlStore.CodeExists` | app/app.py:143-144 | the existence query is true exactly when some row has the code |
| `App.UrlStore.PickFreshCode` | app/app.py:142-146 | the retry loop returns the first generated code that is not in the table, or nothing when the supplied draws run out first |
| `App.UrlStore.Insert` | app/app.py:152-156 | appends exactly one row with the new code, the URL and the advanced clock; keeps the store invariant; afterwards the new code resolves to the URL and every other code resolves as before |
| `App.UrlStore.RedirectToUrl` | app/app.py:174-207 | a code containing U+0000 makes the query raise (500); any other code gets a 302 redirect to the URL stored under exactly this code, or 404 exactly when no row has it; it only reads the store |
| `App.UrlStore.ListUrls` | app/app.py:210-241 | lists every row once, ordered by created_at non-increasing, each with short_url = "http://" + host + "/" + code; in a valid store, with ties broken newest insert first, the order is reverse insertion order |
| `App.UrlStore.Shorten` | app/app.py:104-171 | a rejected request (see `App.ValidateRequest`) gets that rejection and leaves table and clock unchanged; a URL containing U+0000 makes the INSERT raise (500) and nothing is stored; otherwise the answer is 201 with the first candidate code not in the table, its short link and the stripped URL, and exactly one row is appended with that code and URL; the store invariant holds; the new code has 6 alphanumeric characters, was not in the table before and resolves to the stripped URL; its short link leads back to it; old codes resolve as before |

## Left out

- Database connections, cursors and commits (`get_db_connection`, app/app.py:31-53) are I/O. The table is an in-memory sequence of rows.
- The DDL in `init_db` (app/app.py:56-82, 101, 279) is not modelled. Only its constraints survive, in the store invariant: unique codes and `VARCHAR(10)`. The invariant's non-empty URLs come from the application's own check (app/app.py:132-133); `TEXT NOT NULL` alone would accept an empty string. The `id SERIAL` column is represented only by the order of the rows.
- Environment configuration (app/app.py:24-28) and the Flask application and server start-up (app/app.py:17, 278-280) are left out.
- Flask request parsing, `jsonify` and `redirect` are left out. The body is `App.Body`: `NoJson` when `request.get_json()` returns None (a JSON `null` body, or a non-JSON content type before Werkzeug 2.1), or a JSON object. Malformed JSON (any version), and a non-JSON content type from Werkzeug 2.1 on, make `get_json()` raise at app/app.py:121 (400, or 415 from Werkzeug 2.3); these error responses are Flask's own and are not modelled. JSON bodies that are booleans, arrays, strings or numbers are not modelled (for example `false` gets the route's 400 through `not data`, and `true` gets 500 because `"url" in True` raises). The `"url"` value is either a string or "some other JSON value".
- `App.UrlStore.Shorten`: the source's retry loop has no bound (app/app.py:144). The model takes a finite stream of draws and returns the model-only response `Exhausted` when the stream runs out before a free code appears. That response leaves the store unchanged. The source would keep drawing instead.
- `random.choices` (app/app.py:99) cannot be verified. Its draws are a parameter, so uniform distribution is not modelled.
- `App.UrlStore.Insert`: requires a code the table does not have and a non-empty URL, instead of modelling the error that the `UNIQUE` constraint (app/app.py:75) would raise on a duplicate code; with one request at a time, `Shorten` only inserts a code it has just checked is free.
- App.UrlStore.Shorten, App.UrlStore.RedirectToUrl: a JSON string with an unpaired surrogate makes the driver fail to encode it (a 500). Dafny's `char` has no unpaired surrogates, so this case is not modelled.
- Concurrency is out of scope. Requests are served one at a time, so the race between the existence check and the insert across requests is not modelled, and neither is the rejection of a duplicate insert by the `UNIQUE` constraint.
- The health check (app/app.py:244-264) is I/O and exception handling.
- `created_at` is a natural-number logical clock. `NOW()` and the `isoformat()` serialisation (app/app.py:238) are not modelled. The `else None` branch for a missing timestamp is never reached in the model, because every row gets a time when it is inserted.
- `UrlsTable.OrderByCreatedAtDesc`: PostgreSQL may return rows with equal `created_at` in any order. The model fixes one order, with the newest insert first. `UrlsTable.StrictListingIsReverse` shows that without ties every order the database may return is reverse insertion order.

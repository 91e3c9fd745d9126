/**
  The three routes of app/app.py over an in-memory `urls` table:
  `POST /api/shorten` (shorten_url), `GET /<short_code>` (redirect_to_url)
  and `GET /api/urls` (list_urls). Requests are served one at a time.
*/
module App {
  import opened Wrappers
  import opened ShortCode
  import opened Text
  import opened UrlsTable

  /** The `"url"` member of the JSON body: a string, or any other JSON value. */
  datatype JsonValue = JString(text: string) | JOther

  /**
    What `request.get_json()` hands the route: `NoJson` when it returns None
    (a JSON `null` body, or a body whose content type is not JSON before
    Werkzeug 2.1), or a JSON object.
  */
  datatype Body = NoJson | JsonObject(fields: map<string, JsonValue>)

  /** The responses the routes send. */
  datatype Response =
    | Created(shortCode: string, shortUrl: string, originalUrl: string)
    | BadRequest(error: string)
    | Redirect(location: string)
    | NotFound(error: string)
      /** An exception escaping the view function. */
    | ServerError
      /** The supplied draws ran out before a free code appeared; the source would keep drawing. */
    | Exhausted

  const MissingUrlError: string := "Missing 'url' in request body"
  const EmptyUrlError: string := "URL cannot be empty"
  const NotFoundError: string := "Short URL not found"

  /**
    The HTTP status of each response (sections 15.3.2, 15.4.3, 15.5.1,
    15.5.5, 15.6.1 and 15.6.4 of RFC 9110). Only a bad request and an
    unknown code are the client's fault.
  */
  function StatusCode(r: Response): (status: nat)
    ensures 400 <= status < 500 <==> r.BadRequest? || r.NotFound?
    ensures r.Redirect? <==> status == 302
  {
    match r
    case Created(_, _, _) => 201
    case BadRequest(_) => 400
    case Redirect(_) => 302
    case NotFound(_) => 404
    case ServerError => 500
    case Exhausted => 503
  }

  /**
    The `"url"` value of the body, or None when `not data or "url" not in
    data` rejects the request.
  */
  function SubmittedUrl(body: Body): (v: Option<JsonValue>)
    ensures v.Some? <==> body.JsonObject? && "url" in body.fields
    ensures v.Some? ==> v.value == body.fields["url"]
  {
    if body.NoJson? || body.fields == map[] || "url" !in body.fields then None
    else Some(body.fields["url"])
  }

  /** The outcome of the checks at the top of `shorten_url`. */
  datatype Validation = Accepted(url: string) | Rejected(response: Response)

  /**
    The request checks of `shorten_url`: a missing `"url"` is a 400, a
    non-string one makes `.strip()` raise (a 500), and a URL that is empty
    after stripping is a 400. Otherwise the stripped URL goes on.
  */
  function ValidateRequest(body: Body): (v: Validation)
    ensures SubmittedUrl(body).None? ==> v == Rejected(BadRequest(MissingUrlError))
    ensures SubmittedUrl(body) == Some(JOther) ==> v == Rejected(ServerError)
    ensures forall u :: SubmittedUrl(body) == Some(JString(u)) ==>
      if AllSpace(u) then v == Rejected(BadRequest(EmptyUrlError)) else v == Accepted(Strip(u))
    ensures v.Accepted? ==> v.url != "" && !IsSpace(v.url[0]) && !IsSpace(v.url[|v.url| - 1])
  {
    match SubmittedUrl(body)
    case None => Rejected(BadRequest(MissingUrlError))
    case Some(JOther) =>
      // `.strip()` on a non-string raises, and Flask answers 500.
      Rejected(ServerError)
    case Some(JString(u)) =>
      var url := Strip(u);
      StripEmptyIffAllSpace(u);
      StripTrimmed(u);
      if url == "" then Rejected(BadRequest(EmptyUrlError)) else Accepted(url)
  }

  /**
    The driver refuses to bind a string parameter that contains U+0000, so a
    query given such a string raises and the route answers 500.
  */
  predicate Bindable(s: string) {
    '\0' !in s
  }

  /** `f"http://{host}/{short_code}"` */
  function ShortUrl(host: string, code: string): string {
    "http://" + host + "/" + code
  }

  /**
    A path segment that reaches the route as written: no further `/`, no
    query or fragment, and no percent-escape for the router to decode.
  */
  predicate IsPlainSegment(s: string) {
    forall k | 0 <= k < |s| :: s[k] !in {'/', '?', '#', '%'}
  }

  /**
    The code that the route `/<short_code>` captures when a short link of
    `host` is followed, for links whose path is one plain segment after the
    host; None for any other link.
  */
  function CodeFromShortUrl(host: string, url: string): (code: Option<string>)
    ensures code.Some? ==> code.value != "" && IsPlainSegment(code.value) && ShortUrl(host, code.value) == url
  {
    var origin := "http://" + host + "/";
    if |origin| < |url| && url[..|origin|] == origin && IsPlainSegment(url[|origin|..]) then
      assert url == origin + url[|origin|..];
      Some(url[|origin|..])
    else
      None
  }

  /** Following a short link leads the route back to its code. */
  lemma {:induction false} ShortUrlRoundTrip(host: string, code: string)
    requires IsShortCode(code, |code|) && code != ""
    ensures CodeFromShortUrl(host, ShortUrl(host, code)) == Some(code)
  {
    var origin := "http://" + host + "/";
    var url := ShortUrl(host, code);
    assert url == origin + code;
    assert url[..|origin|] == origin;
    assert url[|origin|..] == code;
  }

  /**
    The codes that successive `generate_short_code()` calls return when the
    random source yields `rng`: each call consumes DefaultLength draws.
  */
  function Candidates(rng: seq<Draw>): (codes: seq<string>)
    ensures forall i | 0 <= i < |codes| :: IsShortCode(codes[i], DefaultLength)
    decreases |rng|
  {
    if |rng| < DefaultLength then []
    else [GenerateShortCode(rng[..DefaultLength])] + Candidates(rng[DefaultLength..])
  }

  /** Every DefaultLength draws make one candidate; leftover draws make none. */
  lemma {:induction false} CandidatesCount(rng: seq<Draw>)
    ensures |Candidates(rng)| == |rng| / DefaultLength
    decreases |rng|
  {
    if |rng| >= DefaultLength {
      CandidatesCount(rng[DefaultLength..]);
    }
  }

  /** The position of the first candidate not in `taken`, if there is one. */
  function FirstFresh(candidates: seq<string>, taken: set<string>): (k: Option<nat>)
    ensures k.Some? ==>
      && k.value < |candidates|
      && candidates[k.value] !in taken
      && forall j | 0 <= j < k.value :: candidates[j] in taken
    ensures k.None? ==> forall j | 0 <= j < |candidates| :: candidates[j] in taken
  {
    if candidates == [] then None
    else if candidates[0] !in taken then Some(0)
    else match FirstFresh(candidates[1..], taken)
      case None => None
      case Some(j) => Some(j + 1)
  }

  /** One more generate_short_code() call takes the next candidate off the stream. */
  lemma {:induction false} CandidatesStep(cands: seq<string>, n: nat, rest: seq<Draw>)
    requires n < |cands| && cands[n + 1..] == Candidates(rest)
    requires |rest| >= DefaultLength
    ensures n + 1 < |cands|
    ensures cands[n + 1] == GenerateShortCode(rest[..DefaultLength])
    ensures cands[n + 2..] == Candidates(rest[DefaultLength..])
  {
    assert Candidates(rest) == [GenerateShortCode(rest[..DefaultLength])] + Candidates(rest[DefaultLength..]);
    assert cands[n + 2..] == cands[n + 1..][1..];
  }

  /** Where the retry loop stops: after the rejected candidates, at a free one. */
  lemma {:induction false} FirstFreshAt(cands: seq<string>, n: nat, taken: set<string>)
    requires n < |cands|
    requires forall i | 0 <= i < n :: cands[i] in taken
    requires cands[n] !in taken
    ensures FirstFresh(cands, taken) == Some(n)
    decreases n
  {
    if n > 0 {
      FirstFreshAt(cands[1..], n - 1, taken);
    }
  }

  /** A listed row: the stored columns and the derived `short_url`. */
  datatype UrlEntry = UrlEntry(shortCode: string, originalUrl: string, shortUrl: string, createdAt: nat)

  function EntryRows(entries: seq<UrlEntry>): seq<Row> {
    seq(|entries|, i requires 0 <= i < |entries| =>
      Row(entries[i].shortCode, entries[i].originalUrl, entries[i].createdAt))
  }

  /** The in-memory `urls` table and the clock that stamps `created_at`. */
  class UrlStore {
    var rows: seq<Row>
    var clock: nat

    ghost predicate Valid()
      reads this
    {
      WellFormed(rows, clock)
    }

    /** The first start of the application on an empty database: `init_db` creates an empty table. */
    constructor ()
      ensures Valid()
      ensures rows == [] && clock == 0
    {
      rows := [];
      clock := 0;
    }

    /** `SELECT id FROM urls WHERE short_code = %s` then `fetchone() is not None`. */
    method CodeExists(code: string) returns (found: bool)
      ensures found <==> code in Codes(rows)
    {
      found := false;
      var i := 0;
      while i < |rows| && !found
        invariant 0 <= i <= |rows|
        invariant found <==> exists j | 0 <= j < i :: rows[j].shortCode == code
      {
        found := rows[i].shortCode == code;
        i := i + 1;
      }
    }

    /**
      The retry loop of `shorten_url`: generate a code, and generate again
      while the table already has it. Returns the first candidate not in the
      table, or None when the supplied draws run out first.
    */
    method PickFreshCode(rng: seq<Draw>) returns (code: Option<string>)
      ensures match FirstFresh(Candidates(rng), Codes(rows))
        case None => code == None
        case Some(k) => code == Some(Candidates(rng)[k])
    {
      if |rng| < DefaultLength {
        return None;
      }
      var shortCode := GenerateShortCode(rng[..DefaultLength]);
      var rest := rng[DefaultLength..];
      ghost var taken := Codes(rows);
      ghost var cands := Candidates(rng);
      ghost var n: nat := 0;
      var found := CodeExists(shortCode);
      while found
        invariant n < |cands| && cands[n] == shortCode
        invariant cands[n + 1..] == Candidates(rest)
        invariant forall i | 0 <= i < n :: cands[i] in taken
        invariant found <==> shortCode in taken
        decreases |rest|
      {
        if |rest| < DefaultLength {
          assert Candidates(rest) == [];
          return None;
        }
        CandidatesStep(cands, n, rest);
        n := n + 1;
        shortCode := GenerateShortCode(rest[..DefaultLength]);
        rest := rest[DefaultLength..];
        found := CodeExists(shortCode);
      }
      FirstFreshAt(cands, n, taken);
      code := Some(shortCode);
    }

    /**
      `INSERT INTO urls (short_code, original_url) VALUES (%s, %s)`, with
      `created_at` taken from the clock once `elapsed` has passed. The caller
      supplies a code the table does not have, as the UNIQUE constraint
      demands, and a non-empty URL.
    */
    method Insert(shortCode: string, originalUrl: string, elapsed: nat)
      requires Valid()
      requires shortCode !in Codes(rows)
      requires originalUrl != "" && |shortCode| <= MaxCodeLength
      modifies this
      ensures Valid()
      ensures rows == old(rows) + [Row(shortCode, originalUrl, old(clock) + elapsed)]
      ensures clock == old(clock) + elapsed
      ensures forall c :: Lookup(rows, c) == (if c == shortCode then Some(originalUrl) else Lookup(old(rows), c))
    {
      var row := Row(shortCode, originalUrl, clock + elapsed);
      InsertKeepsWellFormed(rows, clock, row);
      forall c ensures Lookup(rows + [row], c) == (if c == shortCode then Some(originalUrl) else Lookup(rows, c)) {
        LookupAppend(rows, row, c);
      }
      rows := rows + [row];
      clock := clock + elapsed;
    }

    /**
      `GET /<short_code>`: a 302 redirect to the URL stored under exactly this
      code, or 404 when no row has it; a code the driver cannot bind makes the
      query raise (500). Reading only, it changes nothing.
    */
    function RedirectToUrl(code: string): (r: Response)
      reads this
      ensures r.Redirect? || r == NotFound(NotFoundError) || r == ServerError
      ensures r == ServerError <==> !Bindable(code)
      ensures r.NotFound? <==> Bindable(code) && code !in Codes(rows)
      ensures r.Redirect? ==>
        exists i | 0 <= i < |rows| :: rows[i].shortCode == code && rows[i].originalUrl == r.location
    {
      if !Bindable(code) then ServerError
      else match Lookup(rows, code)
      case None => NotFound(NotFoundError)
      case Some(url) => Redirect(url)
    }

    /**
      `GET /api/urls`: every row once, newest first, each with its short link.
      In a valid store this is the reverse of insertion order.
    */
    function ListUrls(host: string): (r: seq<UrlEntry>)
      reads this
      ensures |r| == |rows|
      ensures forall i | 0 <= i < |r| :: r[i].shortUrl == ShortUrl(host, r[i].shortCode)
      ensures forall i, j | 0 <= i < j < |r| :: r[i].createdAt >= r[j].createdAt
      ensures multiset(EntryRows(r)) == multiset(rows)
      ensures Ascending(rows) ==> EntryRows(r) == Reverse(rows)
    {
      var sorted := OrderByCreatedAtDesc(rows);
      assert |sorted| == |rows| by {
        assert |multiset(sorted)| == |multiset(rows)|;
      }
      var r := seq(|sorted|, i requires 0 <= i < |sorted| =>
        UrlEntry(sorted[i].shortCode, sorted[i].originalUrl,
                 ShortUrl(host, sorted[i].shortCode), sorted[i].createdAt));
      assert EntryRows(r) == sorted;
      if Ascending(rows) then OrderOfAscendingIsReverse(rows); r else r
    }

    /**
      `POST /api/shorten`. `rng` is what the random source yields, `elapsed`
      the time since the previous insert.
    */
    method Shorten(body: Body, host: string, rng: seq<Draw>, elapsed: nat) returns (resp: Response)
      requires Valid()
      modifies this
      ensures Valid()
      ensures match ValidateRequest(body)
        case Rejected(r) => resp == r
        case Accepted(url) =>
          match FirstFresh(Candidates(rng), Codes(old(rows)))
          case None => resp == Exhausted
          case Some(k) =>
            if Bindable(url) then resp == Created(Candidates(rng)[k], ShortUrl(host, Candidates(rng)[k]), url)
            else resp == ServerError
      ensures !resp.Created? ==> rows == old(rows) && clock == old(clock)
      ensures resp.Created? ==>
        && rows == old(rows) + [Row(resp.shortCode, resp.originalUrl, old(clock) + elapsed)]
        && clock == old(clock) + elapsed
        && IsShortCode(resp.shortCode, DefaultLength)
        && resp.shortCode !in Codes(old(rows))
        && RedirectToUrl(resp.shortCode) == Redirect(resp.originalUrl)
        && CodeFromShortUrl(host, resp.shortUrl) == Some(resp.shortCode)
      ensures forall c | c in Codes(old(rows)) :: RedirectToUrl(c) == old(RedirectToUrl(c))
    {
      var validation := ValidateRequest(body);
      if validation.Rejected? {
        return validation.response;
      }
      var originalUrl := validation.url;

      var picked := PickFreshCode(rng);
      if picked.None? {
        return Exhausted;
      }
      var shortCode := picked.value;
      if !Bindable(originalUrl) {
        // The INSERT raises before anything is written.
        return ServerError;
      }

      Insert(shortCode, originalUrl, elapsed);
      forall c | c in Codes(old(rows)) ensures RedirectToUrl(c) == old(RedirectToUrl(c)) {
        assert Lookup(rows, c) == Lookup(old(rows), c);
      }
      ShortUrlRoundTrip(host, shortCode);
      resp := Created(shortCode, ShortUrl(host, shortCode), originalUrl);
    }
  }
}

/**
 * The `/api/download` endpoint: normalise the format, build the form body,
 * ask the upstream with three attempts two seconds apart (doubling), and shape
 * the JSON reply — the payload and the echoed parameters with status 200, or
 * a fixed prefix and the exception text with status 500.
 */
module Download {
  import opened Wrappers
  import opened Attempt
  import opened Retry
  import opened Formats
  import opened Percent
  import opened Form

  /** `fetch_with_retry` is called with its defaults, `retries=3` and `delay=2`. */
  const UPSTREAM_RETRIES: int := 3
  const UPSTREAM_DELAY: int := 2

  const DEFAULT_QUERY_FORMAT: string := "mp4hd"
  const DEFAULT_LANG: string := "en"
  const DEFAULT_SUBSCRIBED: string := "false"

  const OWNER: string := "https://github.com/bisug"
  const ERROR_PREFIX: string := "Error fetching video data: "

  /** The four query parameters, each a string. */
  datatype Query = Query(url: string, format: string, lang: string, subscribed: string)

  /** The JSON object of a reply. The payload type `J` is opaque. */
  datatype Body<J> =
    | SuccessBody(success: bool, data: J, format: string, lang: string, subscribed: string,
                  videoUrl: string, owner: string, status: int, successful: string)
    | ErrorBody(success: bool, message: string)

  datatype HttpReply<J> = HttpReply(statusCode: int, body: Body<J>)

  /** The parameters as the endpoint sees them: `url` is given, the others may be absent. */
  function FromQuery(url: string, format: Option<string>, lang: Option<string>, subscribed: Option<string>)
    : Query
  {
    Query(url, format.GetOr(DEFAULT_QUERY_FORMAT), lang.GetOr(DEFAULT_LANG), subscribed.GetOr(DEFAULT_SUBSCRIBED))
  }

  /**
   * The default format of the query is on the list, so a request without a
   * format sends `format=mp4hd` with whatever `lang` and `subscribed` it has.
   */
  lemma DefaultFormatKept(url: string, lang: Option<string>, subscribed: Option<string>)
    ensures var q := FromQuery(url, None, lang, subscribed);
      Normalize(q.format) == "mp4hd"
      && FormBody(q.url, Normalize(q.format), q.lang, q.subscribed)
         == FormBody(url, "mp4hd", lang.GetOr("en"), subscribed.GetOr("false"))
  {
  }

  /**
   * `str(e)` of what the fetcher raised: the re-raised exception of the last
   * attempt reads as its own text, and `Exception(None)` reads as `None`.
   * A payload has no exception text.
   */
  function ExceptionText<J>(result: Fetch<J>): string {
    match result
    case Fetched(_) => ""
    case Raised(m) => m
    case Fallback(Some(m)) => m
    case Fallback(None) => "None"
  }

  /** The reply for a fetch outcome, with `format` the normalised format. */
  function Respond<J>(q: Query, format: string, result: Fetch<J>): (r: HttpReply<J>)
    ensures r.statusCode == 200 <==> result.Fetched?
    ensures r.statusCode == 200 || r.statusCode == 500
    ensures r.body.SuccessBody? <==> r.statusCode == 200
    ensures r.body.success <==> r.statusCode == 200
    ensures r.body.SuccessBody? ==>
      && r.body.status == r.statusCode
      && r.body.data == result.data
      && r.body.format == format && r.body.lang == q.lang && r.body.subscribed == q.subscribed
      && r.body.videoUrl == q.url && r.body.owner == OWNER && r.body.successful == "success"
    ensures result.Raised? ==> r.body.message == ERROR_PREFIX + result.error
    ensures result.Fallback? && result.lastError.Some? ==> r.body.message == ERROR_PREFIX + result.lastError.value
    ensures result == Fallback(None) ==> r.body.message == ERROR_PREFIX + "None"
  {
    match result
    case Fetched(d) =>
      HttpReply(200, SuccessBody(true, d, format, q.lang, q.subscribed, q.url, OWNER, 200, "success"))
    case _ =>
      HttpReply(500, ErrorBody(false, ERROR_PREFIX + ExceptionText(result)))
  }

  /** Every error message starts with the fixed prefix. */
  lemma ErrorMessagePrefixed<J>(q: Query, format: string, result: Fetch<J>)
    ensures var r := Respond(q, format, result);
      r.body.ErrorBody? ==> |ERROR_PREFIX| <= |r.body.message| && r.body.message[..|ERROR_PREFIX|] == ERROR_PREFIX
  {
  }

  /**
   * `download(url, format, lang, subscribed)` against an upstream that answers
   * attempt `i` with `rs[i]`. Returns the form body it sent, the reply and the
   * sleeps between attempts.
   */
  method Download<J>(q: Query, rs: seq<Response<J>>) returns (sent: string, reply: HttpReply<J>, sleeps: seq<int>)
    requires UPSTREAM_RETRIES <= |rs|
    ensures reply == Respond(q, Normalize(q.format), Run(rs, UPSTREAM_RETRIES, UPSTREAM_DELAY).result)
    ensures sleeps == Run(rs, UPSTREAM_RETRIES, UPSTREAM_DELAY).sleeps
    ensures sent == FormBody(q.url, Normalize(q.format), q.lang, q.subscribed)
    ensures reply.statusCode == 200 <==> exists k :: 0 <= k < UPSTREAM_RETRIES && !Fails(rs[k])
    ensures reply.statusCode == 200 ==>
      exists k :: 0 <= k < UPSTREAM_RETRIES && !Fails(rs[k]) && (forall i :: 0 <= i < k ==> Fails(rs[i]))
        && reply.body.data == rs[k].body.value && sleeps == Schedule(UPSTREAM_DELAY, k)
    ensures reply.statusCode == 200 ==> reply.body.format in FORMATS
    ensures reply.statusCode != 200 ==>
      reply == HttpReply(500, ErrorBody(false, ERROR_PREFIX + Classify(rs[2]).message)) && sleeps == [2, 4]
  {
    var format := Normalize(q.format);
    sent := FormBody(q.url, format, q.lang, q.subscribed);
    var result, attempts;
    result, attempts, sleeps := FetchWithRetry(rs, UPSTREAM_RETRIES, UPSTREAM_DELAY);
    reply := Respond(q, format, result);
    RunOutcome(rs, UPSTREAM_RETRIES, UPSTREAM_DELAY);
    assert Schedule(UPSTREAM_DELAY, 2) == [Backoff(2, 0), Backoff(2, 1)];
  }

  /** Every listed format goes into the form body without encoding and reads back as itself. */
  lemma FormatsArePlain(format: string)
    requires format in FORMATS
    ensures IsPlain(format)
  {
  }

  /**
   * What the upstream receives: exactly the four fields, with the normalised
   * format, provided the url is ASCII and `lang` and `subscribed` need no encoding.
   */
  lemma SentBodyReadsBack(q: Query)
    requires IsAscii(q.url) && IsPlain(q.lang) && IsPlain(q.subscribed)
    ensures ParseForm(FormBody(q.url, Normalize(q.format), q.lang, q.subscribed))
         == [("url", q.url), ("format", Normalize(q.format)), ("lang", q.lang), ("subscribed", q.subscribed)]
  {
    FormatsArePlain(Normalize(q.format));
    FormBodyParses(q.url, Normalize(q.format), q.lang, q.subscribed);
  }

  /** A format that is not on the list goes out as `mp4`. */
  lemma UnknownFormat()
    ensures Normalize("bogus") == "mp4"
  {
  }

  /**
   * A request for an unknown format against an upstream that is down: the
   * format goes out as `mp4`, there are three attempts with sleeps of 2 and 4
   * seconds, and the reply is a 500 with the last status error.
   */
  method ExampleUnavailableUpstream(url: string) {
    var q := FromQuery(url, Some("bogus"), None, None);
    var down: Response<int> := Reply(503, "503 Service Unavailable", Malformed(""));
    var sent, reply, sleeps := Download(q, [down, down, down]);
    UnknownFormat();
    assert sent == FormBody(url, "mp4", "en", "false");
    assert Fails(down);
    assert reply.statusCode != 200;
    assert reply == HttpReply(500, ErrorBody(false, ERROR_PREFIX + "503 Service Unavailable"));
    assert sleeps == [2, 4];
  }
}

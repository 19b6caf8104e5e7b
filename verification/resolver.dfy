/**
 * `get_video_url`: one resolution attempt against an endpoint. The HTTP GET is
 * not modelled; its outcome is the `Response` input, and the function decides
 * which media URL (if any) the response yields and how the endpoint's failure
 * count changes.
 */
module Resolver {
  import opened Wrappers
  import opened Text
  import opened Health

  /** A JSON value as far as the resolver looks at it: a string, or anything else. */
  datatype JsonValue = JString(text: string) | JOther

  /** What `response.json()` produced: an exception, a non-object, or an object. */
  datatype Json = Unparsable | NonObject | Object(fields: map<string, JsonValue>)

  /**
   * The result of `session.get(api_url, ...)`: a transport exception, or a
   * response with its status, parsed body, body text, `content-type` header
   * (absent or present) and final (post-redirect) URL.
   */
  datatype Response =
    | Raised
    | Reply(status: int, json: Json, text: string, contentType: Option<string>, finalUrl: string)

  /** The JSON keys tried, in this order. */
  const UrlKeys: seq<string> := ["url", "video_url", "data", "video", "mp4"]

  /** Texts longer than this are not taken as a plain-text URL. */
  const MaxTextUrl: nat := 500

  /** `key` holds a string that, stripped, starts with "http". */
  predicate Qualifies(fields: map<string, JsonValue>, key: string) {
    key in fields && fields[key].JString? && StartsWith(Strip(fields[key].text), "http")
  }

  /** `keys[i]` is the first key of `keys` that qualifies. */
  ghost predicate FirstQualifying(fields: map<string, JsonValue>, keys: seq<string>, i: int) {
    && 0 <= i < |keys|
    && Qualifies(fields, keys[i])
    && forall j :: 0 <= j < i ==> !Qualifies(fields, keys[j])
  }

  /** The loop over the URL keys: the stripped value of the first qualifying key. */
  function FirstUrlField(fields: map<string, JsonValue>, keys: seq<string>): (r: Option<string>)
    ensures r.None? <==> forall i :: 0 <= i < |keys| ==> !Qualifies(fields, keys[i])
    ensures r.Some? ==> exists i :: FirstQualifying(fields, keys, i) && r.value == Strip(fields[keys[i]].text)
  {
    if keys == [] then None
    else if Qualifies(fields, keys[0]) then
      assert FirstQualifying(fields, keys, 0);
      Some(Strip(fields[keys[0]].text))
    else
      var r := FirstUrlField(fields, keys[1..]);
      KeyShift(fields, keys);
      if r.None? then NoKeyShift(fields, keys); r else r
  }

  /** When the first key does not qualify, the first qualifying key among the rest is the first overall. */
  lemma KeyShift(fields: map<string, JsonValue>, keys: seq<string>)
    requires keys != [] && !Qualifies(fields, keys[0])
    ensures forall i :: FirstQualifying(fields, keys[1..], i) ==> FirstQualifying(fields, keys, i + 1)
  {
    forall i | FirstQualifying(fields, keys[1..], i)
      ensures FirstQualifying(fields, keys, i + 1)
    {
      forall j | 0 <= j < i + 1
        ensures !Qualifies(fields, keys[j])
      {
        if j > 0 {
          assert keys[j] == keys[1..][j - 1];
        }
      }
    }
  }

  /** When the first key does not qualify, no key does if none of the rest does. */
  lemma NoKeyShift(fields: map<string, JsonValue>, keys: seq<string>)
    requires keys != [] && !Qualifies(fields, keys[0])
    requires forall i :: 0 <= i < |keys| - 1 ==> !Qualifies(fields, keys[1..][i])
    ensures forall i :: 0 <= i < |keys| ==> !Qualifies(fields, keys[i])
  {
    forall i | 0 <= i < |keys|
      ensures !Qualifies(fields, keys[i])
    {
      if i > 0 {
        assert keys[i] == keys[1..][i - 1];
      }
    }
  }

  /** Rule (a): a URL field of a JSON object body. */
  function JsonRule(json: Json): Option<string> {
    if json.Object? then FirstUrlField(json.fields, UrlKeys) else None
  }

  /** Rule (b): the stripped body text itself. */
  predicate TextRule(text: string) {
    StartsWith(Strip(text), "http") && |Strip(text)| < MaxTextUrl
  }

  /** Rule (c): the lower-cased content type announces video. */
  predicate ContentTypeRule(contentType: Option<string>) {
    Contains(Lower(contentType.GetOr("")), "video")
  }

  /** The extraction tried on a 200 response, rules (a), (b), (c) in that order. */
  function Extract(resp: Response): (r: Option<string>)
    requires resp.Reply?
    ensures JsonRule(resp.json).Some? ==> r == JsonRule(resp.json)
    ensures JsonRule(resp.json).None? && TextRule(resp.text) ==> r == Some(Strip(resp.text))
    ensures JsonRule(resp.json).None? && !TextRule(resp.text) && ContentTypeRule(resp.contentType) ==> r == Some(resp.finalUrl)
    ensures r.None? <==> JsonRule(resp.json).None? && !TextRule(resp.text) && !ContentTypeRule(resp.contentType)
  {
    var fromJson := JsonRule(resp.json);
    if fromJson.Some? then fromJson
    else if TextRule(resp.text) then Some(Strip(resp.text))
    else if ContentTypeRule(resp.contentType) then Some(resp.finalUrl)
    else None
  }

  /** The health map after the attempt, and the URL it produced. */
  datatype Resolution = Resolution(health: Failures, url: Option<string>)

  /**
   * `get_video_url`: an unavailable endpoint is not asked and nothing changes;
   * a 200 response counts as a success for the endpoint whatever it contains;
   * any other status, or an exception, counts as a failure and yields nothing.
   */
  function GetVideoUrl(h: Failures, api: string, resp: Response): (r: Resolution)
    ensures !IsAvailable(h, api) ==> r == Resolution(h, None)
    ensures IsAvailable(h, api) && resp.Reply? && resp.status == 200 ==>
              r.health == MarkSuccess(h, api) && r.url == Extract(resp)
    ensures IsAvailable(h, api) && !(resp.Reply? && resp.status == 200) ==>
              r == Resolution(MarkFailure(h, api), None)
    ensures r.url.Some? ==> resp.Reply? && resp.status == 200
  {
    if !IsAvailable(h, api) then Resolution(h, None)
    else if resp.Reply? && resp.status == 200 then Resolution(MarkSuccess(h, api), Extract(resp))
    else Resolution(MarkFailure(h, api), None)
  }

  /**
   * Whatever the resolver returns is either a stripped string starting with
   * "http" (from a JSON field or the body text), or the final URL of a response
   * whose content type mentions video.
   */
  lemma ResolvedUrlShape(h: Failures, api: string, resp: Response)
    ensures var r := GetVideoUrl(h, api, resp);
            r.url.Some? ==>
              || (StartsWith(r.url.value, "http") && Strip(r.url.value) == r.url.value)
              || (r.url.value == resp.finalUrl && ContentTypeRule(resp.contentType))
  {
    var r := GetVideoUrl(h, api, resp);
    if r.url.Some? {
      var json := resp.json;
      if JsonRule(json).Some? {
        var i :| FirstQualifying(json.fields, UrlKeys, i) && r.url.value == Strip(json.fields[UrlKeys[i]].text);
        StripIdempotent(json.fields[UrlKeys[i]].text);
      } else if TextRule(resp.text) {
        StripIdempotent(resp.text);
      }
    }
  }

  /**
   * A successful answer never makes an endpoint less available, and a failing
   * one moves it one step towards the threshold.
   */
  lemma ResolutionHealthStep(h: Failures, api: string, resp: Response)
    requires IsAvailable(h, api)
    ensures var r := GetVideoUrl(h, api, resp);
            && (resp.Reply? && resp.status == 200 ==> IsAvailable(r.health, api))
            && (!(resp.Reply? && resp.status == 200) ==> FailureCount(r.health, api) == FailureCount(h, api) + 1)
            && forall a :: a != api ==> FailureCount(r.health, a) == FailureCount(h, a)
  {
  }
}

/** Posting the chosen photo and caption to the Facebook page (bot.py:128-144).
    The HTTP exchange itself is not modelled: the answer to the request is an
    input. */
module Graph {
  import opened Wrappers

  const GraphBase: string := "https://graph.facebook.com/"

  /** The form posted to `https://graph.facebook.com/<page>/photos`. */
  datatype Request = Request(endpoint: string, photoUrl: string, caption: string, accessToken: string)

  /** What `requests.post` gave back: a status code and body, or an exception. */
  datatype Response = Status(code: int, body: string) | ConnectionFailure

  /** What the user is told about the post. */
  datatype Outcome = Published | Rejected(body: string) | ConnectionError | Simulated

  /** Python truthiness of an environment variable: set and not empty. */
  predicate Truthy(v: Option<string>) {
    v.Some? && v.value != ""
  }

  /** The request the bot sends, if any: only when both the access token and
      the page id are set, and then it carries the record's photo URL, the
      chosen caption and the token to the page's photos endpoint. */
  function PlanPost(token: Option<string>, pageId: Option<string>, photoUrl: string, caption: string): (r: Option<Request>)
    ensures r.Some? <==> Truthy(token) && Truthy(pageId)
    ensures r.Some? ==> r.value.photoUrl == photoUrl && r.value.caption == caption
    ensures r.Some? ==> r.value.accessToken == token.value
    ensures r.Some? ==> r.value.endpoint == GraphBase + pageId.value + "/photos"
  {
    if Truthy(token) && Truthy(pageId) then
      Some(Request(GraphBase + pageId.value + "/photos", photoUrl, caption, token.value))
    else
      None
  }

  /** How the attempt is reported: success exactly when a request was sent and
      answered with status 200; the simulation notice exactly when none was
      sent; the exception message when sending failed; otherwise the error
      body. */
  function Report(request: Option<Request>, response: Response): (o: Outcome)
    ensures o == Published <==> request.Some? && response.Status? && response.code == 200
    ensures o == Simulated <==> request.None?
    ensures o == ConnectionError <==> request.Some? && response.ConnectionFailure?
    ensures o.Rejected? ==> response.Status? && response.code != 200 && o.body == response.body
  {
    match request
    case None => Simulated
    case Some(_) =>
      match response
      case ConnectionFailure => ConnectionError
      case Status(code, body) => if code == 200 then Published else Rejected(body)
  }
}

/**
  The decision part of `search_drug` (bot.py:50-69): whether the DailyMed
  response yields a record, and which one.

  The HTTP request and JSON decoding are not modelled; the response is
  given as an abstract `Response`.
 */
module Lookup {
  import opened Wrappers

  /** One entry of the response's `data` list: a JSON object whose values
      are strings (only its `title` field is ever read). */
  type Record = map<string, string>

  /** The decoded response body. `Malformed` stands for a body on which
      `response.json()` or `.get("data")` raises; otherwise `data` is the
      value of the `data` key, when present. */
  datatype Body = Malformed | Object(data: Option<seq<Record>>)

  /** What `requests.get` gives: an exception (timeout, connection error,
      ...) or a response with a status code and a body. */
  datatype Response = TransportError | Http(status: int, body: Body)

  /** The status, body and `data` list of a response that `search_drug`
      accepts: status 200 and a present, non-empty `data` list. */
  predicate Accepted(resp: Response) {
    resp.Http? && resp.status == 200 && resp.body.Object? &&
    resp.body.data.Some? && |resp.body.data.value| > 0
  }

  /** `search_drug`: `None` on a transport error, a status other than 200,
      an undecodable body, or a missing or empty `data` list; otherwise the
      first record of `data`, unmodified. */
  function SearchDrug(resp: Response): (r: Option<Record>)
    ensures r.Some? <==> Accepted(resp)
    ensures r.Some? ==> r.value == resp.body.data.value[0]
  {
    match resp
    case TransportError => None
    case Http(status, body) =>
      if status != 200 then None
      else match body
        case Malformed => None
        case Object(data) =>
          if data.None? || data.value == [] then None
          else Some(data.value[0])
  }

  /** Python's truth value of what `search_drug` returns (bot.py:96): `None`
      and an empty record are both false. */
  predicate Found(r: Option<Record>) {
    r.Some? && |r.value| > 0
  }

  /** `drug_data.get("title", drug_input)` (bot.py:103). */
  function TitleOr(rec: Record, fallback: string): (r: string) {
    if "title" in rec then rec["title"] else fallback
  }
}

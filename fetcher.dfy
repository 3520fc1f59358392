/** `make_request(url)` and the dataset URL `compare_regions` hands it. */
module Fetcher {
  import opened Types

  const DataBaseUrl: string := "https://web.media.mit.edu/~almurph/censusdata/output_v2/household/"
  const FetchErrorMessage: string := "Error fetching data from the server."

  predicate EndsWith(s: string, suffix: string)
  {
    |suffix| <= |s| && s[|s| - |suffix|..] == suffix
  }

  /** `f"{DATA_BASE_URL}/{state}/{zip}_household.pkl"`. The base already ends in
      a slash, so the URL has a doubled one after it. */
  function DatasetUrl(state: string, zip: string): (url: string)
    ensures EndsWith(url, "_household.pkl") && EndsWith(url, ".pkl")
    ensures |url| > |DataBaseUrl| + 1 && url[..|DataBaseUrl| + 1] == DataBaseUrl + "/"
  {
    var url := DataBaseUrl + "/" + state + "/" + zip + "_household.pkl";
    assert url[|url| - 4..] == ".pkl";
    url
  }

  /** What `pd.read_pickle` makes of the downloaded bytes. */
  datatype Unpickled = Table(rows: seq<Household>) | NoneValue | Unreadable

  /** The dataset store's answer to a GET: no answer at all (a connection error
      or the 30-second timeout), or a status with a body. */
  datatype Reply = Unreachable | Reply(status: nat, body: Unpickled)

  /** What `make_request` does: hand back a table, return `None`, or raise. */
  datatype FetchResult = Fetched(rows: seq<Household>) | NoneResult | Raised

  /** `response.raise_for_status()` lets through exactly the 2xx statuses. */
  predicate IsSuccess(status: nat)
  {
    200 <= status < 300
  }

  /** Every failure inside the `try` is re-raised as one fixed exception; a
      URL without the `.pkl` suffix falls off the end and returns `None`. */
  function MakeRequest(url: string, reply: Reply): (r: FetchResult)
    ensures reply.Unreachable? || !IsSuccess(reply.status) ==> r == Raised
    ensures r.Fetched? ==> reply == Reply(reply.status, Table(r.rows)) && IsSuccess(reply.status)
    ensures r == NoneResult ==>
      reply.Reply? && IsSuccess(reply.status) && (!EndsWith(url, ".pkl") || reply.body == NoneValue)
  {
    match reply
    case Unreachable => Raised
    case Reply(status, body) =>
      if !IsSuccess(status) then Raised
      else if !EndsWith(url, ".pkl") then NoneResult
      else
        match body
        case Table(rows) => Fetched(rows)
        case NoneValue => NoneResult
        case Unreadable => Raised
  }

  /** Any URL without the `.pkl` suffix yields `None` on a successful reply. */
  lemma NonPickleUrlGivesNone(url: string, reply: Reply)
    requires !EndsWith(url, ".pkl") && reply.Reply? && IsSuccess(reply.status)
    ensures MakeRequest(url, reply) == NoneResult
  {
  }

  /** For the URL `compare_regions` builds, `make_request` returns `None` only
      when a successful download unpickles to `None`; the suffix check never
      produces it. It hands back a table exactly when a 2xx reply holds one. */
  lemma BuiltUrlOutcomes(state: string, zip: string, reply: Reply)
    ensures MakeRequest(DatasetUrl(state, zip), reply) == NoneResult <==>
      reply.Reply? && IsSuccess(reply.status) && reply.body == NoneValue
    ensures MakeRequest(DatasetUrl(state, zip), reply).Fetched? <==>
      reply.Reply? && IsSuccess(reply.status) && reply.body.Table?
    ensures MakeRequest(DatasetUrl(state, zip), reply) == Raised <==>
      reply.Unreachable? || !IsSuccess(reply.status) || reply.body == Unreadable
  {
  }
}

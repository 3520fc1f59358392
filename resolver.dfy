/** `get_state_from_zip(zip_code)`: how the zip-lookup reply is read. */
module Resolver {
  import opened Types
  import opened Decimal

  const StateNotFound: string := "State not found"

  /** A JSON object of the reply; only its `state` member is read. */
  datatype Record = Record(state: Option<string>)

  /** The decoded JSON body: a list of objects or a single object. */
  datatype Body = Many(items: seq<Record>) | One(record: Record)

  /** What the lookup call produced: a reply with its status, decoded body and
      raw text, or an exception with its message (transport failures, bodies
      that are not JSON, and any other error the call raises). */
  datatype LookupOutcome = Answered(status: nat, body: Body, text: string) | Failed(message: string)

  const LookupBase: string := "https://api.api-ninjas.com/v1/zipcode?zip="

  /** The lookup request for a zip code; the zip is inserted as it is, so it
      can be read back from the request. */
  function LookupUrl(zip: string): (url: string)
    ensures |url| == |LookupBase| + |zip| && url[|LookupBase|..] == zip
  {
    LookupBase + zip
  }

  /** `record.get('state', "State not found")`. */
  function StateOf(r: Record): string
  {
    match r.state
    case Some(s) => s
    case None => StateNotFound
  }

  /** The record a 200 reply is read from, if any. */
  function Consulted(body: Body): Option<Record>
  {
    match body
    case Many(items) => if |items| > 0 then Some(items[0]) else None
    case One(r) => Some(r)
  }

  /** The state name the lookup yields; every failure becomes a text. A 200
      reply gives the consulted record's state or the sentinel; anything else
      gives a text starting with `Error: `. */
  function StateFromZip(o: LookupOutcome): (s: string)
    ensures o.Answered? && o.status == 200 ==>
      s == StateNotFound || (Consulted(o.body).Some? && Consulted(o.body).value.state == Some(s))
    ensures !(o.Answered? && o.status == 200) ==> |s| >= 7 && s[..7] == "Error: "
  {
    match o
    case Failed(message) => "Error: " + message
    case Answered(status, body, text) =>
      if status == 200 then
        match body
        case Many(items) => if |items| > 0 then StateOf(items[0]) else StateNotFound
        case One(r) => StateOf(r)
      else "Error: " + NatToDecimal(status) + ", " + text
  }

  /** A reply other than 200 gives `Error: {status}, {text}`, and the status can
      be read back from the digits that follow `Error: `. */
  lemma ErrorReplyCarriesStatus(o: LookupOutcome)
    requires o.Answered? && o.status != 200
    ensures var s := StateFromZip(o);
      var d := NatToDecimal(o.status);
      && |s| == 7 + |d| + 2 + |o.text|
      && s[..7] == "Error: "
      && IsDigits(s[7..7 + |d|])
      && DecimalValue(s[7..7 + |d|]) == o.status
      && s[7 + |d|..9 + |d|] == ", "
      && s[9 + |d|..] == o.text
  {
    var d := NatToDecimal(o.status);
    var s := StateFromZip(o);
    assert s == "Error: " + d + ", " + o.text;
    assert s[7..7 + |d|] == d;
    DecimalRoundTrip(o.status);
  }

  /** A lookup that raised gives `Error: {e}`: the exception's message follows
      `Error: ` unchanged. */
  lemma ExceptionCarriesMessage(o: LookupOutcome)
    requires o.Failed?
    ensures var s := StateFromZip(o);
      |s| == 7 + |o.message| && s[..7] == "Error: " && s[7..] == o.message
  {
  }

  /** For a 200 reply whose consulted record does not itself name the state
      "State not found", the sentinel comes back exactly when there is no
      record to read or the record has no `state`. */
  lemma SentinelIffNoState(o: LookupOutcome)
    requires o.Answered? && o.status == 200
    requires Consulted(o.body) != Some(Record(Some(StateNotFound)))
    ensures StateFromZip(o) == StateNotFound <==>
      Consulted(o.body).None? || Consulted(o.body).value.state.None?
  {
  }

  /** A 200 reply whose consulted record has a state yields that state. */
  lemma StateComesFromConsultedRecord(o: LookupOutcome)
    requires o.Answered? && o.status == 200
    requires Consulted(o.body).Some? && Consulted(o.body).value.state.Some?
    ensures StateFromZip(o) == Consulted(o.body).value.state.value
  {
  }
}

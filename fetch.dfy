/** The remote service as the program sees it: one reply per GET or POST,
    classified by getCase (fetch) and pushResult (submit). */
module Fetch {
  import opened ByteStrings

  datatype Option<T> = None | Some(value: T)

  const StatusOK: int := 200
  const StatusNotFound: int := 404

  /** A response body: ioutil.ReadAll either returns the bytes or fails. */
  datatype Body = Readable(bytes: Bytes) | Unreadable

  /** What the HTTP client hands back: a transport error, or a status code
      and a body. */
  datatype Reply = GetFailed | Reply(status: int, body: Body)

  /** getCase's three outcomes: the normalised body, a soft miss (nil), or
      a panic that ends the process. */
  datatype Fetched = Present(content: Bytes) | Missing | Fatal {
    /** The []byte stored into the result slot: nil for a miss. */
    function AsSlice(): ByteSlice
      requires !Fatal?
    {
      if Present? then Slice(content) else Nil
    }
  }

  /** getCase: 200 gives the body with every '\r' removed, 404 gives nil,
      anything else (or a failed request or read) aborts. */
  function GetCase(reply: Reply): (r: Fetched)
    ensures r.Present? <==> reply.Reply? && reply.status == StatusOK && reply.body.Readable?
    ensures r.Missing? <==> reply.Reply? && reply.status == StatusNotFound
    ensures r.Present? ==> r.content == StripCR(reply.body.bytes) && CR !in r.content
    ensures r.Present? ==> |r.content| == |reply.body.bytes| - multiset(reply.body.bytes)[CR]
  {
    match reply
    case GetFailed => Fatal
    case Reply(status, body) =>
      if status == StatusOK then
        match body
        case Readable(bytes) =>
          StripCRLength(bytes);
          Present(StripCR(bytes))
        case Unreadable => Fatal
      else if status == StatusNotFound then Missing
      else Fatal
  }

  /** Serving an already normalised body again yields it unchanged. */
  lemma GetCaseStable(reply: Reply)
    requires GetCase(reply).Present?
    ensures GetCase(Reply(StatusOK, Readable(GetCase(reply).content))) == GetCase(reply)
  {
    StripCRIdempotent(reply.body.bytes);
  }

  /** pushResult: only a 200 whose body can be read is accepted; any other
      outcome aborts. A submission is accepted exactly when the same reply to
      a fetch would have produced a body: unlike getCase, pushResult has no
      soft 404. */
  function PushResult(reply: Reply): (accepted: bool)
    ensures accepted <==> GetCase(reply).Present?
    ensures !accepted && !GetCase(reply).Fatal? ==> reply.status == StatusNotFound
  {
    reply.Reply? && reply.status == StatusOK && reply.body.Readable?
  }

  /** The fan-out of fetches with its barrier: each reply fills its own
      slot, and one fatal reply aborts the whole fetch. */
  function FetchAll(replies: seq<Reply>): (r: Option<seq<ByteSlice>>)
    ensures r.Some? <==> forall i :: 0 <= i < |replies| ==> !GetCase(replies[i]).Fatal?
    ensures r.Some? ==> |r.value| == |replies|
    ensures r.Some? ==> forall i :: 0 <= i < |replies| ==> r.value[i] == GetCase(replies[i]).AsSlice()
  {
    if replies == [] then Some([])
    else
      var last := GetCase(replies[|replies| - 1]);
      var front := FetchAll(replies[..|replies| - 1]);
      if last.Fatal? || front.None? then None
      else Some(front.value + [last.AsSlice()])
  }
}

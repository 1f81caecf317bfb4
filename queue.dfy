/** The shape of the SQS events the three queue-driven handlers receive and of
    the dictionary they return. */
module Queue {
  import opened Wrappers
  import opened Json

  /** A queue record: its id and its body, None when the body is not a JSON object. */
  datatype Record = Record(messageId: string, body: Option<Object>)

  /** The returned dictionary: status code and `batchItemFailures`. */
  datatype Response = Response(statusCode: int, failures: seq<string>)

  /** The failure list that names every record of the event, in order. */
  function Ids(records: seq<Record>): (ids: seq<string>)
    ensures |ids| == |records| && forall k :: 0 <= k < |records| ==> ids[k] == records[k].messageId
  {
    seq(|records|, k requires 0 <= k < |records| => records[k].messageId)
  }
}

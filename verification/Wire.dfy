/** What the fetcher sees of a device: requests, responses, and the state they fill. */
module Wire {
  import opened Oid
  import opened Pdu

  datatype Request =
    | Get(names: seq<string>)
    | GetNext(names: seq<string>)
    | GetBulk(names: seq<string>, repetitions: nat)

  datatype Status = NoError | TooBig | NoSuchName | OtherStatus(code: int)

  /** A transport error, or a packet. `errorIndex` is one octet on the wire. */
  datatype Response =
    | TransportError
    | Packet(status: Status, errorIndex: nat, variables: seq<Variable>)

  /**
   * A session with a device. The n-th request of a poll is answered by `answer(n, request)`, an arbitrary
   * function, so a statement about every session is a statement about every behaviour a device can show;
   * `cancelled(n)` is ctx.Err() != nil as read before the n-th request.
   */
  datatype Session = Session(answer: (nat, Request) -> Response, cancelled: nat -> bool, supportsGetBulk: bool)

  datatype FetchError =
    | Cancelled
    | Transport
    | TooBigForOne
    | UnusableIndex(index: nat)
    | BadStatus(status: Status)

  /** Why a response is given up. */
  function Reason(r: Response): FetchError {
    if r.TransportError? then Transport
    else if r.status == TooBig then TooBigForOne
    else if r.status == NoSuchName then UnusableIndex(r.errorIndex)
    else BadStatus(r.status)
  }

  datatype FetchConfig = FetchConfig(oidBatchSize: int, bulkMaxRepetitions: nat, maxRowsPerColumn: int) {
    function WithDefaults(): FetchConfig {
      FetchConfig(
        if oidBatchSize <= 0 then 10 else oidBatchSize,
        if bulkMaxRepetitions == 0 then 10 else bulkMaxRepetitions,
        if maxRowsPerColumn <= 0 then 10000 else maxRowsPerColumn)
    }

    // What the settings are for: a positive one is the one used.

    function BatchSize(): nat {
      if oidBatchSize > 0 then oidBatchSize else 10
    }

    function Repetitions(): nat {
      if bulkMaxRepetitions > 0 then bulkMaxRepetitions else 10
    }

    function RowCap(): nat {
      if maxRowsPerColumn > 0 then maxRowsPerColumn else 10000
    }

    predicate Effective() {
      oidBatchSize >= 1 && bulkMaxRepetitions >= 1 && maxRowsPerColumn >= 1
    }
  }

  class ValueStore {
    var Scalars: map<string, Value>
    var Columns: map<string, map<string, Value>>

    constructor ()
      ensures Scalars == map[] && Columns == map[]
    {
      Scalars, Columns := map[], map[];
    }
  }

  class FetchReport {
    var MissingOIDs: seq<string>
    var PDUs: nat
    var TruncatedColumns: seq<string>

    constructor ()
      ensures MissingOIDs == [] && PDUs == 0 && TruncatedColumns == []
    {
      MissingOIDs, PDUs, TruncatedColumns := [], 0, [];
    }
  }

  /** The leading-dot form the transport expects. */
  function Prefixed(oids: seq<string>): (r: seq<string>)
    ensures |r| == |oids|
    ensures forall i :: 0 <= i < |oids| ==> r[i] == "." + CanonicalOID(oids[i])
  {
    seq(|oids|, i requires 0 <= i < |oids| => "." + CanonicalOID(oids[i]))
  }

  lemma PrefixedNames(oids: seq<string>)
    requires forall o :: o in oids ==> Canonical(o)
    ensures forall i :: 0 <= i < |oids| ==> Prefixed(oids)[i] == "." + oids[i] && CanonicalOID(Prefixed(oids)[i]) == oids[i]
  {
    forall i | 0 <= i < |oids|
      ensures Prefixed(oids)[i] == "." + oids[i] && CanonicalOID(Prefixed(oids)[i]) == oids[i]
    {
      assert oids[i] in oids;
      CanonicalOIDFixes(oids[i]);
    }
  }
}

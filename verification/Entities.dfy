// The proxy address record. Its stored columns are written by the validator and by the log; the
// fields from `id` on live only while the object sits in the rotator's active list.
module Entities {
  import opened Options
  import opened Protocols
  import opened Rotation

  // The stored columns, except ip and port.
  datatype Row = Row(
    validationId: nat, protocolsSrc: ProtocolMask, protocolsDest: ProtocolMask, lastCheckedAt: Option<int>,
    countErrors: nat, errorsSinceAt: Option<int>, countSuccess: nat, successSinceAt: Option<int>)

  const NEW_ROW := Row(0, 0, 0, None, 0, None, 0, None)

  // The part of the joined validation state the rotator reads.
  datatype Measured = Measured(dest: Protocol, level: int, duration: int)

  const UNMEASURED := Measured(Http, -2, 0)

  class IpAddr {
    const ip: string
    const port: int
    var validationId: nat
    var protocolsSrc: ProtocolMask
    var protocolsDest: ProtocolMask
    var lastCheckedAt: Option<int>
    var countErrors: nat
    var errorsSinceAt: Option<int>
    var countSuccess: nat
    var successSinceAt: Option<int>

    // Object identity, given when the object enters the active list.
    var id: nat
    const state: Measured
    var odd: nat
    var used: nat
    var success: nat
    var errors: nat
    var updatedAt: int
    var durationAvg: int

    // A record read from the database, with the state the query joined, if any.
    constructor (ip: string, port: int, row: Row, state: Measured)
      ensures this.ip == ip && this.port == port && this.state == state
      ensures Columns() == row
      ensures odd == used == success == errors == durationAvg == 0
    {
      this.ip, this.port, this.state := ip, port, state;
      validationId, protocolsSrc, protocolsDest := row.validationId, row.protocolsSrc, row.protocolsDest;
      lastCheckedAt := row.lastCheckedAt;
      countErrors, errorsSinceAt := row.countErrors, row.errorsSinceAt;
      countSuccess, successSinceAt := row.countSuccess, row.successSinceAt;
      id, odd, used, success, errors, updatedAt, durationAvg := 0, 0, 0, 0, 0, 0, 0;
    }

    function Columns(): Row
      reads this
    {
      Row(validationId, protocolsSrc, protocolsDest, lastCheckedAt,
          countErrors, errorsSinceAt, countSuccess, successSinceAt)
    }

    method AddSourceProtocol(p: Protocol)
      modifies this`protocolsSrc
      ensures forall q :: Supports(protocolsSrc, q) <==> Supports(old(protocolsSrc), q) || q == p
      ensures protocolsSrc == WithBit(old(protocolsSrc), p)
    {
      forall q ensures Supports(WithBit(protocolsSrc, p), q) <==> Supports(protocolsSrc, q) || q == p {
        MaskIsSet(protocolsSrc, p, q);
      }
      protocolsSrc := protocolsSrc | Bit(p);
    }

    method AddProtocol(p: Protocol)
      modifies this`protocolsDest
      ensures forall q :: Supports(protocolsDest, q) <==> Supports(old(protocolsDest), q) || q == p
      ensures protocolsDest == WithBit(old(protocolsDest), p)
    {
      forall q ensures Supports(WithBit(protocolsDest, p), q) <==> Supports(protocolsDest, q) || q == p {
        MaskIsSet(protocolsDest, p, q);
      }
      protocolsDest := protocolsDest | Bit(p);
    }

    method RemoveSourceProtocol(p: Protocol)
      modifies this`protocolsSrc
      ensures forall q :: Supports(protocolsSrc, q) <==> Supports(old(protocolsSrc), q) && q != p
    {
      forall q ensures Supports(WithoutBit(protocolsSrc, p), q) <==> Supports(protocolsSrc, q) && q != p {
        MaskIsSet(protocolsSrc, p, q);
      }
      if protocolsSrc & Bit(p) == Bit(p) {
        protocolsSrc := protocolsSrc & !Bit(p);
      }
    }

    method RemoveProtocol(p: Protocol)
      modifies this`protocolsDest
      ensures forall q :: Supports(protocolsDest, q) <==> Supports(old(protocolsDest), q) && q != p
    {
      forall q ensures Supports(WithoutBit(protocolsDest, p), q) <==> Supports(protocolsDest, q) && q != p {
        MaskIsSet(protocolsDest, p, q);
      }
      protocolsDest := protocolsDest & !Bit(p);
    }

    // What the active list knows of this object.
    function Snap(): Entry
      reads this
    {
      Entry(id, ip, port, state.dest, state.level, state.duration,
            odd, used, success, errors, updatedAt, durationAvg)
    }
  }
}

// The two protocols and the bit masks that record sets of them.
module Protocols {
  datatype Protocol = Http | Https

  type ProtocolMask = bv8

  function Bit(p: Protocol): ProtocolMask {
    match p
    case Http => 1
    case Https => 2
  }

  function WithBit(mask: ProtocolMask, p: Protocol): ProtocolMask {
    mask | Bit(p)
  }

  function WithoutBit(mask: ProtocolMask, p: Protocol): ProtocolMask {
    mask & !Bit(p)
  }

  predicate Supports(mask: ProtocolMask, p: Protocol) {
    mask & Bit(p) == Bit(p)
  }

  // A mask is a set of protocols: adding and removing one leaves the other alone.
  lemma MaskIsSet(mask: ProtocolMask, p: Protocol, q: Protocol)
    ensures Supports(WithBit(mask, p), q) <==> Supports(mask, q) || p == q
    ensures Supports(WithoutBit(mask, p), q) <==> Supports(mask, q) && p != q
    ensures !Supports(0, p)
  {
    if p == Http {
      HttpBit(mask);
    } else {
      HttpsBit(mask);
    }
    assert (0 as bv8) & 1 == 0 && (0 as bv8) & 2 == 0;
  }

  // The stored numbers: bit 0 stands for HTTP, bit 1 for HTTPS.
  lemma StoredBits(mask: ProtocolMask)
    ensures Supports(mask, Http) <==> mask & 1 != 0
    ensures Supports(mask, Https) <==> mask & 2 != 0
  {
    assert mask & 1 == 0 || mask & 1 == 1;
    assert mask & 2 == 0 || mask & 2 == 2;
  }

  lemma HttpBit(mask: ProtocolMask)
    ensures (mask | 1) & 1 == 1 && (mask | 1) & 2 == mask & 2
    ensures (mask & !(1 as bv8)) & 1 == 0 && (mask & !(1 as bv8)) & 2 == mask & 2
  {
  }

  lemma HttpsBit(mask: ProtocolMask)
    ensures (mask | 2) & 2 == 2 && (mask | 2) & 1 == mask & 1
    ensures (mask & !(2 as bv8)) & 2 == 0 && (mask & !(2 as bv8)) & 1 == mask & 1
  {
  }
}

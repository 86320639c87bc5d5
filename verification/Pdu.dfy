/** Variable bindings as the transport delivers them, and their decoding (internal/snmp/valuestore.go). */
module Pdu {
  import opened Wrappers
  import opened Oid

  type byte = bv8

  /** The ASN.1 tag of an answered variable. */
  datatype Tag =
    | NoSuchObject | NoSuchInstance | EndOfMibView | Null
    | OctetString | BitString | ObjectIdentifier | IPAddress | OpaqueFloat | OpaqueDouble
    | Integer | Counter32 | Counter64 | Gauge32 | TimeTicks | Uinteger32

  /** The Go value beside the tag, by dynamic type. */
  datatype Raw =
    | Nil
    | Whole(n: int)          // int, int64, uint, uint32, uint64
    | Float32(f: real)
    | Float64(d: real)
    | Text(s: string)
    | Octets(b: seq<byte>)
    | Other(name: string)

  datatype Payload =
    | Number(r: real)
    | Words(s: string)
    | Bytes(b: seq<byte>)
    | Printed(raw: Raw)      // fmt.Sprint of a value of unexpected type

  datatype Value = Value(payload: Payload, tag: Tag)

  datatype Variable = Variable(name: string, tag: Tag, raw: Raw)

  function Octet(x: byte): (n: nat)
    ensures n < 256
  {
    x as nat
  }

  function BigEndian(b: seq<byte>): nat {
    if b == [] then 0 else 256 * BigEndian(b[..|b| - 1]) + Octet(b[|b| - 1])
  }

  // ----- eight octets are a number in base 256, the first octet first -----

  function Pow256(n: nat): (r: nat)
    ensures r >= 1
  {
    if n == 0 then 1 else 256 * Pow256(n - 1)
  }

  lemma {:induction false} BigEndianBelow(b: seq<byte>)
    ensures BigEndian(b) < Pow256(|b|)
  {
    hide Octet;
    if b != [] {
      BigEndianBelow(b[..|b| - 1]);
    }
  }

  /** The first octet counts most. */
  lemma {:induction false} BigEndianHead(b: seq<byte>)
    requires b != []
    ensures BigEndian(b) == Octet(b[0]) * Pow256(|b| - 1) + BigEndian(b[1..])
  {
    hide Octet;
    if |b| > 1 {
      var init := b[..|b| - 1];
      BigEndianHead(init);
      assert b[1..][..|b| - 2] == init[1..];
      TimesAround(Octet(b[0]), Pow256(|b| - 2));
    }
  }

  lemma TimesAround(h: nat, p: nat)
    ensures 256 * (h * p) == h * (256 * p)
  {
  }

  lemma OctetInjective(x: byte, y: byte)
    requires Octet(x) == Octet(y)
    ensures x == y
  {
  }

  /** Octets of one length are determined by their number. */
  lemma {:induction false} BigEndianInjective(a: seq<byte>, b: seq<byte>)
    requires |a| == |b| && BigEndian(a) == BigEndian(b)
    ensures a == b
  {
    hide Octet;
    if a != [] {
      var n := |a| - 1;
      BigEndianInjective(a[..n], b[..n]);
      OctetInjective(a[n], b[n]);
      assert a == a[..n] + [a[n]] && b == b[..n] + [b[n]];
    }
  }

  function DecodeNumeric(v: Variable): Option<Value> {
    match v.raw
    case Whole(n) => Some(Value(Number(n as real), v.tag))
    case Float64(d) => Some(Value(Number(d), v.tag))
    case Octets(b) => if |b| == 8 then Some(Value(Number(BigEndian(b) as real), v.tag)) else None
    case _ => None
  }

  /** decodePDU: None for the "no value here" sentinels and for values that do not fit their tag. */
  function Decode(v: Variable): Option<Value> {
    match v.tag
    case NoSuchObject | NoSuchInstance | EndOfMibView | Null => None
    case OctetString | BitString =>
      if v.raw.Octets? then Some(Value(Bytes(v.raw.b), v.tag)) else Some(Value(Printed(v.raw), v.tag))
    case ObjectIdentifier =>
      Some(Value(Words(CanonicalOID(if v.raw.Text? then v.raw.s else "")), v.tag))
    case IPAddress => if v.raw.Text? then Some(Value(Words(v.raw.s), v.tag)) else None
    case OpaqueFloat => if v.raw.Float32? then Some(Value(Number(v.raw.f), v.tag)) else None
    case OpaqueDouble => if v.raw.Float64? then Some(Value(Number(v.raw.d), v.tag)) else None
    case _ => DecodeNumeric(v)
  }

  predicate Numeric(tag: Tag) {
    tag in {Integer, Counter32, Counter64, Gauge32, TimeTicks, Uinteger32}
  }

  /** The Go value that its tag calls for. */
  predicate Fits(v: Variable) {
    match v.tag
    case NoSuchObject => false
    case NoSuchInstance => false
    case EndOfMibView => false
    case Null => false
    case IPAddress => v.raw.Text?
    case OpaqueFloat => v.raw.Float32?
    case OpaqueDouble => v.raw.Float64?
    case _ => Numeric(v.tag) ==> v.raw.Whole? || v.raw.Float64? || (v.raw.Octets? && |v.raw.b| == 8)
  }

  /**
   * What is readable: nothing that stands for a missing value, and nothing whose value does not fit its tag. The tag is
   * kept, and a number has the variable's value, eight octets being one in base 256.
   */
  lemma DecodedIs(v: Variable)
    ensures Decode(v).Some? <==> Fits(v)
    ensures Decode(v).Some? ==> Decode(v).value.tag == v.tag
    ensures Decode(v).Some? && (Numeric(v.tag) || v.tag == OpaqueDouble || v.tag == OpaqueFloat) ==>
      Decode(v).value.payload == Number(match v.raw
        case Whole(n) => n as real
        case Float32(f) => f
        case Float64(d) => d
        case Octets(b) => BigEndian(b) as real
        case _ => 0.0)
    ensures v.tag in {OctetString, BitString} ==>
      Decode(v).value.payload == if v.raw.Octets? then Bytes(v.raw.b) else Printed(v.raw)
    ensures v.raw.Text? && v.tag == IPAddress ==> Decode(v).value.payload == Words(v.raw.s)
    ensures v.tag == ObjectIdentifier ==> Decode(v).value.payload == Words(if v.raw.Text? then CanonicalOID(v.raw.s) else "")
  {
    assert CanonicalOID("") == "";
    hide CanonicalOID, BigEndian;
  }
}

/**
 The protobuf reader `ProtoReader` (scripts/qa-otel-smoke.ts) and the wire format
 it reads (Protocol Buffers Encoding: "Base 128 Varints", "Message Structure",
 "Length-Delimited Records").

 Numbers are exact naturals; the source computes them as doubles, which agree
 for values below 2^53 in at most 147 bytes.
 */
module ProtoWire {
  import opened Common

  type byte = b: int | 0 <= b < 256

  datatype Error = TruncatedVarint | TruncatedBytes | TruncatedFixed64 | UnsupportedWire(wire: nat)

  /** What was read, and the offset after it. */
  datatype Read<+T> = Read(value: T, next: nat)

  /** One field of a message. A fixed-width payload holds the bytes that were
      there, which are too few only at the end of a truncated message. */
  datatype Payload = Varint(n: nat) | Fixed64(raw: seq<byte>) | Bytes(bytes: seq<byte>) | Fixed32(raw: seq<byte>)

  datatype Record = Record(field: nat, payload: Payload)

  const TWO32: nat := 0x1_0000_0000

  // ------------------------------------------------------------- reading values

  function VarintAt(b: seq<byte>, o: nat): (r: Result<Read<nat>, Error>)
    ensures r.Ok? ==> o < r.value.next <= |b|
    decreases |b| - o
  {
    if o >= |b| then Err(TruncatedVarint)
    else if b[o] < 128 then Ok(Read(b[o], o + 1))
    else
      var rest :- VarintAt(b, o + 1);
      Ok(Read(b[o] - 128 + 128 * rest.value, rest.next))
  }

  function BytesAt(b: seq<byte>, o: nat): (r: Result<Read<seq<byte>>, Error>)
    ensures r.Ok? ==> o + |r.value.value| < r.value.next <= |b|
  {
    var length :- VarintAt(b, o);
    var end := length.next + length.value;
    if end > |b| then Err(TruncatedBytes) else Ok(Read(b[length.next..end], end))
  }

  function Slice(b: seq<byte>, from: nat, to: nat): seq<byte>
    requires from <= |b| && from <= to
  {
    b[from..if to <= |b| then to else |b|]
  }

  /** A tag and the payload its wire type announces. */
  function PayloadAt(b: seq<byte>, o: nat, wire: nat): (r: Result<Read<Payload>, Error>)
    requires o <= |b|
    ensures r.Ok? ==> o < r.value.next <= |b| + 8
    ensures r.Ok? && r.value.value.Bytes? ==> o + |r.value.value.bytes| < r.value.next <= |b|
  {
    match wire
    case 0 => var v :- VarintAt(b, o); Ok(Read(Varint(v.value), v.next))
    case 1 => Ok(Read(Fixed64(Slice(b, o, o + 8)), o + 8))
    case 2 => var v :- BytesAt(b, o); Ok(Read(Bytes(v.value), v.next))
    case 5 => Ok(Read(Fixed32(Slice(b, o, o + 4)), o + 4))
    case _ => Err(UnsupportedWire(wire))
  }

  function FieldOf(raw: nat): nat { raw % TWO32 / 8 }

  function WireOf(raw: nat): nat { raw % 8 }

  /** Every record advances the offset, past the end by at most 8, and a nested
      message is at least two bytes shorter than what is left of its container. */
  function RecordAt(b: seq<byte>, o: nat): (r: Result<Read<Record>, Error>)
    ensures r.Ok? ==> o < r.value.next <= |b| + 8
    ensures r.Ok? && r.value.value.payload.Bytes? ==> o + 2 + |r.value.value.payload.bytes| <= r.value.next <= |b|
  {
    var tag :- VarintAt(b, o);
    var p :- PayloadAt(b, tag.next, WireOf(tag.value));
    Ok(Read(Record(FieldOf(tag.value), p.value), p.next))
  }

  /** The records of a message up to its end or to the first malformed one. */
  datatype Scan = Scan(records: seq<Record>, error: Option<Error>)

  function ScanFrom(b: seq<byte>, o: nat): Scan
    decreases |b| + 8 - o
  {
    if o >= |b| then Scan([], None) else
    match RecordAt(b, o)
    case Err(e) => Scan([], Some(e))
    case Ok(r) =>
      var rest := ScanFrom(b, r.next);
      Scan([r.value] + rest.records, rest.error)
  }

  ghost predicate Short(rs: seq<Record>, n: nat) {
    forall i :: 0 <= i < |rs| && rs[i].payload.Bytes? ==> |rs[i].payload.bytes| + 2 <= n
  }

  /** Nested messages of a message of length n fit in n - 2 bytes. */
  lemma {:induction false} ScanIsShort(b: seq<byte>, o: nat)
    ensures Short(ScanFrom(b, o).records, |b|)
    decreases |b| + 8 - o
  {
    if o < |b| && RecordAt(b, o).Ok? {
      ScanIsShort(b, RecordAt(b, o).value.next);
    }
  }

  // -------------------------------------------------------------------- the reader

  function Pow2(e: nat): (p: nat)
    ensures p > 0
  {
    if e == 0 then 1 else 2 * Pow2(e - 1)
  }

  lemma Pow2Plus7(e: nat)
    ensures Pow2(e + 7) == 128 * Pow2(e)
  {
    assert Pow2(e + 7) == 2 * Pow2(e + 6) == 4 * Pow2(e + 5) == 8 * Pow2(e + 4);
    assert Pow2(e + 4) == 2 * Pow2(e + 3) == 4 * Pow2(e + 2) == 8 * Pow2(e + 1) == 16 * Pow2(e);
  }

  /** The varint at `start` is what was summed so far plus the rest, shifted. */
  ghost predicate Summed(b: seq<byte>, start: nat, o: nat, result: nat, shift: nat) {
    match VarintAt(b, o)
    case Err(e) => VarintAt(b, start) == Err(e)
    case Ok(rest) => VarintAt(b, start) == Ok(Read(result + Pow2(shift) * rest.value, rest.next))
  }

  lemma Scaled(s: nat, low: nat, v: nat)
    ensures 0 <= low * s
    ensures low * s + 128 * s * v == s * (low + 128 * v)
  {
  }

  lemma {:induction false} SumStep(b: seq<byte>, start: nat, o: nat, result: nat, shift: nat)
    requires o < |b| && Summed(b, start, o, result, shift)
    ensures 0 <= b[o] % 128 * Pow2(shift)
    ensures b[o] < 128 ==> VarintAt(b, start) == Ok(Read(result + b[o] % 128 * Pow2(shift), o + 1))
    ensures b[o] >= 128 ==> Summed(b, start, o + 1, result + b[o] % 128 * Pow2(shift), shift + 7)
  {
    var s, low, rest := Pow2(shift), b[o] % 128, VarintAt(b, o + 1);
    Scaled(s, low, 0);
    if b[o] < 128 {
      assert low == b[o];
    } else {
      assert low == b[o] - 128;
      Pow2Plus7(shift);
      if rest.Ok? {
        var v := rest.value.value;
        Scaled(s, low, v);
        assert VarintAt(b, o).value.value == low + 128 * v;
        assert result + low * s + Pow2(shift + 7) * v == result + s * (low + 128 * v);
      }
    }
  }

  class ProtoReader {
    const buffer: seq<byte>
    var offset: nat

    constructor (buffer: seq<byte>)
      ensures this.buffer == buffer && offset == 0
    {
      this.buffer := buffer;
      offset := 0;
    }

    function Done(): bool
      reads this
    {
      offset >= |buffer|
    }

    method ReadVarint() returns (r: Result<nat, Error>)
      modifies this
      ensures var spec := VarintAt(buffer, old(offset));
              if spec.Ok? then r == Ok(spec.value.value) && offset == spec.value.next else r == Err(spec.error)
    {
      ghost var start := offset;
      var result: nat, shift: nat := 0, 0;
      while offset < |buffer|
        invariant Summed(buffer, start, offset, result, shift)
        decreases |buffer| - offset
      {
        SumStep(buffer, start, offset, result, shift);
        var b := buffer[offset];
        offset := offset + 1;
        result := result + b % 128 * Pow2(shift);
        if b < 128 {
          return Ok(result);
        }
        shift := shift + 7;
      }
      return Err(TruncatedVarint);
    }

    method ReadTag() returns (r: Result<(nat, nat), Error>)
      modifies this
      ensures var spec := VarintAt(buffer, old(offset));
              if spec.Ok? then r == Ok((FieldOf(spec.value.value), WireOf(spec.value.value))) && offset == spec.value.next
              else r == Err(spec.error)
    {
      var raw :- ReadVarint();
      r := Ok((raw % TWO32 / 8, raw % 8));
    }

    method ReadBytes() returns (r: Result<seq<byte>, Error>)
      modifies this
      ensures var spec := BytesAt(buffer, old(offset));
              if spec.Ok? then r == Ok(spec.value.value) && offset == spec.value.next else r == Err(spec.error)
    {
      var length :- ReadVarint();
      var end := offset + length;
      if end > |buffer| {
        return Err(TruncatedBytes);
      }
      r := Ok(buffer[offset..end]);
      offset := end;
    }

    method ReadFixed64() returns (r: Result<seq<byte>, Error>)
      modifies this
      ensures if old(offset) + 8 <= |buffer|
              then r == Ok(buffer[old(offset)..old(offset) + 8]) && offset == old(offset) + 8
              else r == Err(TruncatedFixed64)
    {
      var end := offset + 8;
      if end > |buffer| {
        return Err(TruncatedFixed64);
      }
      r := Ok(buffer[offset..end]);
      offset := end;
    }

    /** Past the end, only fields of fixed width can be skipped. */
    method Skip(wire: nat) returns (r: Result<(), Error>)
      modifies this
      ensures old(offset) <= |buffer| ==>
                var spec := PayloadAt(buffer, old(offset), wire);
                if spec.Ok? then r == Ok(()) && offset == spec.value.next else r == Err(spec.error)
      ensures old(offset) > |buffer| ==>
                (r.Ok? <==> wire == 1 || wire == 5) && (r.Ok? ==> offset == old(offset) + if wire == 1 then 8 else 4)
    {
      if wire == 0 {
        var _ :- ReadVarint();
      } else if wire == 1 {
        offset := offset + 8;
      } else if wire == 2 {
        var _ :- ReadBytes();
      } else if wire == 5 {
        offset := offset + 4;
      } else {
        return Err(UnsupportedWire(wire));
      }
      r := Ok(());
    }
  }
}

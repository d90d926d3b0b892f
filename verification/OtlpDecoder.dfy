/**
 The OTLP message decoders (scripts/qa-otel-smoke.ts), with the field numbers of
 OTLP common.proto and trace.proto.

 The specification reads a message in two steps, splitting it into records and
 then folding them; the decoders below interleave the two, recurse into nested
 messages as they meet them, and are proved to agree, error for error. Strings
 are kept as their bytes and doubles as their eight bytes.
 */
module OtlpDecoder {
  import opened Common
  import opened ProtoWire

  datatype AnyValue = AnyValue(
    stringValue: Option<seq<byte>>, boolValue: Option<bool>, intValue: Option<nat>, doubleValue: Option<seq<byte>>,
    arrayValue: Option<seq<AnyValue>>, kvlistValue: Option<seq<KeyValue>>, bytesValue: Option<seq<byte>>)

  datatype KeyValue = KeyValue(key: Option<seq<byte>>, value: Option<AnyValue>)

  const EMPTY_ANY := AnyValue(None, None, None, None, None, None, None)
  const EMPTY_KEY_VALUE := KeyValue(None, None)

  function Ended<T>(acc: T, end: Option<Error>): Result<T, Error> {
    if end.Some? then Err(end.value) else Ok(acc)
  }

  ghost predicate FitsIn(r: Record, n: nat) {
    r.payload.Bytes? ==> |r.payload.bytes| + 2 <= n
  }

  // --------------------------------------------------------------- specification

  function DecodeAny(b: seq<byte>): Result<AnyValue, Error>
    decreases |b|, 2, 0
  {
    ScanIsShort(b, 0);
    var s := ScanFrom(b, 0);
    FoldAny(|b|, s.records, EMPTY_ANY, s.error)
  }

  function FoldAny(n: nat, rs: seq<Record>, acc: AnyValue, end: Option<Error>): Result<AnyValue, Error>
    requires Short(rs, n)
    decreases n, 1, |rs|
  {
    if rs == [] then Ended(acc, end) else
    var next :- StepAny(n, rs[0], acc);
    FoldAny(n, rs[1..], next, end)
  }

  /** A later field of a kind replaces an earlier one; unknown fields are ignored. */
  function StepAny(n: nat, r: Record, acc: AnyValue): Result<AnyValue, Error>
    requires FitsIn(r, n)
    decreases n, 0, 0
  {
    match r
    case Record(1, Bytes(x)) => Ok(acc.(stringValue := Some(x)))
    case Record(2, Varint(v)) => Ok(acc.(boolValue := Some(v != 0)))
    case Record(3, Varint(v)) => Ok(acc.(intValue := Some(v)))
    case Record(4, Fixed64(x)) => if |x| < 8 then Err(TruncatedFixed64) else Ok(acc.(doubleValue := Some(x)))
    case Record(5, Bytes(x)) => var vs :- DecodeArray(x); Ok(acc.(arrayValue := Some(vs)))
    case Record(6, Bytes(x)) => var kvs :- DecodeKvList(x); Ok(acc.(kvlistValue := Some(kvs)))
    case Record(7, Bytes(x)) => Ok(acc.(bytesValue := Some(x)))
    case _ => Ok(acc)
  }

  function DecodeArray(b: seq<byte>): Result<seq<AnyValue>, Error>
    decreases |b|, 2, 0
  {
    ScanIsShort(b, 0);
    var s := ScanFrom(b, 0);
    FoldArray(|b|, s.records, [], s.error)
  }

  function FoldArray(n: nat, rs: seq<Record>, acc: seq<AnyValue>, end: Option<Error>): Result<seq<AnyValue>, Error>
    requires Short(rs, n)
    decreases n, 1, |rs|
  {
    if rs == [] then Ended(acc, end) else
    var next :- StepArray(n, rs[0], acc);
    FoldArray(n, rs[1..], next, end)
  }

  function StepArray(n: nat, r: Record, acc: seq<AnyValue>): Result<seq<AnyValue>, Error>
    requires FitsIn(r, n)
    decreases n, 0, 0
  {
    match r
    case Record(1, Bytes(x)) => var v :- DecodeAny(x); Ok(acc + [v])
    case _ => Ok(acc)
  }

  function DecodeKv(b: seq<byte>): Result<KeyValue, Error>
    decreases |b|, 2, 0
  {
    ScanIsShort(b, 0);
    var s := ScanFrom(b, 0);
    FoldKv(|b|, s.records, EMPTY_KEY_VALUE, s.error)
  }

  function FoldKv(n: nat, rs: seq<Record>, acc: KeyValue, end: Option<Error>): Result<KeyValue, Error>
    requires Short(rs, n)
    decreases n, 1, |rs|
  {
    if rs == [] then Ended(acc, end) else
    var next :- StepKv(n, rs[0], acc);
    FoldKv(n, rs[1..], next, end)
  }

  function StepKv(n: nat, r: Record, acc: KeyValue): Result<KeyValue, Error>
    requires FitsIn(r, n)
    decreases n, 0, 0
  {
    match r
    case Record(1, Bytes(x)) => Ok(acc.(key := Some(x)))
    case Record(2, Bytes(x)) => var v :- DecodeAny(x); Ok(acc.(value := Some(v)))
    case _ => Ok(acc)
  }

  function DecodeKvList(b: seq<byte>): Result<seq<KeyValue>, Error>
    decreases |b|, 2, 0
  {
    ScanIsShort(b, 0);
    var s := ScanFrom(b, 0);
    FoldKvList(|b|, s.records, [], s.error)
  }

  function FoldKvList(n: nat, rs: seq<Record>, acc: seq<KeyValue>, end: Option<Error>): Result<seq<KeyValue>, Error>
    requires Short(rs, n)
    decreases n, 1, |rs|
  {
    if rs == [] then Ended(acc, end) else
    var next :- StepKvList(n, rs[0], acc);
    FoldKvList(n, rs[1..], next, end)
  }

  function StepKvList(n: nat, r: Record, acc: seq<KeyValue>): Result<seq<KeyValue>, Error>
    requires FitsIn(r, n)
    decreases n, 0, 0
  {
    match r
    case Record(1, Bytes(x)) => var kv :- DecodeKv(x); Ok(acc + [kv])
    case _ => Ok(acc)
  }

  // --------------------------------------------- the rest of a message from an offset

  ghost function AnyFrom(b: seq<byte>, o: nat, acc: AnyValue): Result<AnyValue, Error> {
    ScanIsShort(b, o);
    FoldAny(|b|, ScanFrom(b, o).records, acc, ScanFrom(b, o).error)
  }

  ghost function ArrayFrom(b: seq<byte>, o: nat, acc: seq<AnyValue>): Result<seq<AnyValue>, Error> {
    ScanIsShort(b, o);
    FoldArray(|b|, ScanFrom(b, o).records, acc, ScanFrom(b, o).error)
  }

  ghost function KvFrom(b: seq<byte>, o: nat, acc: KeyValue): Result<KeyValue, Error> {
    ScanIsShort(b, o);
    FoldKv(|b|, ScanFrom(b, o).records, acc, ScanFrom(b, o).error)
  }

  ghost function KvListFrom(b: seq<byte>, o: nat, acc: seq<KeyValue>): Result<seq<KeyValue>, Error> {
    ScanIsShort(b, o);
    FoldKvList(|b|, ScanFrom(b, o).records, acc, ScanFrom(b, o).error)
  }

  lemma {:induction false} AnyFromStep(b: seq<byte>, o: nat, acc: AnyValue)
    requires o < |b|
    ensures AnyFrom(b, o, acc) ==
            match RecordAt(b, o)
            case Err(e) => Err(e)
            case Ok(r) => (match StepAny(|b|, r.value, acc) case Err(e) => Err(e) case Ok(next) => AnyFrom(b, r.next, next))
  {
    if RecordAt(b, o).Ok? {
      var r := RecordAt(b, o).value;
      ScanIsShort(b, r.next);
      assert ScanFrom(b, o).records[1..] == ScanFrom(b, r.next).records;
    }
  }

  lemma {:induction false} ArrayFromStep(b: seq<byte>, o: nat, acc: seq<AnyValue>)
    requires o < |b|
    ensures ArrayFrom(b, o, acc) ==
            match RecordAt(b, o)
            case Err(e) => Err(e)
            case Ok(r) => (match StepArray(|b|, r.value, acc) case Err(e) => Err(e) case Ok(next) => ArrayFrom(b, r.next, next))
  {
    if RecordAt(b, o).Ok? {
      var r := RecordAt(b, o).value;
      ScanIsShort(b, r.next);
      assert ScanFrom(b, o).records[1..] == ScanFrom(b, r.next).records;
    }
  }

  lemma {:induction false} KvFromStep(b: seq<byte>, o: nat, acc: KeyValue)
    requires o < |b|
    ensures KvFrom(b, o, acc) ==
            match RecordAt(b, o)
            case Err(e) => Err(e)
            case Ok(r) => (match StepKv(|b|, r.value, acc) case Err(e) => Err(e) case Ok(next) => KvFrom(b, r.next, next))
  {
    if RecordAt(b, o).Ok? {
      var r := RecordAt(b, o).value;
      ScanIsShort(b, r.next);
      assert ScanFrom(b, o).records[1..] == ScanFrom(b, r.next).records;
    }
  }

  lemma {:induction false} KvListFromStep(b: seq<byte>, o: nat, acc: seq<KeyValue>)
    requires o < |b|
    ensures KvListFrom(b, o, acc) ==
            match RecordAt(b, o)
            case Err(e) => Err(e)
            case Ok(r) => (match StepKvList(|b|, r.value, acc) case Err(e) => Err(e) case Ok(next) => KvListFrom(b, r.next, next))
  {
    if RecordAt(b, o).Ok? {
      var r := RecordAt(b, o).value;
      ScanIsShort(b, r.next);
      assert ScanFrom(b, o).records[1..] == ScanFrom(b, r.next).records;
    }
  }

  // -------------------------------------------------------------------- the decoders

  /** The body of the loop of `decodeAnyValue`, after the tag. */
  method ReadAnyField(reader: ProtoReader, field: nat, wire: nat, value: AnyValue) returns (r: Result<AnyValue, Error>)
    requires 0 < reader.offset <= |reader.buffer|
    modifies reader
    ensures match PayloadAt(reader.buffer, old(reader.offset), wire)
            case Err(e) => r == Err(e)
            case Ok(p) =>
              && FitsIn(Record(field, p.value), |reader.buffer|)
              && r == StepAny(|reader.buffer|, Record(field, p.value), value)
              && (r.Ok? ==> reader.offset == p.next)
    decreases |reader.buffer|, 1
  {
    if field == 1 && wire == 2 {
      var x :- reader.ReadBytes();
      r := Ok(value.(stringValue := Some(x)));
    } else if field == 2 && wire == 0 {
      var v :- reader.ReadVarint();
      r := Ok(value.(boolValue := Some(v != 0)));
    } else if field == 3 && wire == 0 {
      var v :- reader.ReadVarint();
      r := Ok(value.(intValue := Some(v)));
    } else if field == 4 && wire == 1 {
      var x :- reader.ReadFixed64();
      r := Ok(value.(doubleValue := Some(x)));
    } else if field == 5 && wire == 2 {
      var x :- reader.ReadBytes();
      var vs :- DecodeArrayValue(x);
      r := Ok(value.(arrayValue := Some(vs)));
    } else if field == 6 && wire == 2 {
      var x :- reader.ReadBytes();
      var kvs :- DecodeKeyValueList(x);
      r := Ok(value.(kvlistValue := Some(kvs)));
    } else if field == 7 && wire == 2 {
      var x :- reader.ReadBytes();
      r := Ok(value.(bytesValue := Some(x)));
    } else {
      var _ :- reader.Skip(wire);
      r := Ok(value);
    }
  }

  method DecodeAnyValue(message: seq<byte>) returns (r: Result<AnyValue, Error>)
    ensures r == DecodeAny(message)
    decreases |message|, 2
  {
    var reader := new ProtoReader(message);
    var value := EMPTY_ANY;
    while !reader.Done()
      invariant reader.buffer == message && reader.offset <= |message| + 8
      invariant DecodeAny(message) == AnyFrom(message, reader.offset, value)
      decreases |message| + 8 - reader.offset
    {
      AnyFromStep(message, reader.offset, value);
      var tag :- reader.ReadTag();
      value :- ReadAnyField(reader, tag.0, tag.1, value);
    }
    r := Ok(value);
  }

  method DecodeArrayValue(message: seq<byte>) returns (r: Result<seq<AnyValue>, Error>)
    ensures r == DecodeArray(message)
    decreases |message|, 2
  {
    var reader := new ProtoReader(message);
    var values: seq<AnyValue> := [];
    while !reader.Done()
      invariant reader.buffer == message && reader.offset <= |message| + 8
      invariant DecodeArray(message) == ArrayFrom(message, reader.offset, values)
      decreases |message| + 8 - reader.offset
    {
      ArrayFromStep(message, reader.offset, values);
      var tag :- reader.ReadTag();
      if tag.0 == 1 && tag.1 == 2 {
        var x :- reader.ReadBytes();
        var v :- DecodeAnyValue(x);
        values := values + [v];
      } else {
        var _ :- reader.Skip(tag.1);
      }
    }
    r := Ok(values);
  }

  method DecodeKeyValue(message: seq<byte>) returns (r: Result<KeyValue, Error>)
    ensures r == DecodeKv(message)
    decreases |message|, 2
  {
    var reader := new ProtoReader(message);
    var entry := EMPTY_KEY_VALUE;
    while !reader.Done()
      invariant reader.buffer == message && reader.offset <= |message| + 8
      invariant DecodeKv(message) == KvFrom(message, reader.offset, entry)
      decreases |message| + 8 - reader.offset
    {
      KvFromStep(message, reader.offset, entry);
      var tag :- reader.ReadTag();
      if tag.0 == 1 && tag.1 == 2 {
        var x :- reader.ReadBytes();
        entry := entry.(key := Some(x));
      } else if tag.0 == 2 && tag.1 == 2 {
        var x :- reader.ReadBytes();
        var v :- DecodeAnyValue(x);
        entry := entry.(value := Some(v));
      } else {
        var _ :- reader.Skip(tag.1);
      }
    }
    r := Ok(entry);
  }

  method DecodeKeyValueList(message: seq<byte>) returns (r: Result<seq<KeyValue>, Error>)
    ensures r == DecodeKvList(message)
    decreases |message|, 2
  {
    var reader := new ProtoReader(message);
    var values: seq<KeyValue> := [];
    while !reader.Done()
      invariant reader.buffer == message && reader.offset <= |message| + 8
      invariant DecodeKvList(message) == KvListFrom(message, reader.offset, values)
      decreases |message| + 8 - reader.offset
    {
      KvListFromStep(message, reader.offset, values);
      var tag :- reader.ReadTag();
      if tag.0 == 1 && tag.1 == 2 {
        var x :- reader.ReadBytes();
        var kv :- DecodeKeyValue(x);
        values := values + [kv];
      } else {
        var _ :- reader.Skip(tag.1);
      }
    }
    r := Ok(values);
  }
}

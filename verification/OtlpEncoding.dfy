/**
 The standard protobuf encoding of OTLP values, with arbitrary unknown fields
 between the records of every message, and the proof that the decoders of module
 OtlpDecoder invert it.
 */
module OtlpEncoding {
  import opened Common
  import opened ProtoWire
  import opened OtlpDecoder

  // --------------------------------------------------------------- wire encoding

  function EncodeVarint(n: nat): seq<byte> {
    if n < 128 then [n] else [n % 128 + 128] + EncodeVarint(n / 128)
  }

  function WireType(p: Payload): nat {
    match p
    case Varint(_) => 0
    case Fixed64(_) => 1
    case Bytes(_) => 2
    case Fixed32(_) => 5
  }

  function EncodePayload(p: Payload): seq<byte> {
    match p
    case Varint(n) => EncodeVarint(n)
    case Fixed64(raw) => raw
    case Bytes(x) => EncodeVarint(|x|) + x
    case Fixed32(raw) => raw
  }

  function EncodeRecord(r: Record): seq<byte> {
    EncodeVarint(8 * r.field + WireType(r.payload)) + EncodePayload(r.payload)
  }

  function EncodeRecords(rs: seq<Record>): seq<byte> {
    if rs == [] then [] else EncodeRecord(rs[0]) + EncodeRecords(rs[1..])
  }

  /** A record that the format can express: the tag has 32 bits, and fixed-width
      payloads are complete. */
  predicate Encodable(r: Record) {
    && 8 * r.field + 7 < TWO32
    && (r.payload.Fixed64? ==> |r.payload.raw| == 8)
    && (r.payload.Fixed32? ==> |r.payload.raw| == 4)
  }

  predicate AllEncodable(rs: seq<Record>) {
    forall i :: 0 <= i < |rs| ==> Encodable(rs[i])
  }

  /** x stands in b from offset o on. */
  ghost predicate At(b: seq<byte>, o: nat, x: seq<byte>) {
    o + |x| <= |b| && forall i :: 0 <= i < |x| ==> b[o + i] == x[i]
  }

  lemma AtParts(b: seq<byte>, o: nat, x: seq<byte>, y: seq<byte>)
    requires At(b, o, x + y)
    ensures At(b, o, x) && At(b, o + |x|, y)
  {
    var z := x + y;
    forall i | 0 <= i < |x|
      ensures b[o + i] == x[i]
    {
      assert z[i] == x[i];
    }
    forall i | 0 <= i < |y|
      ensures b[o + |x| + i] == y[i]
    {
      assert b[o + (|x| + i)] == z[|x| + i] == y[i];
    }
  }

  lemma {:induction false} VarintInverts(b: seq<byte>, o: nat, n: nat)
    requires At(b, o, EncodeVarint(n))
    ensures VarintAt(b, o) == Ok(Read(n, o + |EncodeVarint(n)|))
    decreases n
  {
    assert b[o + 0] == EncodeVarint(n)[0];
    if n >= 128 {
      AtParts(b, o, [n % 128 + 128], EncodeVarint(n / 128));
      VarintInverts(b, o + 1, n / 128);
    }
  }

  lemma {:induction false} BytesInvert(b: seq<byte>, o: nat, x: seq<byte>)
    requires At(b, o, EncodeVarint(|x|) + x)
    ensures BytesAt(b, o) == Ok(Read(x, o + |EncodeVarint(|x|)| + |x|))
  {
    AtParts(b, o, EncodeVarint(|x|), x);
    VarintInverts(b, o, |x|);
    var start := o + |EncodeVarint(|x|)|;
    assert b[start..start + |x|] == x;
  }

  lemma {:induction false} PayloadInverts(b: seq<byte>, o: nat, p: Payload)
    requires p.Fixed64? ==> |p.raw| == 8
    requires p.Fixed32? ==> |p.raw| == 4
    requires At(b, o, EncodePayload(p))
    ensures PayloadAt(b, o, WireType(p)) == Ok(Read(p, o + |EncodePayload(p)|))
  {
    match p
    case Varint(n) => VarintInverts(b, o, n);
    case Fixed64(raw) => assert b[o..o + 8] == raw;
    case Bytes(x) => BytesInvert(b, o, x);
    case Fixed32(raw) => assert b[o..o + 4] == raw;
  }

  lemma TagInverts(field: nat, wire: nat)
    requires 8 * field + 7 < TWO32 && wire < 8
    ensures FieldOf(8 * field + wire) == field && WireOf(8 * field + wire) == wire
  {
  }

  lemma {:induction false} RecordFrom(b: seq<byte>, o: nat, tag: nat, next: nat, p: Payload, end: nat)
    requires VarintAt(b, o) == Ok(Read(tag, next)) && PayloadAt(b, next, WireOf(tag)) == Ok(Read(p, end))
    ensures RecordAt(b, o) == Ok(Read(Record(FieldOf(tag), p), end))
  {
  }

  lemma {:induction false} RecordInverts(b: seq<byte>, o: nat, r: Record)
    requires Encodable(r) && At(b, o, EncodeRecord(r))
    ensures RecordAt(b, o) == Ok(Read(r, o + |EncodeRecord(r)|))
  {
    var tag := 8 * r.field + WireType(r.payload);
    var head, body := EncodeVarint(tag), EncodePayload(r.payload);
    assert At(b, o, head) && At(b, o + |head|, body) by { AtParts(b, o, head, body); }
    assert VarintAt(b, o) == Ok(Read(tag, o + |head|)) by { VarintInverts(b, o, tag); }
    TagInverts(r.field, WireType(r.payload));
    assert PayloadAt(b, o + |head|, WireOf(tag)) == Ok(Read(r.payload, o + |head| + |body|)) by {
      PayloadInverts(b, o + |head|, r.payload);
    }
    RecordFrom(b, o, tag, o + |head|, r.payload, o + |head| + |body|);
  }

  /** The records stand in b one after the other, from o to the end. */
  ghost predicate Chain(b: seq<byte>, o: nat, rs: seq<Record>)
    decreases |rs|
  {
    if rs == [] then o == |b|
    else
      && RecordAt(b, o).Ok?
      && RecordAt(b, o).value.value == rs[0]
      && Chain(b, RecordAt(b, o).value.next, rs[1..])
  }

  lemma {:induction false} ScanOfChain(b: seq<byte>, o: nat, rs: seq<Record>)
    requires Chain(b, o, rs)
    ensures ScanFrom(b, o) == Scan(rs, None)
    decreases |rs|
  {
    if rs == [] {
    } else {
      ScanOfChain(b, RecordAt(b, o).value.next, rs[1..]);
      assert rs == [rs[0]] + rs[1..];
    }
  }

  /** Encoded records, after anything, are read one after the other. */
  lemma {:induction false} ChainOfEncoding(pre: seq<byte>, rs: seq<Record>)
    requires AllEncodable(rs)
    ensures Chain(pre + EncodeRecords(rs), |pre|, rs)
    decreases |rs|
  {
    if rs == [] {
      assert pre + EncodeRecords(rs) == pre;
    } else {
      var head, tail := EncodeRecord(rs[0]), EncodeRecords(rs[1..]);
      RecordInFront(pre, rs[0], tail);
      Assoc(pre, head, tail);
      ChainOfEncoding(pre + head, rs[1..]);
      ChainCons(pre + (head + tail), |pre|, |pre + head|, rs);
    }
  }

  lemma {:induction false} RecordInFront(pre: seq<byte>, r: Record, post: seq<byte>)
    requires Encodable(r)
    ensures RecordAt(pre + (EncodeRecord(r) + post), |pre|) == Ok(Read(r, |pre + EncodeRecord(r)|))
  {
    StandsBetween(pre, EncodeRecord(r), post);
    RecordInverts(pre + (EncodeRecord(r) + post), |pre|, r);
  }

  lemma {:induction false} StandsBetween(pre: seq<byte>, x: seq<byte>, post: seq<byte>)
    ensures At(pre + (x + post), |pre|, x)
  {
    forall i | 0 <= i < |x|
      ensures (pre + (x + post))[|pre| + i] == x[i]
    {
      assert (pre + (x + post))[|pre| + i] == (x + post)[i];
    }
  }

  lemma {:induction false} ChainCons(b: seq<byte>, o: nat, next: nat, rs: seq<Record>)
    requires rs != [] && RecordAt(b, o) == Ok(Read(rs[0], next)) && Chain(b, next, rs[1..])
    ensures Chain(b, o, rs)
  {
  }

  /** Splitting an encoded message gives back its records. */
  lemma {:induction false} ScanWhole(rs: seq<Record>)
    requires AllEncodable(rs)
    ensures ScanFrom(EncodeRecords(rs), 0) == Scan(rs, None)
    ensures Short(rs, |EncodeRecords(rs)|)
  {
    assert Chain(EncodeRecords(rs), 0, rs) by {
      ChainOfEncoding([], rs);
      assert [] + EncodeRecords(rs) == EncodeRecords(rs);
    }
    ScanOfChain(EncodeRecords(rs), 0, rs);
    ScanIsShort(EncodeRecords(rs), 0);
  }

  // ----------------------------------------------------------- values and messages

  /** An attribute value: a tree of any depth. */
  datatype Tree =
    | Unset
    | StringTree(text: seq<byte>)
    | BoolTree(flag: bool)
    | IntTree(n: nat)
    | DoubleTree(raw: seq<byte>)
    | ArrayTree(items: seq<Tree>)
    | KvTree(entries: seq<Pair>)
    | BytesTree(bytes: seq<byte>)

  datatype Pair = Pair(key: seq<byte>, value: Tree)

  /** The value as the decoder represents it. */
  function Value(t: Tree): AnyValue {
    match t
    case Unset => EMPTY_ANY
    case StringTree(text) => EMPTY_ANY.(stringValue := Some(text))
    case BoolTree(flag) => EMPTY_ANY.(boolValue := Some(flag))
    case IntTree(n) => EMPTY_ANY.(intValue := Some(n))
    case DoubleTree(raw) => EMPTY_ANY.(doubleValue := Some(raw))
    case ArrayTree(items) => EMPTY_ANY.(arrayValue := Some(Values(items)))
    case KvTree(entries) => EMPTY_ANY.(kvlistValue := Some(PairValues(entries)))
    case BytesTree(bytes) => EMPTY_ANY.(bytesValue := Some(bytes))
  }

  function Values(ts: seq<Tree>): seq<AnyValue> {
    if ts == [] then [] else [Value(ts[0])] + Values(ts[1..])
  }

  function PairValue(p: Pair): KeyValue {
    KeyValue(Some(p.key), Some(Value(p.value)))
  }

  function PairValues(ps: seq<Pair>): seq<KeyValue> {
    if ps == [] then [] else [PairValue(ps[0])] + PairValues(ps[1..])
  }

  /** A message that carries a value: the records of unknown fields around its own. */
  datatype AnyMessage = AnyMessage(before: seq<Record>, body: Body, after: seq<Record>)

  datatype Body =
    | Leaf(tree: Tree)
    | ArrayBody(items: seq<Item>, trail: seq<Record>)
    | KvBody(pairs: seq<PairItem>, trail: seq<Record>)

  /** An element with the unknown fields in front of it. */
  datatype Item = Item(before: seq<Record>, message: AnyMessage)

  datatype PairItem = PairItem(before: seq<Record>, message: PairMessage)

  datatype PairMessage = PairMessage(
    before: seq<Record>, key: seq<byte>, between: seq<Record>, value: AnyMessage, after: seq<Record>)

  /** The value without the unknown fields. */
  function Strip(m: AnyMessage): Tree {
    match m.body
    case Leaf(t) => t
    case ArrayBody(items, _) => ArrayTree(StripItems(items))
    case KvBody(pairs, _) => KvTree(StripPairs(pairs))
  }

  function StripItems(items: seq<Item>): seq<Tree> {
    if items == [] then [] else [Strip(items[0].message)] + StripItems(items[1..])
  }

  function StripPair(m: PairMessage): Pair {
    Pair(m.key, Strip(m.value))
  }

  function StripPairs(pairs: seq<PairItem>): seq<Pair> {
    if pairs == [] then [] else [StripPair(pairs[0].message)] + StripPairs(pairs[1..])
  }

  // ------------------------------------------------------------------- unknown fields

  predicate KnownToAny(r: Record) {
    match r
    case Record(1, Bytes(_)) => true
    case Record(2, Varint(_)) => true
    case Record(3, Varint(_)) => true
    case Record(4, Fixed64(_)) => true
    case Record(5, Bytes(_)) => true
    case Record(6, Bytes(_)) => true
    case Record(7, Bytes(_)) => true
    case _ => false
  }

  predicate KnownToKv(r: Record) {
    (r.field == 1 || r.field == 2) && r.payload.Bytes?
  }

  /** Array and list messages know one field. */
  predicate KnownToList(r: Record) {
    r.field == 1 && r.payload.Bytes?
  }

  predicate UnknownToAny(rs: seq<Record>) {
    forall i :: 0 <= i < |rs| ==> Encodable(rs[i]) && !KnownToAny(rs[i])
  }

  predicate UnknownToKv(rs: seq<Record>) {
    forall i :: 0 <= i < |rs| ==> Encodable(rs[i]) && !KnownToKv(rs[i])
  }

  predicate UnknownToList(rs: seq<Record>) {
    forall i :: 0 <= i < |rs| ==> Encodable(rs[i]) && !KnownToList(rs[i])
  }

  /** The largest integer doubles represent exactly, plus one. */
  const MAX_EXACT: nat := 0x20_0000_0000_0000

  /** All fields called unknown are unknown where they stand, leaves are leaves,
      integers are below 2^53 and doubles have eight bytes. */
  predicate ValidAny(m: AnyMessage) {
    && UnknownToAny(m.before) && UnknownToAny(m.after)
    && match m.body
       case Leaf(t) =>
         && !t.ArrayTree? && !t.KvTree?
         && (t.IntTree? ==> t.n < MAX_EXACT)
         && (t.DoubleTree? ==> |t.raw| == 8)
       case ArrayBody(items, trail) => ValidItems(items) && UnknownToList(trail)
       case KvBody(pairs, trail) => ValidPairs(pairs) && UnknownToList(trail)
  }

  predicate ValidItems(items: seq<Item>) {
    items == [] || (UnknownToList(items[0].before) && ValidAny(items[0].message) && ValidItems(items[1..]))
  }

  predicate ValidPair(m: PairMessage) {
    UnknownToKv(m.before) && UnknownToKv(m.between) && UnknownToKv(m.after) && ValidAny(m.value)
  }

  predicate ValidPairs(pairs: seq<PairItem>) {
    pairs == [] || (UnknownToList(pairs[0].before) && ValidPair(pairs[0].message) && ValidPairs(pairs[1..]))
  }

  // ------------------------------------------------------------------- message encoding

  function EncodeAny(m: AnyMessage): seq<byte> {
    EncodeRecords(m.before + BodyRecords(m.body) + m.after)
  }

  function BodyRecords(body: Body): seq<Record> {
    match body
    case Leaf(t) => LeafRecords(t)
    case ArrayBody(items, trail) => [Record(5, Bytes(EncodeRecords(ListRecords(ItemParts(items)) + trail)))]
    case KvBody(pairs, trail) => [Record(6, Bytes(EncodeRecords(ListRecords(PairParts(pairs)) + trail)))]
  }

  function LeafRecords(t: Tree): seq<Record> {
    match t
    case StringTree(text) => [Record(1, Bytes(text))]
    case BoolTree(flag) => [Record(2, Varint(if flag then 1 else 0))]
    case IntTree(n) => [Record(3, Varint(n))]
    case DoubleTree(raw) => [Record(4, Fixed64(raw))]
    case BytesTree(bytes) => [Record(7, Bytes(bytes))]
    case _ => []
  }

  /** An encoded element with the unknown fields in front of it. */
  datatype Part = Part(before: seq<Record>, bytes: seq<byte>)

  function ListRecords(parts: seq<Part>): seq<Record> {
    if parts == [] then []
    else parts[0].before + ([Record(1, Bytes(parts[0].bytes))] + ListRecords(parts[1..]))
  }

  function ItemParts(items: seq<Item>): seq<Part> {
    if items == [] then [] else [Part(items[0].before, EncodeAny(items[0].message))] + ItemParts(items[1..])
  }

  function EncodePair(m: PairMessage): seq<byte> {
    EncodeRecords(PairRecords(m.before, m.key, m.between, EncodeAny(m.value), m.after))
  }

  function PairRecords(before: seq<Record>, key: seq<byte>, between: seq<Record>, value: seq<byte>, after: seq<Record>): seq<Record> {
    before + ([Record(1, Bytes(key))] + (between + ([Record(2, Bytes(value))] + after)))
  }

  function PairParts(pairs: seq<PairItem>): seq<Part> {
    if pairs == [] then [] else [Part(pairs[0].before, EncodePair(pairs[0].message))] + PairParts(pairs[1..])
  }

  // ------------------------------------------------------------------------ skipping

  lemma {:induction false} SkipAny(n: nat, junk: seq<Record>, rs: seq<Record>, acc: AnyValue)
    requires UnknownToAny(junk) && Short(junk + rs, n)
    ensures Short(rs, n) && FoldAny(n, junk + rs, acc, None) == FoldAny(n, rs, acc, None)
    decreases |junk|
  {
    assert forall i :: 0 <= i < |rs| ==> rs[i] == (junk + rs)[|junk| + i];
    if junk == [] {
      assert junk + rs == rs;
    } else {
      assert (junk + rs)[1..] == junk[1..] + rs && (junk + rs)[0] == junk[0];
      SkipAny(n, junk[1..], rs, acc);
    }
  }

  lemma {:induction false} SkipArray(n: nat, junk: seq<Record>, rs: seq<Record>, acc: seq<AnyValue>)
    requires UnknownToList(junk) && Short(junk + rs, n)
    ensures Short(rs, n) && FoldArray(n, junk + rs, acc, None) == FoldArray(n, rs, acc, None)
    decreases |junk|
  {
    assert forall i :: 0 <= i < |rs| ==> rs[i] == (junk + rs)[|junk| + i];
    if junk == [] {
      assert junk + rs == rs;
    } else {
      assert (junk + rs)[1..] == junk[1..] + rs && (junk + rs)[0] == junk[0];
      SkipArray(n, junk[1..], rs, acc);
    }
  }

  lemma {:induction false} SkipKv(n: nat, junk: seq<Record>, rs: seq<Record>, acc: KeyValue)
    requires UnknownToKv(junk) && Short(junk + rs, n)
    ensures Short(rs, n) && FoldKv(n, junk + rs, acc, None) == FoldKv(n, rs, acc, None)
    decreases |junk|
  {
    assert forall i :: 0 <= i < |rs| ==> rs[i] == (junk + rs)[|junk| + i];
    if junk == [] {
      assert junk + rs == rs;
    } else {
      assert (junk + rs)[1..] == junk[1..] + rs && (junk + rs)[0] == junk[0];
      SkipKv(n, junk[1..], rs, acc);
    }
  }

  lemma {:induction false} SkipKvList(n: nat, junk: seq<Record>, rs: seq<Record>, acc: seq<KeyValue>)
    requires UnknownToList(junk) && Short(junk + rs, n)
    ensures Short(rs, n) && FoldKvList(n, junk + rs, acc, None) == FoldKvList(n, rs, acc, None)
    decreases |junk|
  {
    assert forall i :: 0 <= i < |rs| ==> rs[i] == (junk + rs)[|junk| + i];
    if junk == [] {
      assert junk + rs == rs;
    } else {
      assert (junk + rs)[1..] == junk[1..] + rs && (junk + rs)[0] == junk[0];
      SkipKvList(n, junk[1..], rs, acc);
    }
  }

  // -------------------------------------------------------------------- the round trip

  lemma EncodableParts(a: seq<Record>, b: seq<Record>)
    requires AllEncodable(a) && AllEncodable(b)
    ensures AllEncodable(a + b)
  {
  }

  lemma {:induction false} AnyIsEncodable(m: AnyMessage)
    requires ValidAny(m)
    ensures AllEncodable(m.before + BodyRecords(m.body) + m.after)
  {
    assert AllEncodable(BodyRecords(m.body));
    EncodableParts(m.before, BodyRecords(m.body));
    EncodableParts(m.before + BodyRecords(m.body), m.after);
  }

  ghost predicate PartsUnknown(parts: seq<Part>) {
    forall i :: 0 <= i < |parts| ==> UnknownToList(parts[i].before)
  }

  lemma {:induction false} ListIsEncodable(parts: seq<Part>)
    requires PartsUnknown(parts)
    ensures AllEncodable(ListRecords(parts))
  {
    if parts == [] {
    } else {
      ListIsEncodable(parts[1..]);
      EncodableParts([Record(1, Bytes(parts[0].bytes))], ListRecords(parts[1..]));
      EncodableParts(parts[0].before, [Record(1, Bytes(parts[0].bytes))] + ListRecords(parts[1..]));
    }
  }

  /** Unknown fields, then one known record, then the rest. */
  lemma {:induction false} AnyRecord(n: nat, junk: seq<Record>, r: Record, rest: seq<Record>, acc: AnyValue, next: AnyValue)
    requires UnknownToAny(junk) && Short(junk + ([r] + rest), n)
    requires FitsIn(r, n) && StepAny(n, r, acc) == Ok(next)
    ensures Short(rest, n) && FoldAny(n, junk + ([r] + rest), acc, None) == FoldAny(n, rest, next, None)
  {
    SkipAny(n, junk, [r] + rest, acc);
    assert ([r] + rest)[0] == r && ([r] + rest)[1..] == rest;
  }

  lemma {:induction false} ArrayRecord(n: nat, junk: seq<Record>, r: Record, rest: seq<Record>, acc: seq<AnyValue>, next: seq<AnyValue>)
    requires UnknownToList(junk) && Short(junk + ([r] + rest), n)
    requires FitsIn(r, n) && StepArray(n, r, acc) == Ok(next)
    ensures Short(rest, n) && FoldArray(n, junk + ([r] + rest), acc, None) == FoldArray(n, rest, next, None)
  {
    SkipArray(n, junk, [r] + rest, acc);
    assert ([r] + rest)[0] == r && ([r] + rest)[1..] == rest;
  }

  lemma {:induction false} KvRecord(n: nat, junk: seq<Record>, r: Record, rest: seq<Record>, acc: KeyValue, next: KeyValue)
    requires UnknownToKv(junk) && Short(junk + ([r] + rest), n)
    requires FitsIn(r, n) && StepKv(n, r, acc) == Ok(next)
    ensures Short(rest, n) && FoldKv(n, junk + ([r] + rest), acc, None) == FoldKv(n, rest, next, None)
  {
    SkipKv(n, junk, [r] + rest, acc);
    assert ([r] + rest)[0] == r && ([r] + rest)[1..] == rest;
  }

  lemma {:induction false} KvListRecord(n: nat, junk: seq<Record>, r: Record, rest: seq<Record>, acc: seq<KeyValue>, next: seq<KeyValue>)
    requires UnknownToList(junk) && Short(junk + ([r] + rest), n)
    requires FitsIn(r, n) && StepKvList(n, r, acc) == Ok(next)
    ensures Short(rest, n) && FoldKvList(n, junk + ([r] + rest), acc, None) == FoldKvList(n, rest, next, None)
  {
    SkipKvList(n, junk, [r] + rest, acc);
    assert ([r] + rest)[0] == r && ([r] + rest)[1..] == rest;
  }

  lemma ShortAt(rs: seq<Record>, n: nat, i: nat)
    requires Short(rs, n) && i < |rs|
    ensures FitsIn(rs[i], n)
  {
  }

  /** Every part decodes to the value in its place. */
  ghost predicate PartsDecode(parts: seq<Part>, vs: seq<AnyValue>) {
    |parts| == |vs| && forall i :: 0 <= i < |parts| ==> DecodeAny(parts[i].bytes) == Ok(vs[i])
  }

  ghost predicate PairPartsDecode(parts: seq<Part>, kvs: seq<KeyValue>) {
    |parts| == |kvs| && forall i :: 0 <= i < |parts| ==> DecodeKv(parts[i].bytes) == Ok(kvs[i])
  }

  /** One part of a list, as an array and as a key-value list. */
  lemma {:induction false} ArrayPart(n: nat, part: Part, rest: seq<Record>, acc: seq<AnyValue>, v: AnyValue)
    requires UnknownToList(part.before) && DecodeAny(part.bytes) == Ok(v)
    requires Short(part.before + ([Record(1, Bytes(part.bytes))] + rest), n)
    ensures Short(rest, n)
    ensures FoldArray(n, part.before + ([Record(1, Bytes(part.bytes))] + rest), acc, None) == FoldArray(n, rest, acc + [v], None)
  {
    var head := Record(1, Bytes(part.bytes));
    var rs := part.before + ([head] + rest);
    assert rs[|part.before|] == head;
    ShortAt(rs, n, |part.before|);
    ArrayRecord(n, part.before, head, rest, acc, acc + [v]);
  }

  lemma {:induction false} KvListPart(n: nat, part: Part, rest: seq<Record>, acc: seq<KeyValue>, kv: KeyValue)
    requires UnknownToList(part.before) && DecodeKv(part.bytes) == Ok(kv)
    requires Short(part.before + ([Record(1, Bytes(part.bytes))] + rest), n)
    ensures Short(rest, n)
    ensures FoldKvList(n, part.before + ([Record(1, Bytes(part.bytes))] + rest), acc, None) == FoldKvList(n, rest, acc + [kv], None)
  {
    var head := Record(1, Bytes(part.bytes));
    var rs := part.before + ([head] + rest);
    assert rs[|part.before|] == head;
    ShortAt(rs, n, |part.before|);
    KvListRecord(n, part.before, head, rest, acc, acc + [kv]);
  }

  lemma ListCons(parts: seq<Part>, trail: seq<Record>)
    requires parts != []
    ensures ListRecords(parts) + trail
            == parts[0].before + ([Record(1, Bytes(parts[0].bytes))] + (ListRecords(parts[1..]) + trail))
  {
    var head, rest := [Record(1, Bytes(parts[0].bytes))], ListRecords(parts[1..]);
    Assoc(parts[0].before, head + rest, trail);
    Assoc(head, rest, trail);
  }

  lemma {:induction false} ArrayFolds(n: nat, parts: seq<Part>, trail: seq<Record>, acc: seq<AnyValue>, vs: seq<AnyValue>)
    requires PartsUnknown(parts) && UnknownToList(trail) && PartsDecode(parts, vs) && Short(ListRecords(parts) + trail, n)
    ensures FoldArray(n, ListRecords(parts) + trail, acc, None) == Ok(acc + vs)
    decreases |parts|
  {
    if parts == [] {
      assert ListRecords(parts) + trail == trail + [];
      SkipArray(n, trail, [], acc);
      assert acc + vs == acc;
    } else {
      var rest := ListRecords(parts[1..]) + trail;
      ListCons(parts, trail);
      ArrayPart(n, parts[0], rest, acc, vs[0]);
      assert FoldArray(n, rest, acc + [vs[0]], None) == Ok(acc + [vs[0]] + vs[1..]) by {
        ArrayFolds(n, parts[1..], trail, acc + [vs[0]], vs[1..]);
      }
      MoveFirst(acc, vs);
    }
  }

  lemma {:induction false} KvListFolds(n: nat, parts: seq<Part>, trail: seq<Record>, acc: seq<KeyValue>, kvs: seq<KeyValue>)
    requires PartsUnknown(parts) && UnknownToList(trail) && PairPartsDecode(parts, kvs) && Short(ListRecords(parts) + trail, n)
    ensures FoldKvList(n, ListRecords(parts) + trail, acc, None) == Ok(acc + kvs)
    decreases |parts|
  {
    if parts == [] {
      assert ListRecords(parts) + trail == trail + [];
      SkipKvList(n, trail, [], acc);
      assert acc + kvs == acc;
    } else {
      var rest := ListRecords(parts[1..]) + trail;
      ListCons(parts, trail);
      KvListPart(n, parts[0], rest, acc, kvs[0]);
      assert FoldKvList(n, rest, acc + [kvs[0]], None) == Ok(acc + [kvs[0]] + kvs[1..]) by {
        KvListFolds(n, parts[1..], trail, acc + [kvs[0]], kvs[1..]);
      }
      MoveFirst(acc, kvs);
    }
  }

  lemma {:induction false} ArrayInverts(parts: seq<Part>, trail: seq<Record>, vs: seq<AnyValue>)
    requires PartsUnknown(parts) && UnknownToList(trail) && PartsDecode(parts, vs)
    ensures DecodeArray(EncodeRecords(ListRecords(parts) + trail)) == Ok(vs)
  {
    var rs := ListRecords(parts) + trail;
    ListIsEncodable(parts);
    EncodableParts(ListRecords(parts), trail);
    ScanWhole(rs);
    ArrayFolds(|EncodeRecords(rs)|, parts, trail, [], vs);
    assert [] + vs == vs;
  }

  lemma {:induction false} KvListInverts(parts: seq<Part>, trail: seq<Record>, kvs: seq<KeyValue>)
    requires PartsUnknown(parts) && UnknownToList(trail) && PairPartsDecode(parts, kvs)
    ensures DecodeKvList(EncodeRecords(ListRecords(parts) + trail)) == Ok(kvs)
  {
    var rs := ListRecords(parts) + trail;
    ListIsEncodable(parts);
    EncodableParts(ListRecords(parts), trail);
    ScanWhole(rs);
    KvListFolds(|EncodeRecords(rs)|, parts, trail, [], kvs);
    assert [] + kvs == kvs;
  }

  lemma {:induction false} KvFolds(n: nat, before: seq<Record>, key: seq<byte>, between: seq<Record>, x: seq<byte>,
                                   after: seq<Record>, v: AnyValue)
    requires UnknownToKv(before) && UnknownToKv(between) && UnknownToKv(after) && DecodeAny(x) == Ok(v)
    requires Short(PairRecords(before, key, between, x, after), n)
    ensures FoldKv(n, PairRecords(before, key, between, x, after), EMPTY_KEY_VALUE, None) == Ok(KeyValue(Some(key), Some(v)))
  {
    var k, value := Record(1, Bytes(key)), Record(2, Bytes(x));
    var rs, tail := PairRecords(before, key, between, x, after), between + ([value] + after);
    assert rs[|before|] == k;
    ShortAt(rs, n, |before|);
    KvRecord(n, before, k, tail, EMPTY_KEY_VALUE, KeyValue(Some(key), None));
    assert tail[|between|] == value;
    ShortAt(tail, n, |between|);
    KvRecord(n, between, value, after, KeyValue(Some(key), None), KeyValue(Some(key), Some(v)));
    assert after + [] == after;
    SkipKv(n, after, [], KeyValue(Some(key), Some(v)));
  }

  lemma {:induction false} KvInverts(before: seq<Record>, key: seq<byte>, between: seq<Record>, x: seq<byte>,
                                     after: seq<Record>, v: AnyValue)
    requires UnknownToKv(before) && UnknownToKv(between) && UnknownToKv(after) && DecodeAny(x) == Ok(v)
    ensures DecodeKv(EncodeRecords(PairRecords(before, key, between, x, after))) == Ok(KeyValue(Some(key), Some(v)))
  {
    var rs := PairRecords(before, key, between, x, after);
    assert AllEncodable(rs) by {
      EncodableParts([Record(2, Bytes(x))], after);
      EncodableParts(between, [Record(2, Bytes(x))] + after);
      EncodableParts([Record(1, Bytes(key))], between + ([Record(2, Bytes(x))] + after));
      EncodableParts(before, [Record(1, Bytes(key))] + (between + ([Record(2, Bytes(x))] + after)));
    }
    ScanWhole(rs);
    KvFolds(|EncodeRecords(rs)|, before, key, between, x, after, v);
  }

  lemma {:induction false} ItemsDecode(items: seq<Item>)
    requires ValidItems(items)
    ensures PartsUnknown(ItemParts(items)) && PartsDecode(ItemParts(items), Values(StripItems(items)))
    decreases items, 0
  {
    if items == [] {
    } else {
      DecodeInvertsEncode(items[0].message);
      ItemsDecode(items[1..]);
    }
  }

  lemma {:induction false} PairsDecode(pairs: seq<PairItem>)
    requires ValidPairs(pairs)
    ensures PartsUnknown(PairParts(pairs)) && PairPartsDecode(PairParts(pairs), PairValues(StripPairs(pairs)))
    decreases pairs, 0
  {
    if pairs == [] {
    } else {
      var m := pairs[0].message;
      DecodeInvertsEncode(m.value);
      KvInverts(m.before, m.key, m.between, EncodeAny(m.value), m.after, Value(Strip(m.value)));
      PairsDecode(pairs[1..]);
    }
  }

  /** The one record of a body sets the one field of the value. */
  lemma {:induction false} BodyStep(n: nat, m: AnyMessage)
    requires ValidAny(m) && BodyRecords(m.body) != [] && FitsIn(BodyRecords(m.body)[0], n)
    ensures |BodyRecords(m.body)| == 1
    ensures StepAny(n, BodyRecords(m.body)[0], EMPTY_ANY) == Ok(Value(Strip(m)))
    decreases m, 1
  {
    match m.body
    case Leaf(t) => LeafStep(n, t);
    case ArrayBody(items, trail) =>
      ItemsDecode(items);
      ArrayInverts(ItemParts(items), trail, Values(StripItems(items)));
      ArrayStep(n, EncodeRecords(ListRecords(ItemParts(items)) + trail), StripItems(items));
    case KvBody(pairs, trail) =>
      PairsDecode(pairs);
      KvListInverts(PairParts(pairs), trail, PairValues(StripPairs(pairs)));
      KvStep(n, EncodeRecords(ListRecords(PairParts(pairs)) + trail), StripPairs(pairs));
  }

  lemma {:induction false} ArrayStep(n: nat, x: seq<byte>, ts: seq<Tree>)
    requires |x| + 2 <= n && DecodeArray(x) == Ok(Values(ts))
    ensures StepAny(n, Record(5, Bytes(x)), EMPTY_ANY) == Ok(Value(ArrayTree(ts)))
  {
  }

  lemma {:induction false} KvStep(n: nat, x: seq<byte>, ps: seq<Pair>)
    requires |x| + 2 <= n && DecodeKvList(x) == Ok(PairValues(ps))
    ensures StepAny(n, Record(6, Bytes(x)), EMPTY_ANY) == Ok(Value(KvTree(ps)))
  {
  }

  lemma LeafStep(n: nat, t: Tree)
    requires LeafRecords(t) != [] && FitsIn(LeafRecords(t)[0], n) && (t.DoubleTree? ==> |t.raw| == 8)
    ensures |LeafRecords(t)| == 1
    ensures StepAny(n, LeafRecords(t)[0], EMPTY_ANY) == Ok(Value(t))
  {
  }

  lemma {:induction false} AnyFolds(n: nat, before: seq<Record>, body: seq<Record>, after: seq<Record>, v: AnyValue)
    requires UnknownToAny(before) && UnknownToAny(after) && Short(before + body + after, n) && |body| <= 1
    requires body == [] ==> v == EMPTY_ANY
    requires body != [] ==> FitsIn(body[0], n) && StepAny(n, body[0], EMPTY_ANY) == Ok(v)
    ensures FoldAny(n, before + body + after, EMPTY_ANY, None) == Ok(v)
  {
    assert after + [] == after;
    if body == [] {
      assert before + body + after == before + after;
      SkipAny(n, before, after, EMPTY_ANY);
    } else {
      assert before + body + after == before + ([body[0]] + after);
      AnyRecord(n, before, body[0], after, EMPTY_ANY, v);
    }
    SkipAny(n, after, [], v);
  }

  /** Decoding inverts the encoding of every value, at any depth, whatever
      well-formed unknown fields are inserted at any level. */
  lemma {:induction false} DecodeInvertsEncode(m: AnyMessage)
    requires ValidAny(m)
    ensures DecodeAny(EncodeAny(m)) == Ok(Value(Strip(m)))
    decreases m, 3
  {
    var body, n := BodyRecords(m.body), |EncodeAny(m)|;
    var rs := m.before + body + m.after;
    AnyIsEncodable(m);
    ScanWhole(rs);
    if body != [] {
      assert rs[|m.before|] == body[0];
      ShortAt(rs, n, |m.before|);
      BodyStep(n, m);
    }
    AnyFolds(n, m.before, body, m.after, Value(Strip(m)));
  }

  // ---------------------------------------------------------- values without extras

  predicate ValidTree(t: Tree) {
    match t
    case IntTree(n) => n < MAX_EXACT
    case DoubleTree(raw) => |raw| == 8
    case ArrayTree(items) => forall i :: 0 <= i < |items| ==> ValidTree(items[i])
    case KvTree(entries) => forall i :: 0 <= i < |entries| ==> ValidTree(entries[i].value)
    case _ => true
  }

  /** The message that carries a value and nothing else. */
  function Plain(t: Tree): AnyMessage {
    match t
    case ArrayTree(items) => AnyMessage([], ArrayBody(PlainItems(items), []), [])
    case KvTree(entries) => AnyMessage([], KvBody(PlainPairs(entries), []), [])
    case _ => AnyMessage([], Leaf(t), [])
  }

  function PlainItems(ts: seq<Tree>): seq<Item> {
    if ts == [] then [] else [Item([], Plain(ts[0]))] + PlainItems(ts[1..])
  }

  function PlainPairs(ps: seq<Pair>): seq<PairItem> {
    if ps == [] then []
    else [PairItem([], PairMessage([], ps[0].key, [], Plain(ps[0].value), []))] + PlainPairs(ps[1..])
  }

  lemma {:induction false} PlainCarries(t: Tree)
    requires ValidTree(t)
    ensures ValidAny(Plain(t)) && Strip(Plain(t)) == t
    decreases t, 1
  {
    match t
    case ArrayTree(items) => PlainItemsCarry(items);
    case KvTree(entries) => PlainPairsCarry(entries);
    case _ =>
  }

  lemma {:induction false} PlainItemsCarry(ts: seq<Tree>)
    requires forall i :: 0 <= i < |ts| ==> ValidTree(ts[i])
    ensures ValidItems(PlainItems(ts)) && StripItems(PlainItems(ts)) == ts
    decreases ts, 0
  {
    if ts == [] {
    } else {
      HeadAndTail(Item([], Plain(ts[0])), PlainItems(ts[1..]));
      PlainCarries(ts[0]);
      PlainItemsCarry(ts[1..]);
    }
  }

  lemma {:induction false} PlainPairsCarry(ps: seq<Pair>)
    requires forall i :: 0 <= i < |ps| ==> ValidTree(ps[i].value)
    ensures ValidPairs(PlainPairs(ps)) && StripPairs(PlainPairs(ps)) == ps
    decreases ps, 0
  {
    if ps == [] {
    } else {
      var first := PairItem([], PairMessage([], ps[0].key, [], Plain(ps[0].value), []));
      HeadAndTail(first, PlainPairs(ps[1..]));
      assert ValidPair(first.message) && StripPair(first.message) == ps[0] by {
        PlainCarries(ps[0].value);
      }
      PlainPairsCarry(ps[1..]);
    }
  }

  /** Every value survives being encoded and decoded, and so does the same value
      with unknown fields inserted anywhere. */
  lemma RoundTrip(t: Tree, m: AnyMessage)
    requires ValidTree(t) && ValidAny(m) && Strip(m) == t
    ensures DecodeAny(EncodeAny(Plain(t))) == Ok(Value(t))
    ensures DecodeAny(EncodeAny(m)) == DecodeAny(EncodeAny(Plain(t)))
  {
    PlainCarries(t);
    DecodeInvertsEncode(Plain(t));
    DecodeInvertsEncode(m);
  }
}

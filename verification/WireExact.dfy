/**
 What the decoders of trace requests do to any bytes at all (scripts/qa-otel-smoke.ts):
 which bytes are a field, which value a message has and when it has none, said of the bytes
 and of the records in them. Malformed and truncated messages are covered.
 */
module WireExact {
  import opened Common
  import opened ProtoWire
  import opened OtlpDecoder
  import opened OtlpTrace

  // ------------------------------------------------------------------------------ fields

  /** A varint runs from o up to next: only its last byte is below 128. */
  ghost predicate IsVarint(b: seq<byte>, o: nat, next: nat) {
    o < next <= |b| && b[next - 1] < 128 && forall j: nat :: o <= j < next - 1 ==> b[j] >= 128
  }

  ghost predicate Unfinished(b: seq<byte>, o: nat) {
    forall j: nat :: o <= j < |b| ==> b[j] >= 128
  }

  /** Bytes as digits with base 128, the least first. */
  function Digits(b: seq<byte>, o: nat, next: nat): nat
    requires o <= next <= |b|
    decreases next - o
  {
    if o == next then 0 else b[o] % 128 + 128 * Digits(b, o + 1, next)
  }

  lemma {:induction false} VarintIsExact(b: seq<byte>, o: nat)
    ensures Unfinished(b, o) <==> VarintAt(b, o) == Err(TruncatedVarint)
    ensures Unfinished(b, o) <==> VarintAt(b, o).Err?
    ensures forall next: nat :: IsVarint(b, o, next) <==> VarintAt(b, o).Ok? && VarintAt(b, o).value.next == next
    ensures VarintAt(b, o).Ok? ==> VarintAt(b, o).value.value == Digits(b, o, VarintAt(b, o).value.next)
    decreases |b| - o
  {
    if o < |b| && b[o] >= 128 {
      VarintIsExact(b, o + 1);
      forall next: nat
        ensures IsVarint(b, o, next) <==> IsVarint(b, o + 1, next)
      {
      }
    } else if o < |b| {
      assert Digits(b, o + 1, o + 1) == 0;
      assert IsVarint(b, o, o + 1);
    }
  }

  /** The payload from t up to next that the wire type announces: a varint, eight or four
      bytes as far as there are any, or as many bytes as a varint says and no fewer. */
  ghost predicate IsPayload(b: seq<byte>, t: nat, wire: nat, p: Payload, next: nat)
    requires t <= |b|
  {
    match wire
    case 0 => IsVarint(b, t, next) && p == Varint(Digits(b, t, next))
    case 1 => next == t + 8 && p == Fixed64(b[t..if next <= |b| then next else |b|])
    case 2 => exists l: nat :: IsVarint(b, t, l) && l + Digits(b, t, l) == next <= |b| && p == Bytes(b[l..next])
    case 5 => next == t + 4 && p == Fixed32(b[t..if next <= |b| then next else |b|])
    case _ => false
  }

  ghost predicate IsBadPayload(b: seq<byte>, t: nat, wire: nat, e: Error) {
    match wire
    case 0 => Unfinished(b, t) && e == TruncatedVarint
    case 2 => (Unfinished(b, t) && e == TruncatedVarint)
              || (e == TruncatedBytes && exists l: nat :: IsVarint(b, t, l) && l + Digits(b, t, l) > |b|)
    case 1 => false
    case 5 => false
    case _ => e == UnsupportedWire(wire)
  }

  lemma {:induction false} PayloadIsExact(b: seq<byte>, t: nat, wire: nat)
    requires t <= |b|
    ensures forall p: Payload, next: nat :: PayloadAt(b, t, wire) == Ok(Read(p, next)) <==> IsPayload(b, t, wire, p, next)
    ensures forall e: Error :: PayloadAt(b, t, wire) == Err(e) <==> IsBadPayload(b, t, wire, e)
  {
    VarintIsExact(b, t);
    forall p: Payload, next: nat
      ensures PayloadAt(b, t, wire) == Ok(Read(p, next)) <==> IsPayload(b, t, wire, p, next)
    {
      if wire == 2 {
        BytesAreExact(b, t, p, next);
      }
    }
  }

  lemma {:induction false} BytesAreExact(b: seq<byte>, t: nat, p: Payload, next: nat)
    requires t <= |b|
    ensures PayloadAt(b, t, 2) == Ok(Read(p, next)) <==> IsPayload(b, t, 2, p, next)
  {
    VarintIsExact(b, t);
    if VarintAt(b, t).Ok? {
      assert IsVarint(b, t, VarintAt(b, t).value.next);
    }
  }

  /** A field from o up to next: a varint that holds its number and wire type, and the
      payload; the number is what is left of 32 bits. */
  ghost predicate IsField(b: seq<byte>, o: nat, r: Record, next: nat) {
    exists t: nat :: IsVarint(b, o, t) && FieldAfter(b, Digits(b, o, t), t, r, next)
  }

  ghost predicate FieldAfter(b: seq<byte>, tag: nat, t: nat, r: Record, next: nat)
    requires t <= |b|
  {
    r.field == tag / 8 % 0x2000_0000 && IsPayload(b, t, tag % 8, r.payload, next)
  }

  ghost predicate IsBadField(b: seq<byte>, o: nat, e: Error) {
    || (Unfinished(b, o) && e == TruncatedVarint)
    || exists t: nat :: IsVarint(b, o, t) && IsBadPayload(b, t, Digits(b, o, t) % 8, e)
  }

  lemma FieldNumber(tag: nat)
    ensures FieldOf(tag) == tag / 8 % 0x2000_0000
  {
  }

  /** Of any bytes: the reader takes a field exactly if there is one, and otherwise fails for
      the reason there is. */
  lemma {:induction false} FieldIsExact(b: seq<byte>, o: nat)
    ensures forall r: Record, next: nat :: RecordAt(b, o) == Ok(Read(r, next)) <==> IsField(b, o, r, next)
    ensures forall e: Error :: RecordAt(b, o) == Err(e) <==> IsBadField(b, o, e)
  {
    VarintIsExact(b, o);
    if VarintAt(b, o).Ok? {
      var tag := VarintAt(b, o).value;
      FieldNumber(tag.value);
      PayloadIsExact(b, tag.next, WireOf(tag.value));
    }
  }

  /** From o on the bytes are these fields one after the other, up to the end or to what
      is no field. */
  ghost predicate MadeOf(b: seq<byte>, o: nat, rs: seq<Record>, end: Option<Error>)
    decreases |rs|
  {
    if rs == [] then if o >= |b| then end.None? else end.Some? && IsBadField(b, o, end.value)
    else o < |b| && exists next: nat :: IsField(b, o, rs[0], next) && MadeOf(b, next, rs[1..], end)
  }

  lemma {:induction false} ScanIsExact(b: seq<byte>, o: nat, rs: seq<Record>, end: Option<Error>)
    ensures ScanFrom(b, o) == Scan(rs, end) <==> MadeOf(b, o, rs, end)
    decreases |b| + 8 - o
  {
    if o < |b| {
      FieldIsExact(b, o);
      var f := RecordAt(b, o);
      if f.Err? {
        assert IsBadField(b, o, f.error);
      } else {
        assert RecordAt(b, o) == Ok(Read(f.value.value, f.value.next));
        if rs != [] {
          ScanIsExact(b, f.value.next, rs[1..], end);
          HeadAndTail(f.value.value, ScanFrom(b, f.value.next).records);
          assert rs == [rs[0]] + rs[1..];
        }
      }
    }
  }

  // ------------------------------------------------------------- lists of nested messages

  predicate IsEntry(field: nat, r: Record) {
    r.field == field && r.payload.Bytes?
  }

  function Entries(field: nat, rs: seq<Record>): (r: seq<bool>)
    ensures |r| == |rs| && forall i :: 0 <= i < |rs| ==> r[i] == IsEntry(field, rs[i])
  {
    seq(|rs|, i requires 0 <= i < |rs| => IsEntry(field, rs[i]))
  }

  /** The list has the values of the entries, in order. */
  ghost predicate ListedAt<T>(field: nat, decode: Decode<T>, rs: seq<Record>, vs: seq<T>, at: seq<nat>) {
    && Indexes(at, Entries(field, rs)) && |at| == |vs|
    && forall j: nat :: j < |at| ==> ListedFromAt(decode, rs, vs, at, j)
  }

  ghost predicate ListedFromAt<T>(decode: Decode<T>, rs: seq<Record>, vs: seq<T>, at: seq<nat>, j: nat)
    requires j < |at| == |vs|
  {
    at[j] < |rs| && rs[at[j]].payload.Bytes? && decode(rs[at[j]].payload.bytes) == Ok(vs[j])
  }

  /** The first entry that has no value has none for this reason; without such an entry, it
      is that of the message itself. */
  ghost predicate FirstBadEntry<T>(field: nat, decode: Decode<T>, rs: seq<Record>, end: Option<Error>, e: Error) {
    exists i: nat :: i <= |rs| && EntriesDecode(field, decode, rs, i)
                     && if i == |rs| then end == Some(e) else IsEntry(field, rs[i]) && decode(rs[i].payload.bytes) == Err(e)
  }

  ghost predicate EntriesDecode<T>(field: nat, decode: Decode<T>, rs: seq<Record>, n: nat)
    requires n <= |rs|
  {
    forall i :: 0 <= i < n && IsEntry(field, rs[i]) ==> decode(rs[i].payload.bytes).Ok?
  }

  /** What the fold makes of the records up to index i. */
  ghost predicate Gathered<T>(field: nat, decode: Decode<T>, rs: seq<Record>, end: Option<Error>, i: nat, vs: seq<T>)
    requires i <= |rs|
  {
    FoldList(field, decode, rs, [], end) == FoldList(field, decode, rs[i..], vs, end)
  }

  /** A message with a list, of any bytes: its value if there is one, and otherwise why. */
  lemma {:induction false} ListIsExact<T>(field: nat, decode: Decode<T>, b: seq<byte>) returns (at: seq<nat>)
    ensures var s := ScanFrom(b, 0);
            match ListOf(field, decode, b)
            case Ok(vs) => s.error.None? && ListedAt(field, decode, s.records, vs, at)
            case Err(e) => FirstBadEntry(field, decode, s.records, s.error, e)
  {
    var s := ScanFrom(b, 0);
    var rs, i, vs: seq<T> := s.records, 0, [];
    at := [];
    assert rs[0..] == rs;
    while i < |rs|
      invariant i <= |rs| && Gathered(field, decode, rs, s.error, i, vs)
      invariant EntriesDecode(field, decode, rs, i)
      invariant ListedAt(field, decode, rs[..i], vs, at)
    {
      assert rs[i..][0] == rs[i] && rs[i..][1..] == rs[i + 1..];
      if IsEntry(field, rs[i]) {
        var d := decode(rs[i].payload.bytes);
        if d.Err? {
          return;
        }
        ListedSnoc(field, decode, rs, i, vs, at, d.value);
        vs, at := vs + [d.value], at + [i];
      } else {
        ListedOn(field, decode, rs, i, vs, at);
      }
      i := i + 1;
    }
    TakeAll(rs);
  }

  lemma {:induction false} EntriesSnoc(field: nat, rs: seq<Record>, i: nat)
    requires i < |rs|
    ensures Entries(field, rs[..i + 1]) == Entries(field, rs[..i]) + [IsEntry(field, rs[i])]
  {
  }

  lemma {:induction false} ListedOn<T>(field: nat, decode: Decode<T>, rs: seq<Record>, i: nat, vs: seq<T>, at: seq<nat>)
    requires i < |rs| && !IsEntry(field, rs[i]) && ListedAt(field, decode, rs[..i], vs, at)
    ensures ListedAt(field, decode, rs[..i + 1], vs, at)
  {
    EntriesSnoc(field, rs, i);
    IndexesSnoc(at, Entries(field, rs[..i]), false);
    var before, now := rs[..i], rs[..i + 1];
    forall j: nat | j < |at|
      ensures ListedFromAt(decode, now, vs, at, j)
    {
      assert ListedFromAt(decode, before, vs, at, j);
    }
  }

  lemma {:induction false} ListedSnoc<T>(field: nat, decode: Decode<T>, rs: seq<Record>, i: nat, vs: seq<T>, at: seq<nat>, v: T)
    requires i < |rs| && IsEntry(field, rs[i]) && decode(rs[i].payload.bytes) == Ok(v)
    requires ListedAt(field, decode, rs[..i], vs, at)
    ensures ListedAt(field, decode, rs[..i + 1], vs + [v], at + [i])
  {
    EntriesSnoc(field, rs, i);
    IndexesSnoc(at, Entries(field, rs[..i]), true);
    var before, now, vs', at' := rs[..i], rs[..i + 1], vs + [v], at + [i];
    forall j: nat | j < |at'|
      ensures ListedFromAt(decode, now, vs', at', j)
    {
      if j < |at| {
        assert ListedFromAt(decode, before, vs, at, j);
      }
    }
  }

  /** Arrays and key-value lists are such lists, with field 1. */
  lemma {:induction false} ArraysAreLists(b: seq<byte>)
    ensures DecodeArray(b) == ListOf(1, DecodeAny, b)
  {
    ScanIsShort(b, 0);
    ArrayFoldIsList(|b|, ScanFrom(b, 0).records, [], ScanFrom(b, 0).error);
  }

  lemma {:induction false} ArrayFoldIsList(n: nat, rs: seq<Record>, acc: seq<AnyValue>, end: Option<Error>)
    requires Short(rs, n)
    ensures FoldArray(n, rs, acc, end) == FoldList(1, DecodeAny, rs, acc, end)
    decreases |rs|
  {
    if rs != [] {
      assert StepArray(n, rs[0], acc) == StepList(1, DecodeAny, rs[0], acc);
      if StepArray(n, rs[0], acc).Ok? {
        ArrayFoldIsList(n, rs[1..], StepArray(n, rs[0], acc).value, end);
      }
    }
  }

  lemma {:induction false} KvListsAreLists(b: seq<byte>)
    ensures DecodeKvList(b) == ListOf(1, DecodeKv, b)
  {
    ScanIsShort(b, 0);
    KvListFoldIsList(|b|, ScanFrom(b, 0).records, [], ScanFrom(b, 0).error);
  }

  lemma {:induction false} KvListFoldIsList(n: nat, rs: seq<Record>, acc: seq<KeyValue>, end: Option<Error>)
    requires Short(rs, n)
    ensures FoldKvList(n, rs, acc, end) == FoldList(1, DecodeKv, rs, acc, end)
    decreases |rs|
  {
    if rs != [] {
      assert StepKvList(n, rs[0], acc) == StepList(1, DecodeKv, rs[0], acc);
      if StepKvList(n, rs[0], acc).Ok? {
        KvListFoldIsList(n, rs[1..], StepKvList(n, rs[0], acc).value, end);
      }
    }
  }

  // -------------------------------------------------------------------- values and pairs

  /** The record carries field f of a value. */
  predicate Carries(r: Record, f: nat) {
    && r.field == f
    && if f == 2 || f == 3 then r.payload.Varint? else if f == 4 then r.payload.Fixed64? else r.payload.Bytes?
  }

  ghost predicate LastCarrier(rs: seq<Record>, f: nat, i: nat) {
    i < |rs| && Carries(rs[i], f) && forall j :: i < j < |rs| ==> !Carries(rs[j], f)
  }

  /** Field f of the value is what the record says. */
  ghost predicate Says(v: AnyValue, f: nat, r: Record)
    requires Carries(r, f)
  {
    match f
    case 1 => v.stringValue == Some(r.payload.bytes)
    case 2 => v.boolValue == Some(r.payload.n != 0)
    case 3 => v.intValue == Some(r.payload.n)
    case 4 => v.doubleValue == Some(r.payload.raw)
    case 5 => v.arrayValue.Some? && DecodeArray(r.payload.bytes) == Ok(v.arrayValue.value)
    case 6 => v.kvlistValue.Some? && DecodeKvList(r.payload.bytes) == Ok(v.kvlistValue.value)
    case 7 => v.bytesValue == Some(r.payload.bytes)
    case _ => true
  }

  predicate SameField(v: AnyValue, w: AnyValue, f: nat) {
    match f
    case 1 => v.stringValue == w.stringValue
    case 2 => v.boolValue == w.boolValue
    case 3 => v.intValue == w.intValue
    case 4 => v.doubleValue == w.doubleValue
    case 5 => v.arrayValue == w.arrayValue
    case 6 => v.kvlistValue == w.kvlistValue
    case 7 => v.bytesValue == w.bytesValue
    case _ => true
  }

  /** The record has no value, for this reason. */
  ghost predicate IsBad(r: Record, e: Error) {
    || (Carries(r, 4) && |r.payload.raw| < 8 && e == TruncatedFixed64)
    || (Carries(r, 5) && DecodeArray(r.payload.bytes) == Err(e))
    || (Carries(r, 6) && DecodeKvList(r.payload.bytes) == Err(e))
  }

  ghost predicate NoneBad(rs: seq<Record>, n: nat)
    requires n <= |rs|
  {
    forall i: nat, e: Error :: i < n ==> !IsBad(rs[i], e)
  }

  ghost predicate FirstBad(rs: seq<Record>, end: Option<Error>, e: Error) {
    exists i: nat :: i <= |rs| && NoneBad(rs, i) && if i == |rs| then end == Some(e) else IsBad(rs[i], e)
  }

  /** Each field of v is from its last record, and as in `acc` without one. */
  ghost predicate FromLast(rs: seq<Record>, acc: AnyValue, v: AnyValue, f: nat) {
    && (forall i: nat :: LastCarrier(rs, f, i) ==> Says(v, f, rs[i]))
    && ((forall i :: 0 <= i < |rs| ==> !Carries(rs[i], f)) ==> SameField(v, acc, f))
  }

  lemma {:induction false} StepIsExact(n: nat, r: Record, acc: AnyValue, f: nat)
    requires FitsIn(r, n)
    ensures match StepAny(n, r, acc)
            case Ok(next) => (forall e: Error :: !IsBad(r, e)) && if Carries(r, f) then Says(next, f, r) else SameField(next, acc, f)
            case Err(e) => IsBad(r, e)
  {
  }

  lemma {:induction false} FoldIsExact(n: nat, rs: seq<Record>, acc: AnyValue, end: Option<Error>, f: nat)
    requires Short(rs, n)
    ensures match FoldAny(n, rs, acc, end)
            case Ok(v) => end.None? && NoneBad(rs, |rs|) && FromLast(rs, acc, v, f)
            case Err(e) => FirstBad(rs, end, e)
    decreases |rs|
  {
    if rs == [] {
      assert NoneBad(rs, 0);
    } else {
      var r, rest := rs[0], rs[1..];
      StepIsExact(n, r, acc, f);
      var step := StepAny(n, r, acc);
      if step.Err? {
        assert NoneBad(rs, 0);
      } else {
        FoldIsExact(n, rest, step.value, end, f);
        HeadIsGood(rs);
        var fold := FoldAny(n, rest, step.value, end);
        if fold.Ok? {
          LastFromRest(rs, acc, step.value, fold.value, f);
        } else {
          BadInRest(rs, end, fold.error);
        }
      }
    }
  }

  lemma {:induction false} HeadIsGood(rs: seq<Record>)
    requires rs != [] && forall e: Error :: !IsBad(rs[0], e)
    ensures forall i: nat :: i < |rs| && NoneBad(rs[1..], i) ==> NoneBad(rs, i + 1)
  {
    forall i: nat | i < |rs| && NoneBad(rs[1..], i)
      ensures NoneBad(rs, i + 1)
    {
      forall j: nat, e: Error | j < i + 1
        ensures !IsBad(rs[j], e)
      {
        if j > 0 {
          assert !IsBad(rs[1..][j - 1], e);
        }
      }
    }
  }

  lemma {:induction false} BadInRest(rs: seq<Record>, end: Option<Error>, e: Error)
    requires rs != [] && FirstBad(rs[1..], end, e)
    requires forall i: nat :: i < |rs| && NoneBad(rs[1..], i) ==> NoneBad(rs, i + 1)
    ensures FirstBad(rs, end, e)
  {
    var rest := rs[1..];
    var i: nat :| i <= |rest| && NoneBad(rest, i) && if i == |rest| then end == Some(e) else IsBad(rest[i], e);
    assert NoneBad(rs, i + 1);
  }

  lemma {:induction false} LastFromRest(rs: seq<Record>, acc: AnyValue, next: AnyValue, v: AnyValue, f: nat)
    requires rs != [] && FromLast(rs[1..], next, v, f)
    requires if Carries(rs[0], f) then Says(next, f, rs[0]) else SameField(next, acc, f)
    ensures FromLast(rs, acc, v, f)
  {
    var rest := rs[1..];
    forall i: nat | LastCarrier(rs, f, i)
      ensures Says(v, f, rs[i])
    {
      if i > 0 {
        assert LastCarrier(rest, f, i - 1);
      }
    }
  }

  /** A value, of any bytes: every field is that of its last record and missing without
      one, and there is no value exactly if a record or the message is bad. */
  lemma {:induction false} ValueIsExact(b: seq<byte>, f: nat)
    ensures var s := ScanFrom(b, 0);
            match DecodeAny(b)
            case Ok(v) => s.error.None? && NoneBad(s.records, |s.records|) && FromLast(s.records, EMPTY_ANY, v, f)
            case Err(e) => FirstBad(s.records, s.error, e)
  {
    ScanIsShort(b, 0);
    var s := ScanFrom(b, 0);
    FoldIsExact(|b|, s.records, EMPTY_ANY, s.error, f);
  }

  ghost predicate LastEntry(field: nat, rs: seq<Record>, i: nat) {
    i < |rs| && IsEntry(field, rs[i]) && forall j :: i < j < |rs| ==> !IsEntry(field, rs[j])
  }

  predicate NoEntry(field: nat, rs: seq<Record>) {
    forall i :: 0 <= i < |rs| ==> !IsEntry(field, rs[i])
  }

  /** The option is the value of the last entry. */
  ghost predicate LastHas<T>(field: nat, decode: Decode<T>, rs: seq<Record>, x: Option<T>) {
    && (forall i: nat :: LastEntry(field, rs, i) ==> x.Some? && decode(rs[i].payload.bytes) == Ok(x.value))
    && (NoEntry(field, rs) ==> x.None?)
  }

  function AsTheyAre(bytes: seq<byte>): Result<seq<byte>, Error> {
    Ok(bytes)
  }

  lemma {:induction false} LastOn<T>(field: nat, decode: Decode<T>, init: seq<Record>, r: Record, x: Option<T>)
    requires !IsEntry(field, r) && LastHas(field, decode, init, x)
    ensures LastHas(field, decode, init + [r], x)
  {
    var rs := init + [r];
    forall i: nat | LastEntry(field, rs, i)
      ensures LastEntry(field, init, i)
    {
      assert forall j :: i < j < |init| ==> init[j] == rs[j];
    }
    if NoEntry(field, rs) {
      assert forall j :: 0 <= j < |init| ==> init[j] == rs[j];
    }
  }

  lemma {:induction false} LastNew<T>(field: nat, decode: Decode<T>, init: seq<Record>, r: Record, v: T)
    requires IsEntry(field, r) && decode(r.payload.bytes) == Ok(v)
    ensures LastHas(field, decode, init + [r], Some(v))
  {
    var rs := init + [r];
    assert rs[|init|] == r;
  }

  /** Both texts and the value of a pair are of the last entries. */
  ghost predicate PairFrom(rs: seq<Record>, kv: KeyValue) {
    LastHas(1, AsTheyAre, rs, kv.key) && LastHas(2, DecodeAny, rs, kv.value)
  }

  lemma {:induction false} PairSnoc(n: nat, init: seq<Record>, r: Record, kv: KeyValue)
    requires FitsIn(r, n) && PairFrom(init, kv)
    ensures match StepKv(n, r, kv)
            case Ok(next) => PairFrom(init + [r], next) && (IsEntry(2, r) ==> DecodeAny(r.payload.bytes).Ok?)
            case Err(e) => IsEntry(2, r) && DecodeAny(r.payload.bytes) == Err(e)
  {
    if IsEntry(1, r) {
      LastNew(1, AsTheyAre, init, r, r.payload.bytes);
    } else {
      LastOn(1, AsTheyAre, init, r, kv.key);
    }
    if !IsEntry(2, r) {
      LastOn(2, DecodeAny, init, r, kv.value);
    } else if DecodeAny(r.payload.bytes).Ok? {
      LastNew(2, DecodeAny, init, r, DecodeAny(r.payload.bytes).value);
    }
  }

  lemma {:induction false} KvFoldStep(n: nat, rs: seq<Record>, i: nat, acc: KeyValue, end: Option<Error>)
    requires i < |rs| && Short(rs[i..], n)
    ensures FitsIn(rs[i], n) && Short(rs[i + 1..], n)
    ensures FoldKv(n, rs[i..], acc, end)
            == match StepKv(n, rs[i], acc) case Err(e) => Err(e) case Ok(next) => FoldKv(n, rs[i + 1..], next, end)
  {
    assert rs[i..][0] == rs[i] && rs[i..][1..] == rs[i + 1..];
  }

  /** A pair, of any bytes. */
  lemma {:induction false} PairIsExact(b: seq<byte>)
    ensures var s := ScanFrom(b, 0);
            match DecodeKv(b)
            case Ok(kv) => s.error.None? && PairFrom(s.records, kv)
            case Err(e) => FirstBadEntry(2, DecodeAny, s.records, s.error, e)
  {
    ScanIsShort(b, 0);
    var s := ScanFrom(b, 0);
    var rs, i, kv := s.records, 0, EMPTY_KEY_VALUE;
    assert rs[0..] == rs;
    while i < |rs|
      invariant i <= |rs| && Short(rs[i..], |b|) && DecodeKv(b) == FoldKv(|b|, rs[i..], kv, s.error)
      invariant EntriesDecode(2, DecodeAny, rs, i)
      invariant PairFrom(rs[..i], kv)
    {
      KvFoldStep(|b|, rs, i, kv, s.error);
      PairSnoc(|b|, rs[..i], rs[i], kv);
      TakeOneMore(rs, i);
      var next := StepKv(|b|, rs[i], kv);
      if next.Err? {
        return;
      }
      kv, i := next.value, i + 1;
    }
    TakeAll(rs);
  }

  /** Parent and name of the last entries, and all attributes in order. */
  ghost predicate SpanIsFrom(rs: seq<Record>, span: Span, at: seq<nat>) {
    && LastHas(4, AsTheyAre, rs, span.parentSpanId) && LastHas(5, AsTheyAre, rs, span.name)
    && ListedAt(9, DecodeKv, rs, match span.attributes case None => [] case Some(list) => list, at)
    && (span.attributes.None? <==> at == [])
  }

  lemma {:induction false} AttributesOn(rs: seq<Record>, i: nat, span: Span, at: seq<nat>) returns (at': seq<nat>)
    requires i < |rs| && SpanIsFrom(rs[..i], span, at)
    ensures match StepSpan(rs[i], span)
            case Ok(next) =>
              && ListedAt(9, DecodeKv, rs[..i + 1], match next.attributes case None => [] case Some(list) => list, at')
              && (next.attributes.None? <==> at' == [])
              && (IsEntry(9, rs[i]) ==> DecodeKv(rs[i].payload.bytes).Ok?)
            case Err(e) => IsEntry(9, rs[i]) && DecodeKv(rs[i].payload.bytes) == Err(e)
  {
    var kv := if IsEntry(9, rs[i]) then DecodeKv(rs[i].payload.bytes) else Ok(EMPTY_KEY_VALUE);
    at' := at;
    if !IsEntry(9, rs[i]) {
      ListedOn(9, DecodeKv, rs, i, Attributes(span), at);
    } else if kv.Ok? {
      ListedSnoc(9, DecodeKv, rs, i, Attributes(span), at, kv.value);
      at' := at + [i];
    }
  }

  lemma {:induction false} TextsOn(init: seq<Record>, r: Record, span: Span, at: seq<nat>)
    requires SpanIsFrom(init, span, at)
    ensures match StepSpan(r, span)
            case Ok(next) => LastHas(4, AsTheyAre, init + [r], next.parentSpanId) && LastHas(5, AsTheyAre, init + [r], next.name)
            case Err(_) => true
  {
    if IsEntry(4, r) {
      LastNew(4, AsTheyAre, init, r, r.payload.bytes);
    } else {
      LastOn(4, AsTheyAre, init, r, span.parentSpanId);
    }
    if IsEntry(5, r) {
      LastNew(5, AsTheyAre, init, r, r.payload.bytes);
    } else {
      LastOn(5, AsTheyAre, init, r, span.name);
    }
  }

  lemma {:induction false} SpanFoldStep(rs: seq<Record>, i: nat, acc: Span, end: Option<Error>)
    requires i < |rs|
    ensures FoldSpan(rs[i..], acc, end)
            == match StepSpan(rs[i], acc) case Err(e) => Err(e) case Ok(next) => FoldSpan(rs[i + 1..], next, end)
  {
    assert rs[i..][0] == rs[i] && rs[i..][1..] == rs[i + 1..];
  }

  /** A span, of any bytes. */
  lemma {:induction false} SpanIsExact(b: seq<byte>) returns (at: seq<nat>)
    ensures var s := ScanFrom(b, 0);
            match SpanOf(b)
            case Ok(span) => s.error.None? && SpanIsFrom(s.records, span, at)
            case Err(e) => FirstBadEntry(9, DecodeKv, s.records, s.error, e)
  {
    var s := ScanFrom(b, 0);
    var rs, i, span := s.records, 0, EMPTY_SPAN;
    at := [];
    assert rs[0..] == rs;
    while i < |rs|
      invariant i <= |rs| && SpanOf(b) == FoldSpan(rs[i..], span, s.error)
      invariant EntriesDecode(9, DecodeKv, rs, i)
      invariant SpanIsFrom(rs[..i], span, at)
    {
      SpanFoldStep(rs, i, span, s.error);
      TextsOn(rs[..i], rs[i], span, at);
      at := AttributesOn(rs, i, span, at);
      TakeOneMore(rs, i);
      var next := StepSpan(rs[i], span);
      if next.Err? {
        return;
      }
      span, i := next.value, i + 1;
    }
    TakeAll(rs);
  }
}

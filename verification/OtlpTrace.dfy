/**
 Trace requests (scripts/qa-otel-smoke.ts): spans, the lists that contain them,
 and the spans captured from a request.
 */
module OtlpTrace {
  import opened Common
  import opened ProtoWire
  import opened OtlpDecoder
  import opened OtlpEncoding

  datatype Span = Span(parentSpanId: Option<seq<byte>>, name: Option<seq<byte>>, attributes: Option<seq<KeyValue>>)

  const EMPTY_SPAN := Span(None, None, None)

  type Decode<!T> = seq<byte> -> Result<T, Error>

  // --------------------------------------------------------------- specification

  function Attributes(s: Span): seq<KeyValue> {
    if s.attributes.Some? then s.attributes.value else []
  }

  function StepSpan(r: Record, acc: Span): Result<Span, Error> {
    match r
    case Record(4, Bytes(x)) => Ok(acc.(parentSpanId := Some(x)))
    case Record(5, Bytes(x)) => Ok(acc.(name := Some(x)))
    case Record(9, Bytes(x)) => var kv :- DecodeKv(x); Ok(acc.(attributes := Some(Attributes(acc) + [kv])))
    case _ => Ok(acc)
  }

  function FoldSpan(rs: seq<Record>, acc: Span, end: Option<Error>): Result<Span, Error> {
    if rs == [] then Ended(acc, end) else
    var next :- StepSpan(rs[0], acc);
    FoldSpan(rs[1..], next, end)
  }

  function SpanOf(b: seq<byte>): Result<Span, Error> {
    var s := ScanFrom(b, 0);
    FoldSpan(s.records, EMPTY_SPAN, s.error)
  }

  function StepList<T>(field: nat, decode: Decode<T>, r: Record, acc: seq<T>): Result<seq<T>, Error> {
    if r.field == field && r.payload.Bytes? then var v :- decode(r.payload.bytes); Ok(acc + [v]) else Ok(acc)
  }

  function FoldList<T>(field: nat, decode: Decode<T>, rs: seq<Record>, acc: seq<T>, end: Option<Error>): Result<seq<T>, Error> {
    if rs == [] then Ended(acc, end) else
    var next :- StepList(field, decode, rs[0], acc);
    FoldList(field, decode, rs[1..], next, end)
  }

  /** A message whose one known field is a list of nested messages. */
  function ListOf<T>(field: nat, decode: Decode<T>, b: seq<byte>): Result<seq<T>, Error> {
    var s := ScanFrom(b, 0);
    FoldList(field, decode, s.records, [], s.error)
  }

  function ScopeSpansOf(b: seq<byte>): Result<seq<Span>, Error> {
    ListOf(2, SpanOf, b)
  }

  function ResourceSpansOf(b: seq<byte>): Result<seq<seq<Span>>, Error> {
    ListOf(2, ScopeSpansOf, b)
  }

  function TraceOf(b: seq<byte>): Result<seq<seq<seq<Span>>>, Error> {
    ListOf(1, ResourceSpansOf, b)
  }

  // -------------------------------------------------------------------- the decoders

  ghost function SpanFrom(b: seq<byte>, o: nat, acc: Span): Result<Span, Error> {
    FoldSpan(ScanFrom(b, o).records, acc, ScanFrom(b, o).error)
  }

  lemma {:induction false} SpanFromStep(b: seq<byte>, o: nat, acc: Span)
    requires o < |b|
    ensures SpanFrom(b, o, acc) ==
            match RecordAt(b, o)
            case Err(e) => Err(e)
            case Ok(r) => (match StepSpan(r.value, acc) case Err(e) => Err(e) case Ok(next) => SpanFrom(b, r.next, next))
  {
    if RecordAt(b, o).Ok? {
      assert ScanFrom(b, o).records[1..] == ScanFrom(b, RecordAt(b, o).value.next).records;
    }
  }

  ghost function ListFrom<T>(field: nat, decode: Decode<T>, b: seq<byte>, o: nat, acc: seq<T>): Result<seq<T>, Error> {
    FoldList(field, decode, ScanFrom(b, o).records, acc, ScanFrom(b, o).error)
  }

  lemma {:induction false} ListFromStep<T>(field: nat, decode: Decode<T>, b: seq<byte>, o: nat, acc: seq<T>)
    requires o < |b|
    ensures ListFrom(field, decode, b, o, acc) ==
            match RecordAt(b, o)
            case Err(e) => Err(e)
            case Ok(r) =>
              (match StepList(field, decode, r.value, acc)
               case Err(e) => Err(e)
               case Ok(next) => ListFrom(field, decode, b, r.next, next))
  {
    if RecordAt(b, o).Ok? {
      assert ScanFrom(b, o).records[1..] == ScanFrom(b, RecordAt(b, o).value.next).records;
    }
  }

  method DecodeSpan(message: seq<byte>) returns (r: Result<Span, Error>)
    ensures r == SpanOf(message)
  {
    var reader := new ProtoReader(message);
    var span := EMPTY_SPAN;
    while !reader.Done()
      invariant reader.buffer == message && reader.offset <= |message| + 8
      invariant SpanOf(message) == SpanFrom(message, reader.offset, span)
      decreases |message| + 8 - reader.offset
    {
      SpanFromStep(message, reader.offset, span);
      var tag :- reader.ReadTag();
      if tag.0 == 4 && tag.1 == 2 {
        var x :- reader.ReadBytes();
        span := span.(parentSpanId := Some(x));
      } else if tag.0 == 5 && tag.1 == 2 {
        var x :- reader.ReadBytes();
        span := span.(name := Some(x));
      } else if tag.0 == 9 && tag.1 == 2 {
        var x :- reader.ReadBytes();
        var kv :- DecodeKeyValue(x);
        span := span.(attributes := Some(Attributes(span) + [kv]));
      } else {
        var _ :- reader.Skip(tag.1);
      }
    }
    r := Ok(span);
  }

  method DecodeScopeSpans(message: seq<byte>) returns (r: Result<seq<Span>, Error>)
    ensures r == ScopeSpansOf(message)
  {
    var reader := new ProtoReader(message);
    var spans: seq<Span> := [];
    while !reader.Done()
      invariant reader.buffer == message && reader.offset <= |message| + 8
      invariant ScopeSpansOf(message) == ListFrom(2, SpanOf, message, reader.offset, spans)
      decreases |message| + 8 - reader.offset
    {
      ListFromStep(2, SpanOf, message, reader.offset, spans);
      var tag :- reader.ReadTag();
      if tag.0 == 2 && tag.1 == 2 {
        var x :- reader.ReadBytes();
        var span :- DecodeSpan(x);
        spans := spans + [span];
      } else {
        var _ :- reader.Skip(tag.1);
      }
    }
    r := Ok(spans);
  }

  method DecodeResourceSpans(message: seq<byte>) returns (r: Result<seq<seq<Span>>, Error>)
    ensures r == ResourceSpansOf(message)
  {
    var reader := new ProtoReader(message);
    var scopes: seq<seq<Span>> := [];
    while !reader.Done()
      invariant reader.buffer == message && reader.offset <= |message| + 8
      invariant ResourceSpansOf(message) == ListFrom(2, ScopeSpansOf, message, reader.offset, scopes)
      decreases |message| + 8 - reader.offset
    {
      ListFromStep(2, ScopeSpansOf, message, reader.offset, scopes);
      var tag :- reader.ReadTag();
      if tag.0 == 2 && tag.1 == 2 {
        var x :- reader.ReadBytes();
        var scope :- DecodeScopeSpans(x);
        scopes := scopes + [scope];
      } else {
        var _ :- reader.Skip(tag.1);
      }
    }
    r := Ok(scopes);
  }

  // ---------------------------------------------------------------- captured spans

  datatype Captured = Captured(name: string, parent: bool, attributes: seq<KeyValue>)

  /** A span is captured if its name, decoded by `text` and trimmed, is not empty. */
  function CaptureSpan(text: seq<byte> -> string, s: Span): seq<Captured> {
    if s.name.None? || Trim(text(s.name.value)) == "" then []
    else [Captured(Trim(text(s.name.value)), s.parentSpanId.Some? && |s.parentSpanId.value| > 0, Attributes(s))]
  }

  function CaptureAll(text: seq<byte> -> string, spans: seq<Span>): seq<Captured> {
    if spans == [] then [] else CaptureAll(text, spans[..|spans| - 1]) + CaptureSpan(text, spans[|spans| - 1])
  }

  /** All spans of a request, in order. */
  function AllSpans(resources: seq<seq<seq<Span>>>): seq<Span> {
    Concat(Concat(resources))
  }

  function CapturedFrom(text: seq<byte> -> string, b: seq<byte>): Result<seq<Captured>, Error> {
    var resources :- TraceOf(b);
    Ok(CaptureAll(text, AllSpans(resources)))
  }

  // What is captured, said of the spans alone.

  predicate HasName(text: seq<byte> -> string, s: Span) {
    s.name.Some? && Trim(text(s.name.value)) != ""
  }

  ghost predicate IsCaptureOf(text: seq<byte> -> string, s: Span, c: Captured) {
    && s.name.Some? && c.name == Trim(text(s.name.value))
    && (c.parent <==> s.parentSpanId.Some? && s.parentSpanId.value != [])
    && c.attributes == match s.attributes case None => [] case Some(list) => list
  }

  function Names(text: seq<byte> -> string, spans: seq<Span>): (r: seq<bool>)
    ensures |r| == |spans| && forall i :: 0 <= i < |spans| ==> (r[i] <==> HasName(text, spans[i]))
    decreases |spans|
  {
    if spans == [] then [] else Names(text, spans[..|spans| - 1]) + [HasName(text, spans[|spans| - 1])]
  }

  /** `out` has one entry for each span with a name, in order: entry j is from span at[j]. */
  ghost predicate CapturedAt(text: seq<byte> -> string, spans: seq<Span>, out: seq<Captured>, at: seq<nat>) {
    Indexes(at, Names(text, spans)) && |at| == |out| && forall j: nat :: j < |at| ==> CapturedFromAt(text, spans, out, at, j)
  }

  ghost predicate CapturedFromAt(text: seq<byte> -> string, spans: seq<Span>, out: seq<Captured>, at: seq<nat>, j: nat)
    requires j < |at| == |out|
  {
    at[j] < |spans| && IsCaptureOf(text, spans[at[j]], out[j])
  }

  lemma {:induction false} CaptureAllAt(text: seq<byte> -> string, spans: seq<Span>) returns (at: seq<nat>)
    ensures CapturedAt(text, spans, CaptureAll(text, spans), at)
    decreases |spans|
  {
    if spans == [] {
      at := [];
    } else {
      var init, s := spans[..|spans| - 1], spans[|spans| - 1];
      var before := CaptureAllAt(text, init);
      at := if HasName(text, s) then before + [|init|] else before;
      InitAndLast(spans);
      CapturedSnoc(text, spans, init, s, CaptureAll(text, init), before);
    }
  }

  lemma {:induction false} CapturedSnoc(text: seq<byte> -> string, spans: seq<Span>, init: seq<Span>, s: Span, out: seq<Captured>, at: seq<nat>)
    requires spans == init + [s] && CapturedAt(text, init, out, at)
    ensures CapturedAt(text, spans, out + CaptureSpan(text, s), if HasName(text, s) then at + [|init|] else at)
  {
    NamesSnoc(text, spans, init, s);
    IndexesSnoc(at, Names(text, init), HasName(text, s));
    CaptureOfOne(text, s);
    var at', out' := if HasName(text, s) then at + [|init|] else at, out + CaptureSpan(text, s);
    forall j: nat | j < |at'|
      ensures CapturedFromAt(text, spans, out', at', j)
    {
      if j < |at| {
        assert CapturedFromAt(text, init, out, at, j);
      }
    }
  }

  lemma {:induction false} NamesSnoc(text: seq<byte> -> string, spans: seq<Span>, init: seq<Span>, s: Span)
    requires spans == init + [s]
    ensures Names(text, spans) == Names(text, init) + [HasName(text, s)]
  {
    assert spans[..|init|] == init;
  }

  lemma {:induction false} CaptureOfOne(text: seq<byte> -> string, s: Span)
    ensures |CaptureSpan(text, s)| == if HasName(text, s) then 1 else 0
    ensures HasName(text, s) ==> IsCaptureOf(text, s, CaptureSpan(text, s)[0])
  {
  }

  /** There is only one such list. */
  lemma {:induction false} OneCapture(text: seq<byte> -> string, spans: seq<Span>, out: seq<Captured>, at: seq<nat>, out': seq<Captured>, at': seq<nat>)
    requires CapturedAt(text, spans, out, at) && CapturedAt(text, spans, out', at')
    ensures out == out' && at == at'
  {
    OneIndexes(at, at', Names(text, spans));
    forall j | 0 <= j < |out|
      ensures out[j] == out'[j]
    {
      assert CapturedFromAt(text, spans, out, at, j) && CapturedFromAt(text, spans, out', at', j);
    }
  }

  lemma {:induction false} CaptureConcat(text: seq<byte> -> string, a: seq<Span>, b: seq<Span>)
    ensures CaptureAll(text, a + b) == CaptureAll(text, a) + CaptureAll(text, b)
    decreases |b|
  {
    if b == [] {
      assert a + b == a;
    } else {
      assert (a + b)[..|a + b| - 1] == a + b[..|b| - 1];
      CaptureConcat(text, a, b[..|b| - 1]);
    }
  }

  method CaptureScope(text: seq<byte> -> string, scope: seq<Span>) returns (spans: seq<Captured>)
    ensures spans == CaptureAll(text, scope)
  {
    spans := [];
    for i := 0 to |scope|
      invariant spans == CaptureAll(text, scope[..i])
    {
      var span := scope[i];
      assert scope[..i + 1][..i] == scope[..i];
      if span.name.Some? {
        var name := Trim(text(span.name.value));
        if name != "" {
          spans := spans + [Captured(name, span.parentSpanId.Some? && |span.parentSpanId.value| > 0, Attributes(span))];
        }
      }
    }
    assert scope[..|scope|] == scope;
  }

  method CaptureResource(text: seq<byte> -> string, resource: seq<seq<Span>>) returns (spans: seq<Captured>)
    ensures spans == CaptureAll(text, Concat(resource))
  {
    spans := [];
    for j := 0 to |resource|
      invariant spans == CaptureAll(text, Concat(resource[..j]))
    {
      ConcatSnoc(resource, j);
      CaptureConcat(text, Concat(resource[..j]), resource[j]);
      var captured := CaptureScope(text, resource[j]);
      spans := spans + captured;
    }
    assert resource[..|resource|] == resource;
  }

  method CaptureResources(text: seq<byte> -> string, resources: seq<seq<seq<Span>>>) returns (spans: seq<Captured>)
    ensures spans == CaptureAll(text, AllSpans(resources))
  {
    spans := [];
    for i := 0 to |resources|
      invariant spans == CaptureAll(text, Concat(Concat(resources[..i])))
    {
      ConcatSnoc(resources, i);
      ConcatAppend(Concat(resources[..i]), resources[i]);
      CaptureConcat(text, Concat(Concat(resources[..i])), Concat(resources[i]));
      var captured := CaptureResource(text, resources[i]);
      spans := spans + captured;
    }
    assert resources[..|resources|] == resources;
  }

  /** `decodeTraceRequest`: the captured spans of a request, in order, or the
      first error met. */
  method DecodeTraceRequest(text: seq<byte> -> string, body: seq<byte>) returns (r: Result<seq<Captured>, Error>)
    ensures r == CapturedFrom(text, body)
    ensures match TraceOf(body)
            case Err(e) => r == Err(e)
            case Ok(resources) => r.Ok? && exists at :: CapturedAt(text, AllSpans(resources), r.value, at)
  {
    var resources :- DecodeResources(body);
    var spans := CaptureResources(text, resources);
    ghost var at := CaptureAllAt(text, AllSpans(resources));
    r := Ok(spans);
  }

  method DecodeResources(body: seq<byte>) returns (r: Result<seq<seq<seq<Span>>>, Error>)
    ensures r == TraceOf(body)
  {
    var reader := new ProtoReader(body);
    var resources: seq<seq<seq<Span>>> := [];
    while !reader.Done()
      invariant reader.buffer == body && reader.offset <= |body| + 8
      invariant TraceOf(body) == ListFrom(1, ResourceSpansOf, body, reader.offset, resources)
      decreases |body| + 8 - reader.offset
    {
      ListFromStep(1, ResourceSpansOf, body, reader.offset, resources);
      var tag :- reader.ReadTag();
      if tag.0 == 1 && tag.1 == 2 {
        var x :- reader.ReadBytes();
        var resource :- DecodeResourceSpans(x);
        resources := resources + [resource];
      } else {
        var _ :- reader.Skip(tag.1);
      }
    }
    r := Ok(resources);
  }

  // ------------------------------------------------------------------ round trip

  /** A field of an encoded span, in any order and number. */
  datatype SpanField =
    | Parent(id: seq<byte>)
    | Name(name: seq<byte>)
    | Attribute(entry: PairMessage)
    | Extra(record: Record)

  predicate ValidField(f: SpanField) {
    match f
    case Attribute(entry) => ValidPair(entry)
    case Extra(r) => Encodable(r) && !((r.field == 4 || r.field == 5 || r.field == 9) && r.payload.Bytes?)
    case _ => true
  }

  function FieldRecord(f: SpanField): Record {
    match f
    case Parent(id) => Record(4, Bytes(id))
    case Name(name) => Record(5, Bytes(name))
    case Attribute(entry) => Record(9, Bytes(EncodePair(entry)))
    case Extra(r) => r
  }

  function FieldRecords(fs: seq<SpanField>): seq<Record> {
    if fs == [] then [] else [FieldRecord(fs[0])] + FieldRecords(fs[1..])
  }

  /** The span that the fields describe, on top of what came before. */
  function Meant(fs: seq<SpanField>, acc: Span): Span {
    if fs == [] then acc else Meant(fs[1..], MeantBy(fs[0], acc))
  }

  function MeantBy(f: SpanField, acc: Span): Span {
    match f
    case Parent(id) => acc.(parentSpanId := Some(id))
    case Name(name) => acc.(name := Some(name))
    case Attribute(entry) => acc.(attributes := Some(Attributes(acc) + [PairValue(StripPair(entry))]))
    case Extra(_) => acc
  }

  predicate ValidFields(fs: seq<SpanField>) {
    forall i :: 0 <= i < |fs| ==> ValidField(fs[i])
  }

  lemma {:induction false} PairInverts(m: PairMessage)
    requires ValidPair(m)
    ensures DecodeKv(EncodePair(m)) == Ok(PairValue(StripPair(m)))
  {
    DecodeInvertsEncode(m.value);
    KvInverts(m.before, m.key, m.between, EncodeAny(m.value), m.after, Value(Strip(m.value)));
  }

  /** Field i is the last of the fields that gives a parent, or a name. */
  ghost predicate LastParent(fs: seq<SpanField>, i: nat) {
    i < |fs| && fs[i].Parent? && forall j :: i < j < |fs| ==> !fs[j].Parent?
  }

  ghost predicate LastName(fs: seq<SpanField>, i: nat) {
    i < |fs| && fs[i].Name? && forall j :: i < j < |fs| ==> !fs[j].Name?
  }

  function AreAttributes(fs: seq<SpanField>): (r: seq<bool>)
    ensures |r| == |fs| && forall i :: 0 <= i < |fs| ==> (r[i] <==> fs[i].Attribute?)
    decreases |fs|
  {
    if fs == [] then [] else AreAttributes(fs[..|fs| - 1]) + [fs[|fs| - 1].Attribute?]
  }

  /** The attributes among the fields, in order: entry j is from field at[j]. */
  ghost predicate AttributesAt(fs: seq<SpanField>, list: seq<KeyValue>, at: seq<nat>) {
    Indexes(at, AreAttributes(fs)) && |at| == |list| && forall j: nat :: j < |at| ==> AttributeFromAt(fs, list, at, j)
  }

  ghost predicate AttributeFromAt(fs: seq<SpanField>, list: seq<KeyValue>, at: seq<nat>, j: nat)
    requires j < |at| == |list|
  {
    at[j] < |fs| && fs[at[j]].Attribute? && list[j] == PairValue(StripPair(fs[at[j]].entry))
  }

  ghost predicate SaysParent(fs: seq<SpanField>, s: Span) {
    && (s.parentSpanId.None? <==> forall i :: 0 <= i < |fs| ==> !fs[i].Parent?)
    && (forall i: nat :: LastParent(fs, i) ==> s.parentSpanId == Some(fs[i].id))
  }

  ghost predicate SaysName(fs: seq<SpanField>, s: Span) {
    && (s.name.None? <==> forall i :: 0 <= i < |fs| ==> !fs[i].Name?)
    && (forall i: nat :: LastName(fs, i) ==> s.name == Some(fs[i].name))
  }

  /** The span has the last parent and the last name given, and all attributes in order. */
  lemma {:induction false} MeantIsExact(fs: seq<SpanField>) returns (at: seq<nat>)
    ensures SaysParent(fs, Meant(fs, EMPTY_SPAN)) && SaysName(fs, Meant(fs, EMPTY_SPAN))
    ensures AttributesAt(fs, Attributes(Meant(fs, EMPTY_SPAN)), at)
    decreases |fs|
  {
    if fs == [] {
      at := [];
    } else {
      var init, f := fs[..|fs| - 1], fs[|fs| - 1];
      var before := MeantIsExact(init);
      var s := Meant(init, EMPTY_SPAN);
      MeantSnoc(fs, EMPTY_SPAN);
      ParentSnoc(fs, init, f, s);
      NameSnoc(fs, init, f, s);
      at := if f.Attribute? then before + [|init|] else before;
      AttributesSnoc(fs, init, f, s, before);
    }
  }

  lemma {:induction false} MeantSnoc(fs: seq<SpanField>, acc: Span)
    requires fs != []
    ensures Meant(fs, acc) == MeantBy(fs[|fs| - 1], Meant(fs[..|fs| - 1], acc))
    decreases |fs|
  {
    var n := |fs| - 1;
    if n == 0 {
      assert fs[1..] == [] && fs[..0] == [];
    } else {
      assert fs[..n][1..] == fs[1..][..n - 1] && fs[1..][n - 1] == fs[n];
      MeantSnoc(fs[1..], MeantBy(fs[0], acc));
    }
  }

  lemma {:induction false} ParentSnoc(fs: seq<SpanField>, init: seq<SpanField>, f: SpanField, s: Span)
    requires fs == init + [f] && SaysParent(init, s)
    ensures SaysParent(fs, MeantBy(f, s))
  {
    if f.Parent? {
      ParentNew(fs, init, f, MeantBy(f, s));
    } else {
      ParentOn(fs, init, f, s, MeantBy(f, s));
    }
  }

  lemma {:induction false} ParentNew(fs: seq<SpanField>, init: seq<SpanField>, f: SpanField, s: Span)
    requires fs == init + [f] && f.Parent? && s.parentSpanId == Some(f.id)
    ensures SaysParent(fs, s)
  {
    assert fs[|init|] == f;
  }

  lemma {:induction false} ParentOn(fs: seq<SpanField>, init: seq<SpanField>, f: SpanField, s: Span, s': Span)
    requires fs == init + [f] && !f.Parent? && SaysParent(init, s) && s'.parentSpanId == s.parentSpanId
    ensures SaysParent(fs, s')
  {
    assert forall i :: 0 <= i < |init| ==> fs[i] == init[i];
    forall i: nat | LastParent(fs, i)
      ensures LastParent(init, i)
    {
    }
  }

  lemma {:induction false} NameSnoc(fs: seq<SpanField>, init: seq<SpanField>, f: SpanField, s: Span)
    requires fs == init + [f] && SaysName(init, s)
    ensures SaysName(fs, MeantBy(f, s))
  {
    if f.Name? {
      NameNew(fs, init, f, MeantBy(f, s));
    } else {
      NameOn(fs, init, f, s, MeantBy(f, s));
    }
  }

  lemma {:induction false} NameNew(fs: seq<SpanField>, init: seq<SpanField>, f: SpanField, s: Span)
    requires fs == init + [f] && f.Name? && s.name == Some(f.name)
    ensures SaysName(fs, s)
  {
    assert fs[|init|] == f;
  }

  lemma {:induction false} NameOn(fs: seq<SpanField>, init: seq<SpanField>, f: SpanField, s: Span, s': Span)
    requires fs == init + [f] && !f.Name? && SaysName(init, s) && s'.name == s.name
    ensures SaysName(fs, s')
  {
    assert forall i :: 0 <= i < |init| ==> fs[i] == init[i];
    forall i: nat | LastName(fs, i)
      ensures LastName(init, i)
    {
    }
  }

  lemma {:induction false} AttributesSnoc(fs: seq<SpanField>, init: seq<SpanField>, f: SpanField, s: Span, at: seq<nat>)
    requires fs == init + [f] && AttributesAt(init, Attributes(s), at)
    ensures AttributesAt(fs, Attributes(MeantBy(f, s)), if f.Attribute? then at + [|init|] else at)
  {
    FlagsSnoc(fs, init, f);
    IndexesSnoc(at, AreAttributes(init), f.Attribute?);
    var list := Attributes(s);
    if f.Attribute? {
      var v := PairValue(StripPair(f.entry));
      EntriesOn(fs, init, f, list, at, list + [v], at + [|init|]);
      assert AttributesAt(fs, list + [v], at + [|init|]);
    } else {
      EntriesOn(fs, init, f, list, at, list, at);
    }
  }

  lemma {:induction false} EntriesOn(fs: seq<SpanField>, init: seq<SpanField>, f: SpanField, list: seq<KeyValue>, at: seq<nat>,
                                     list': seq<KeyValue>, at': seq<nat>)
    requires fs == init + [f] && AttributesAt(init, list, at)
    requires if f.Attribute? then list' == list + [PairValue(StripPair(f.entry))] && at' == at + [|init|]
             else list' == list && at' == at
    ensures |at'| == |list'| && forall j: nat :: j < |at'| ==> AttributeFromAt(fs, list', at', j)
  {
    forall j: nat | j < |at'|
      ensures AttributeFromAt(fs, list', at', j)
    {
      if j < |at| {
        assert AttributeFromAt(init, list, at, j);
      } else {
        assert fs[|init|] == f;
      }
    }
  }

  lemma {:induction false} FlagsSnoc(fs: seq<SpanField>, init: seq<SpanField>, f: SpanField)
    requires fs == init + [f]
    ensures AreAttributes(fs) == AreAttributes(init) + [f.Attribute?]
  {
    assert fs[..|init|] == init;
  }

  lemma {:induction false} FieldStep(f: SpanField, acc: Span)
    requires ValidField(f)
    ensures Encodable(FieldRecord(f))
    ensures StepSpan(FieldRecord(f), acc) == Ok(MeantBy(f, acc))
  {
    if f.Attribute? {
      PairInverts(f.entry);
    }
  }

  lemma {:induction false} FieldsFold(fs: seq<SpanField>, acc: Span)
    requires ValidFields(fs)
    ensures AllEncodable(FieldRecords(fs)) && FoldSpan(FieldRecords(fs), acc, None) == Ok(Meant(fs, acc))
    decreases |fs|
  {
    if fs == [] {
    } else {
      FieldStep(fs[0], acc);
      FieldsFold(fs[1..], MeantBy(fs[0], acc));
      HeadAndTail(FieldRecord(fs[0]), FieldRecords(fs[1..]));
    }
  }

  /** Every span is decoded to what its fields say, in whatever order they come. */
  lemma {:induction false} SpanInverts(fs: seq<SpanField>)
    requires ValidFields(fs)
    ensures SpanOf(EncodeRecords(FieldRecords(fs))) == Ok(Meant(fs, EMPTY_SPAN))
  {
    FieldsFold(fs, EMPTY_SPAN);
    ScanWhole(FieldRecords(fs));
  }

  /** Encoded elements of a list in the given field, with unknown fields between. */
  function PartRecords(field: nat, parts: seq<Part>): seq<Record> {
    if parts == [] then [] else parts[0].before + ([Record(field, Bytes(parts[0].bytes))] + PartRecords(field, parts[1..]))
  }

  predicate UnknownToField(field: nat, rs: seq<Record>) {
    forall i :: 0 <= i < |rs| ==> Encodable(rs[i]) && !(rs[i].field == field && rs[i].payload.Bytes?)
  }

  lemma {:induction false} SkipList<T>(field: nat, decode: Decode<T>, junk: seq<Record>, rs: seq<Record>, acc: seq<T>)
    requires UnknownToField(field, junk)
    ensures FoldList(field, decode, junk + rs, acc, None) == FoldList(field, decode, rs, acc, None)
    decreases |junk|
  {
    if junk == [] {
      assert junk + rs == rs;
    } else {
      assert (junk + rs)[1..] == junk[1..] + rs && (junk + rs)[0] == junk[0];
      SkipList(field, decode, junk[1..], rs, acc);
    }
  }

  lemma {:induction false} ListFolds<T>(field: nat, decode: Decode<T>, parts: seq<Part>, trail: seq<Record>, acc: seq<T>, vs: seq<T>)
    requires 8 * field + 7 < TWO32 && UnknownToField(field, trail) && |vs| == |parts|
    requires forall i :: 0 <= i < |parts| ==> UnknownToField(field, parts[i].before) && decode(parts[i].bytes) == Ok(vs[i])
    ensures AllEncodable(PartRecords(field, parts) + trail)
    ensures FoldList(field, decode, PartRecords(field, parts) + trail, acc, None) == Ok(acc + vs)
    decreases |parts|
  {
    if parts == [] {
      assert PartRecords(field, parts) + trail == trail + [];
      SkipList(field, decode, trail, [], acc);
      assert acc + vs == acc;
    } else {
      var junk, head, rest := parts[0].before, Record(field, Bytes(parts[0].bytes)), PartRecords(field, parts[1..]) + trail;
      PartsCons(field, parts, trail);
      ListFolds(field, decode, parts[1..], trail, acc + [vs[0]], vs[1..]);
      SkipList(field, decode, junk, [head] + rest, acc);
      HeadAndTail(head, rest);
      MoveFirst(acc, vs);
    }
  }

  lemma {:induction false} PartsCons(field: nat, parts: seq<Part>, trail: seq<Record>)
    requires parts != []
    ensures PartRecords(field, parts) + trail ==
            parts[0].before + ([Record(field, Bytes(parts[0].bytes))] + (PartRecords(field, parts[1..]) + trail))
  {
    var head, rest := [Record(field, Bytes(parts[0].bytes))], PartRecords(field, parts[1..]);
    Assoc(parts[0].before, head + rest, trail);
    Assoc(head, rest, trail);
  }

  /** A list message is decoded to its elements, in order, whatever unknown fields
      stand between them, if each element is decoded to its value. */
  lemma {:induction false} ListInverts<T>(field: nat, decode: Decode<T>, parts: seq<Part>, trail: seq<Record>, vs: seq<T>)
    requires 8 * field + 7 < TWO32 && UnknownToField(field, trail) && |vs| == |parts|
    requires forall i :: 0 <= i < |parts| ==> UnknownToField(field, parts[i].before) && decode(parts[i].bytes) == Ok(vs[i])
    ensures ListOf(field, decode, EncodeRecords(PartRecords(field, parts) + trail)) == Ok(vs)
  {
    ListFolds(field, decode, parts, trail, [], vs);
    ScanWhole(PartRecords(field, parts) + trail);
    assert [] + vs == vs;
  }

  /** An element of a list message with the unknown fields in front of it. */
  datatype Element<T> = Element(before: seq<Record>, content: T)

  datatype ListMessage<T> = ListMessage(elements: seq<Element<T>>, trail: seq<Record>)

  function EncodeList<T>(field: nat, encode: T -> seq<byte>, m: ListMessage<T>): seq<byte> {
    EncodeRecords(PartRecords(field, Parts(encode, m.elements)) + m.trail)
  }

  function Parts<T>(encode: T -> seq<byte>, es: seq<Element<T>>): (ps: seq<Part>)
    ensures |ps| == |es| && forall i :: 0 <= i < |es| ==> ps[i] == Part(es[i].before, encode(es[i].content))
  {
    seq(|es|, i requires 0 <= i < |es| => Part(es[i].before, encode(es[i].content)))
  }

  function Contents<T, V>(value: T -> V, es: seq<Element<T>>): (vs: seq<V>)
    ensures |vs| == |es| && forall i :: 0 <= i < |es| ==> vs[i] == value(es[i].content)
  {
    seq(|es|, i requires 0 <= i < |es| => value(es[i].content))
  }

  predicate ValidList<T>(field: nat, valid: T -> bool, m: ListMessage<T>) {
    && UnknownToField(field, m.trail)
    && forall i :: 0 <= i < |m.elements| ==> UnknownToField(field, m.elements[i].before) && valid(m.elements[i].content)
  }

  type Fields = seq<SpanField>
  type Scope = ListMessage<Fields>
  type Resource = ListMessage<Scope>
  type Trace = ListMessage<Resource>

  function EncodeSpan(fs: Fields): seq<byte> { EncodeRecords(FieldRecords(fs)) }
  function EncodeScope(m: Scope): seq<byte> { EncodeList(2, EncodeSpan, m) }
  function EncodeResource(m: Resource): seq<byte> { EncodeList(2, EncodeScope, m) }
  function EncodeTrace(m: Trace): seq<byte> { EncodeList(1, EncodeResource, m) }

  function SpanMeant(fs: Fields): Span { Meant(fs, EMPTY_SPAN) }
  function ScopeMeant(m: Scope): seq<Span> { Contents(SpanMeant, m.elements) }
  function ResourceMeant(m: Resource): seq<seq<Span>> { Contents(ScopeMeant, m.elements) }
  function TraceMeant(m: Trace): seq<seq<seq<Span>>> { Contents(ResourceMeant, m.elements) }

  predicate ValidScope(m: Scope) { ValidList(2, ValidFields, m) }
  predicate ValidResource(m: Resource) { ValidList(2, ValidScope, m) }
  predicate ValidTrace(m: Trace) { ValidList(1, ValidResource, m) }

  lemma {:induction false} ScopeInverts(m: Scope)
    requires ValidScope(m)
    ensures ScopeSpansOf(EncodeScope(m)) == Ok(ScopeMeant(m))
  {
    forall i | 0 <= i < |m.elements|
      ensures SpanOf(EncodeSpan(m.elements[i].content)) == Ok(SpanMeant(m.elements[i].content))
    {
      SpanInverts(m.elements[i].content);
    }
    ListInverts(2, SpanOf, Parts(EncodeSpan, m.elements), m.trail, ScopeMeant(m));
  }

  lemma {:induction false} ResourceInverts(m: Resource)
    requires ValidResource(m)
    ensures ResourceSpansOf(EncodeResource(m)) == Ok(ResourceMeant(m))
  {
    forall i | 0 <= i < |m.elements|
      ensures ScopeSpansOf(EncodeScope(m.elements[i].content)) == Ok(ScopeMeant(m.elements[i].content))
    {
      ScopeInverts(m.elements[i].content);
    }
    ListInverts(2, ScopeSpansOf, Parts(EncodeScope, m.elements), m.trail, ResourceMeant(m));
  }

  /** A whole trace request is decoded to its spans, with unknown fields anywhere:
      around resources, scopes, spans, attributes and values. */
  lemma {:induction false} TraceInverts(m: Trace, text: seq<byte> -> string)
    requires ValidTrace(m)
    ensures TraceOf(EncodeTrace(m)) == Ok(TraceMeant(m))
    ensures CapturedFrom(text, EncodeTrace(m)).Ok?
    ensures exists at :: CapturedAt(text, AllSpans(TraceMeant(m)), CapturedFrom(text, EncodeTrace(m)).value, at)
  {
    var at := CaptureAllAt(text, AllSpans(TraceMeant(m)));
    forall i | 0 <= i < |m.elements|
      ensures ResourceSpansOf(EncodeResource(m.elements[i].content)) == Ok(ResourceMeant(m.elements[i].content))
    {
      ResourceInverts(m.elements[i].content);
    }
    ListInverts(1, ResourceSpansOf, Parts(EncodeResource, m.elements), m.trail, TraceMeant(m));
  }
}

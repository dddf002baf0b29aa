/** Round trips of the artifact manifest, and where its decoder is not total. */
module ArtifactManifestTheorems {
  import opened Bytes
  import opened Wrappers
  import opened ArtifactManifest

  // ----- Varints -----

  function EncodeVarint(n: nat): ByteString {
    if n < 128 then [n] else [128 + n % 128] + EncodeVarint(n / 128)
  }

  /** 128 to the power `k`. */
  function Limit(k: nat): nat {
    if k == 0 then 1 else 128 * Limit(k - 1)
  }

  /** One group holds seven bits. */
  lemma {:induction false} LimitIsPow2(k: nat)
    ensures Limit(k) == Pow2(7 * k)
  {
    if k > 0 {
      var n := 7 * k - 7;
      LimitIsPow2(k - 1);
      assert Pow2(n + 1) == 2 * Pow2(n) && Pow2(n + 2) == 4 * Pow2(n) && Pow2(n + 3) == 8 * Pow2(n);
      assert Pow2(n + 4) == 16 * Pow2(n) && Pow2(n + 5) == 32 * Pow2(n) && Pow2(n + 6) == 64 * Pow2(n);
    }
  }

  /** Ten groups hold seventy. */
  lemma LimitIsSeventyBits()
    ensures Limit(MAX_GROUPS) == Pow2(70) == 0x40_0000_0000_0000_0000
  {
    LimitIsPow2(MAX_GROUPS);
    assert Limit(MAX_GROUPS) == 0x40_0000_0000_0000_0000;
  }

  /** One group. */
  lemma VarintStep(data: ByteString, cursor: nat, k: nat)
    requires k < MAX_GROUPS && cursor < |data|
    ensures data[cursor] < 128 ==> VarintFrom(data, cursor, k) == Some(Varint(data[cursor], cursor + 1))
    ensures data[cursor] >= 128 ==>
              var r := VarintFrom(data, cursor + 1, k + 1);
              VarintFrom(data, cursor, k) ==
              if r.None? then None else Some(Varint(data[cursor] - 128 + 128 * r.value.value, r.value.next))
  {
  }

  /** The encoded number is read back, whatever follows it, exactly when the groups left suffice. */
  lemma {:induction false} VarintAt(before: ByteString, n: nat, after: ByteString, k: nat)
    requires k < MAX_GROUPS || (k == MAX_GROUPS && n > 0)
    ensures var r := VarintFrom(before + EncodeVarint(n) + after, |before|, k);
            r == if n < Limit(MAX_GROUPS - k) then Some(Varint(n, |before| + |EncodeVarint(n)|)) else None
    decreases n
  {
    hide VarintFrom, Limit;
    var data := before + EncodeVarint(n) + after;
    if k == MAX_GROUPS {
      GatherEnd(data, |before|, k, 0, 0);
      LimitGrows(0);
    } else {
      assert data[|before|] == EncodeVarint(n)[0];
      VarintStep(data, |before|, k);
      if n < 128 {
        LimitGrows(MAX_GROUPS - k);
      } else {
        var first := [128 + n % 128];
        assert data == (before + first) + EncodeVarint(n / 128) + after;
        VarintAt(before + first, n / 128, after, k + 1);
        LimitDivides(n, MAX_GROUPS - k);
      }
    }
  }

  lemma {:induction false} LimitGrows(k: nat)
    ensures Limit(k) >= 1 && (k > 0 ==> Limit(k) >= 128) && Limit(0) == 1
  {
    if k > 0 {
      LimitGrows(k - 1);
    }
  }

  lemma LimitDivides(n: nat, k: nat)
    requires k > 0
    ensures n < Limit(k) <==> n / 128 < Limit(k - 1)
  {
  }

  /** Decoding inverts encoding exactly below 2 to the 70. */
  lemma VarintRoundTrip(n: nat, after: ByteString)
    ensures DecodeVarint(EncodeVarint(n) + after, 0) ==
            if n < Pow2(70) then Some(Varint(n, |EncodeVarint(n)|)) else None
  {
    hide VarintFrom, EncodeVarint, Pow2, Limit;
    LimitIsSeventyBits();
    VarintAt([], n, after, 0);
    assert [] + EncodeVarint(n) + after == EncodeVarint(n) + after;
  }

  lemma {:induction false} VarintBelow(data: ByteString, cursor: nat, k: nat)
    requires k <= MAX_GROUPS
    ensures VarintFrom(data, cursor, k).Some? ==> VarintFrom(data, cursor, k).value.value < Limit(MAX_GROUPS - k)
    decreases MAX_GROUPS - k
  {
    if k < MAX_GROUPS {
      VarintBelow(data, cursor + 1, k + 1);
      LimitGrows(MAX_GROUPS - k);
    }
  }

  /** Every number that is read takes one to ten bytes and is below 2 to the 70. */
  lemma VarintBounds(data: ByteString, cursor: nat)
    ensures var r := DecodeVarint(data, cursor);
            r.Some? ==> cursor + 1 <= r.value.next <= cursor + 10 && r.value.next <= |data| && r.value.value < Pow2(70)
  {
    VarintAdvances(data, cursor, 0);
    VarintBelow(data, cursor, 0);
    LimitIsSeventyBits();
  }

  // ----- Fields -----

  datatype Field =
    | VarintField(number: nat, value: nat)
    | BytesField(number: nat, payload: ByteString)
    | Fixed64(number: nat, eight: ByteString)
    | Fixed32(number: nat, four: ByteString)

  predicate WellFormed(f: Field) {
    8 * f.number + 7 < Pow2(70) &&
    match f
    case VarintField(_, value) => value < Pow2(70)
    case BytesField(_, payload) => |payload| < Pow2(70)
    case Fixed64(_, eight) => |eight| == 8
    case Fixed32(_, four) => |four| == 4
  }

  function Wire(f: Field): nat {
    match f
    case VarintField(_, _) => 0
    case BytesField(_, _) => 2
    case Fixed64(_, _) => 1
    case Fixed32(_, _) => 5
  }

  function Body(f: Field): ByteString {
    match f
    case VarintField(_, value) => EncodeVarint(value)
    case BytesField(_, payload) => EncodeVarint(|payload|) + payload
    case Fixed64(_, eight) => eight
    case Fixed32(_, four) => four
  }

  function Tag(number: nat, wire: nat): ByteString {
    EncodeVarint(8 * number + wire)
  }

  function EncodeField(f: Field): ByteString {
    Tag(f.number, Wire(f)) + Body(f)
  }

  function EncodeFields(fields: seq<Field>): ByteString {
    if fields == [] then [] else EncodeField(fields[0]) + EncodeFields(fields[1..])
  }

  /** What a field adds to the offer; unknown fields add nothing. */
  function Store(offer: Offer, f: Field): Offer {
    match f
    case VarintField(number, value) =>
      if number in VARINT_FIELDS then offer[VARINT_FIELDS[number] := Number(value)] else offer
    case BytesField(number, payload) =>
      if number in STRING_FIELDS then offer[STRING_FIELDS[number] := Text(payload)] else offer
    case _ => offer
  }

  function StoreAll(offer: Offer, fields: seq<Field>): Offer
    decreases |fields|
  {
    if fields == [] then offer else StoreAll(Store(offer, fields[0]), fields[1..])
  }

  lemma VarintInside(before: ByteString, n: nat, after: ByteString)
    requires n < Pow2(70)
    ensures DecodeVarint(before + EncodeVarint(n) + after, |before|) == Some(Varint(n, |before| + |EncodeVarint(n)|))
  {
    hide VarintFrom, EncodeVarint, Pow2, Limit;
    LimitIsSeventyBits();
    VarintAt(before, n, after, 0);
  }

  lemma {:induction false} VarintNotEmpty(n: nat)
    ensures |EncodeVarint(n)| > 0
  {
  }

  /** After the tag of a field the decoder is at its body, with its number and wire type. */
  lemma TagInside(before: ByteString, number: nat, wire: nat, after: ByteString)
    requires wire < 8 && 8 * number + 7 < Pow2(70)
    ensures var data, at := before + Tag(number, wire) + after, |before| + |Tag(number, wire)|;
            && |before| < |data|
            && DecodeVarint(data, |before|) == Some(Varint(8 * number + wire, at))
            && (8 * number + wire) / 8 == number && (8 * number + wire) % 8 == wire
  {
    hide DecodeVarint, EncodeVarint, Pow2;
    VarintInside(before, 8 * number + wire, after);
    VarintNotEmpty(8 * number + wire);
  }

  /** One turn of the decoder's loop, with the tag already read. */
  lemma OfferStep(data: ByteString, start: nat, offer: Offer, number: nat, wire: nat, at: nat)
    requires start < |data| && wire < 8 && DecodeVarint(data, start) == Some(Varint(8 * number + wire, at))
    requires (8 * number + wire) / 8 == number && (8 * number + wire) % 8 == wire
    ensures var inner := DecodeVarint(data, at);
            && (wire == 0 || wire == 2 ==> inner.None? ==> OfferFrom(data, start, offer) == Raised)
            && (wire == 0 && inner.Some? ==>
                  OfferFrom(data, start, offer) ==
                  OfferFrom(data, inner.value.next, Store(offer, VarintField(number, inner.value.value))))
            && (wire == 2 && inner.Some? && inner.value.next + inner.value.value <= |data| ==>
                  var end := inner.value.next + inner.value.value;
                  OfferFrom(data, start, offer) ==
                  OfferFrom(data, end, Store(offer, BytesField(number, data[inner.value.next..end]))))
            && (wire == 2 && inner.Some? && inner.value.next + inner.value.value > |data| ==>
                  OfferFrom(data, start, offer) == Malformed)
            && (wire == 1 ==> OfferFrom(data, start, offer) == OfferFrom(data, at + 8, offer))
            && (wire == 5 ==> OfferFrom(data, start, offer) == OfferFrom(data, at + 4, offer))
            && (wire == 3 || wire == 4 || wire == 6 || wire == 7 ==> OfferFrom(data, start, offer) == Malformed)
  {
    hide DecodeVarint, STRING_FIELDS, VARINT_FIELDS;
  }

  /** Where the tag ends and the body begins. */
  lemma FieldLayout(before: ByteString, f: Field, after: ByteString)
    requires WellFormed(f)
    ensures var data, at := before + EncodeField(f) + after, |before| + |Tag(f.number, Wire(f))|;
            && |before| < |data|
            && DecodeVarint(data, |before|) == Some(Varint(8 * f.number + Wire(f), at))
            && (8 * f.number + Wire(f)) / 8 == f.number && (8 * f.number + Wire(f)) % 8 == Wire(f)
            && |before + EncodeField(f)| == at + |Body(f)|
            && data == (before + Tag(f.number, Wire(f))) + Body(f) + after
  {
    hide DecodeVarint, EncodeVarint, Tag, Body, Pow2;
    var tag := Tag(f.number, Wire(f));
    TagInside(before, f.number, Wire(f), Body(f) + after);
    assert before + EncodeField(f) + after == before + tag + (Body(f) + after);
  }

  /** A length-delimited body: the length, and then exactly the payload. */
  lemma PayloadInside(before: ByteString, payload: ByteString, after: ByteString)
    requires |payload| < Pow2(70)
    ensures var data := before + (EncodeVarint(|payload|) + payload) + after;
            var start := |before| + |EncodeVarint(|payload|)|;
            && DecodeVarint(data, |before|) == Some(Varint(|payload|, start))
            && start + |payload| <= |data| && data[start..start + |payload|] == payload
  {
    hide DecodeVarint, EncodeVarint, Pow2;
    VarintInside(before, |payload|, payload + after);
    var data := before + (EncodeVarint(|payload|) + payload) + after;
    assert data == before + EncodeVarint(|payload|) + (payload + after);
  }

  /** One well-formed field is consumed and stored, whatever surrounds it. */
  lemma FieldIsStored(before: ByteString, f: Field, after: ByteString, offer: Offer)
    requires WellFormed(f)
    ensures OfferFrom(before + EncodeField(f) + after, |before|, offer) ==
            OfferFrom(before + EncodeField(f) + after, |before + EncodeField(f)|, Store(offer, f))
  {
    hide OfferFrom, DecodeVarint, EncodeVarint, EncodeField, Tag, Pow2, Store;
    var data := before + EncodeField(f) + after;
    var start := before + Tag(f.number, Wire(f));
    FieldLayout(before, f, after);
    OfferStep(data, |before|, offer, f.number, Wire(f), |start|);
    match f
    case VarintField(_, value) => VarintInside(start, value, after);
    case BytesField(_, payload) => PayloadInside(start, payload, after);
    case Fixed64(_, _) => FixedStoresNothing(offer, f);
    case Fixed32(_, _) => FixedStoresNothing(offer, f);
  }

  lemma FixedStoresNothing(offer: Offer, f: Field)
    requires f.Fixed64? || f.Fixed32?
    ensures Store(offer, f) == offer
  {
  }

  lemma {:induction false} FieldsAreStored(before: ByteString, fields: seq<Field>, after: ByteString, offer: Offer)
    requires forall f :: f in fields ==> WellFormed(f)
    ensures OfferFrom(before + EncodeFields(fields) + after, |before|, offer) ==
            OfferFrom(before + EncodeFields(fields) + after, |before + EncodeFields(fields)|, StoreAll(offer, fields))
    decreases |fields|
  {
    hide OfferFrom, EncodeField, Store, WellFormed;
    if fields == [] {
      assert before + EncodeFields(fields) == before;
    } else {
      var head, rest := EncodeField(fields[0]), EncodeFields(fields[1..]);
      Regroup(before, head, rest, after);
      FieldIsStored(before, fields[0], rest + after, offer);
      FieldsAreStored(before + head, fields[1..], after, Store(offer, fields[0]));
    }
  }

  lemma Regroup(before: ByteString, head: ByteString, rest: ByteString, after: ByteString)
    ensures before + (head + rest) + after == before + head + (rest + after) == (before + head) + rest + after
    ensures (before + head) + rest == before + (head + rest)
  {
  }

  /** Any sequence of well-formed fields decodes to what the fields store, in order. */
  lemma OfferRoundTrip(fields: seq<Field>)
    requires forall f :: f in fields ==> WellFormed(f)
    ensures OfferFrom(EncodeFields(fields), 0, map[]) == Decoded(StoreAll(map[], fields))
  {
    FieldsAreStored([], fields, [], map[]);
    assert [] + EncodeFields(fields) + [] == EncodeFields(fields);
    assert |[] + EncodeFields(fields)| == |EncodeFields(fields)|;
  }

  // ----- Order does not matter -----

  /** The name a field is stored under, if it is known. */
  function KeyOf(f: Field): Option<string> {
    match f
    case VarintField(number, _) => if number in VARINT_FIELDS then Some(VARINT_FIELDS[number]) else None
    case BytesField(number, _) => if number in STRING_FIELDS then Some(STRING_FIELDS[number]) else None
    case _ => None
  }

  function ValueOf(f: Field): Value
    requires KeyOf(f).Some?
  {
    if f.VarintField? then Number(f.value) else Text(f.payload)
  }

  predicate KeysOnce(fields: seq<Field>) {
    forall i, j :: 0 <= i < j < |fields| && KeyOf(fields[i]).Some? ==> KeyOf(fields[i]) != KeyOf(fields[j])
  }

  lemma StoreSetsKey(offer: Offer, f: Field)
    ensures Store(offer, f) == if KeyOf(f).Some? then offer[KeyOf(f).value := ValueOf(f)] else offer
  {
  }

  lemma {:induction false} StoredValue(offer: Offer, fields: seq<Field>, key: string)
    requires KeysOnce(fields)
    ensures (exists f :: f in fields && KeyOf(f) == Some(key)) ==>
              key in StoreAll(offer, fields)
              && exists f :: f in fields && KeyOf(f) == Some(key) && StoreAll(offer, fields)[key] == ValueOf(f)
    ensures !(exists f :: f in fields && KeyOf(f) == Some(key)) ==>
              (key in StoreAll(offer, fields) <==> key in offer)
              && (key in offer ==> StoreAll(offer, fields)[key] == offer[key])
    decreases |fields|
  {
    hide Store, KeyOf, ValueOf;
    if fields != [] {
      var f, rest := fields[0], fields[1..];
      StoreSetsKey(offer, f);
      assert KeysOnce(rest) by {
        assert forall i :: 0 <= i < |rest| ==> rest[i] == fields[i + 1];
      }
      StoredValue(Store(offer, f), rest, key);
      assert forall g :: g in fields <==> g == f || g in rest;
      if KeyOf(f) == Some(key) {
        forall g | g in rest
          ensures KeyOf(g) != Some(key)
        {
          var j :| 0 <= j < |rest| && rest[j] == g;
          assert fields[j + 1] == g;
        }
        assert f in fields;
      }
    }
  }

  /**
   An offer whose known fields occur once each is recovered field by field, in whatever
   order they come and whatever unknown fields stand between them.
   */
  lemma OfferRecovered(fields: seq<Field>, f: Field)
    requires forall g :: g in fields ==> WellFormed(g)
    requires KeysOnce(fields) && f in fields && KeyOf(f).Some?
    ensures var r := OfferFrom(EncodeFields(fields), 0, map[]);
            r.Decoded? && KeyOf(f).value in r.offer && r.offer[KeyOf(f).value] == ValueOf(f)
  {
    OfferRoundTrip(fields);
    var key := KeyOf(f).value;
    StoredValue(map[], fields, key);
    var g :| g in fields && KeyOf(g) == Some(key) && StoreAll(map[], fields)[key] == ValueOf(g);
    var i :| 0 <= i < |fields| && fields[i] == f;
    var j :| 0 <= j < |fields| && fields[j] == g;
    assert i == j;
  }

  // ----- The whole manifest -----

  function LittleEndian(n: nat, width: nat): (r: ByteString)
    ensures |r| == width
  {
    if width == 0 then [] else [n % 256] + LittleEndian(n / 256, width - 1)
  }

  function Pow256(k: nat): nat {
    if k == 0 then 1 else 256 * Pow256(k - 1)
  }

  lemma {:induction false} LittleEndianRoundTrip(n: nat, width: nat)
    requires n < Pow256(width)
    ensures FromLittleEndian(LittleEndian(n, width)) == n
    decreases width
  {
    if width > 0 {
      LittleEndianRoundTrip(n / 256, width - 1);
    }
  }

  lemma Widths()
    ensures Pow256(4) == 0x1_0000_0000 && Pow256(8) == 0x1_0000_0000_0000_0000
  {
  }

  function Unsigned32(state: int): nat
    requires -0x8000_0000 <= state < 0x8000_0000
  {
    if state < 0 then state + 0x1_0000_0000 else state
  }

  function EncodeManifest(fields: seq<Field>, state: int, nextChunk: nat, received: nat): ByteString
    requires -0x8000_0000 <= state < 0x8000_0000
  {
    var offer := EncodeFields(fields);
    MAGIC + [1] + LittleEndian(|offer|, 4) + offer
    + (LittleEndian(Unsigned32(state), 4) + LittleEndian(nextChunk, 4) + LittleEndian(received, 8))
  }

  lemma SliceLayout(head: ByteString, length: ByteString, offer: ByteString, trailer: ByteString)
    requires |head| == 8 && |length| == 4
    ensures var data := head + length + offer + trailer;
            && data[8..12] == length && data[12..12 + |offer|] == offer && data[12 + |offer|..] == trailer
            && data[..8] == head && |data| == 12 + |offer| + |trailer|
  {
  }

  lemma SliceTrailer(a: ByteString, b: ByteString, c: ByteString)
    requires |a| == 4 && |b| == 4 && |c| == 8
    ensures var t := a + b + c; t[..4] == a && t[4..8] == b && t[8..16] == c
  {
  }

  /** The decoder recovers offer and trailer of every encoded manifest. */
  lemma ManifestRoundTrip(fields: seq<Field>, state: int, nextChunk: nat, received: nat)
    requires forall f :: f in fields ==> WellFormed(f)
    requires |EncodeFields(fields)| < 0x1_0000_0000
    requires -0x8000_0000 <= state < 0x8000_0000
    requires nextChunk < 0x1_0000_0000 && received < 0x1_0000_0000_0000_0000
    ensures DecodeManifest(EncodeManifest(fields, state, nextChunk, received)) ==
            Manifest(StoreAll(map[], fields), state, nextChunk, received)
  {
    hide FromLittleEndian, LittleEndian, OfferFrom, EncodeFields, StoreAll, Pow256;
    var offer := EncodeFields(fields);
    var length := LittleEndian(|offer|, 4);
    var a, b, c := LittleEndian(Unsigned32(state), 4), LittleEndian(nextChunk, 4), LittleEndian(received, 8);
    var head := MAGIC + [1];
    Widths();
    LittleEndianRoundTrip(|offer|, 4);
    LittleEndianRoundTrip(Unsigned32(state), 4);
    LittleEndianRoundTrip(nextChunk, 4);
    LittleEndianRoundTrip(received, 8);
    OfferRoundTrip(fields);
    SliceLayout(head, length, offer, a + b + c);
    SliceTrailer(a, b, c);
    var data := head + length + offer + (a + b + c);
    assert data[7] == head[7] == 1;
    assert MAGIC <= data by {
      assert data[..7] == head[..7] == MAGIC;
    }
  }

  // ----- An offer, field by field -----

  datatype OfferRecord = OfferRecord(
    transferId: ByteString,
    commandId: ByteString,
    operationId: ByteString,
    resourceId: ByteString,
    agentId: ByteString,
    artifactId: ByteString,
    kind: nat,
    sha256: nat,
    format: ByteString,
    expires: nat)

  /** The fields under the numbers of the protocol. */
  function RecordFields(o: OfferRecord): seq<Field> {
    [BytesField(1, o.transferId), BytesField(2, o.commandId), BytesField(3, o.operationId), BytesField(4, o.resourceId),
     BytesField(5, o.agentId), BytesField(6, o.artifactId), VarintField(7, o.kind), VarintField(8, o.sha256),
     BytesField(10, o.format), VarintField(13, o.expires)]
  }

  predicate Encodable(o: OfferRecord) {
    && |o.transferId| < Pow2(70) && |o.commandId| < Pow2(70) && |o.operationId| < Pow2(70) && |o.resourceId| < Pow2(70)
    && |o.agentId| < Pow2(70) && |o.artifactId| < Pow2(70) && |o.format| < Pow2(70)
    && o.kind < Pow2(70) && o.sha256 < Pow2(70) && o.expires < Pow2(70)
  }

  /** Under which name a field is kept, number by number; every other field is dropped. */
  lemma StoredUnder(offer: Offer, f: Field)
    ensures Store(offer, f) ==
            match f
            case VarintField(number, v) =>
              if number == 7 then offer["kind" := Number(v)]
              else if number == 8 then offer["sha256" := Number(v)]
              else if number == 13 then offer["expires_at_unix_ms" := Number(v)]
              else offer
            case BytesField(number, b) =>
              if number == 1 then offer["transfer_id" := Text(b)]
              else if number == 2 then offer["command_id" := Text(b)]
              else if number == 3 then offer["operation_id" := Text(b)]
              else if number == 4 then offer["resource_id" := Text(b)]
              else if number == 5 then offer["agent_id" := Text(b)]
              else if number == 6 then offer["artifact_id" := Text(b)]
              else if number == 10 then offer["format" := Text(b)]
              else offer
            case _ => offer
  {
  }

  lemma {:induction false} StoreAllSnoc(offer: Offer, fields: seq<Field>, f: Field)
    ensures StoreAll(offer, fields + [f]) == Store(StoreAll(offer, fields), f)
    decreases |fields|
  {
    hide Store;
    if fields == [] {
      assert StoreAll(Store(offer, f), []) == Store(offer, f);
    } else {
      assert (fields + [f])[1..] == fields[1..] + [f];
      StoreAllSnoc(Store(offer, fields[0]), fields[1..], f);
    }
  }

  /** The names that the first `n` fields are kept under. */
  function RecordOffer(o: OfferRecord, n: nat): Offer {
    if n == 0 then map[]
    else if n == 1 then RecordOffer(o, 0)["transfer_id" := Text(o.transferId)]
    else if n == 2 then RecordOffer(o, 1)["command_id" := Text(o.commandId)]
    else if n == 3 then RecordOffer(o, 2)["operation_id" := Text(o.operationId)]
    else if n == 4 then RecordOffer(o, 3)["resource_id" := Text(o.resourceId)]
    else if n == 5 then RecordOffer(o, 4)["agent_id" := Text(o.agentId)]
    else if n == 6 then RecordOffer(o, 5)["artifact_id" := Text(o.artifactId)]
    else if n == 7 then RecordOffer(o, 6)["kind" := Number(o.kind)]
    else if n == 8 then RecordOffer(o, 7)["sha256" := Number(o.sha256)]
    else if n == 9 then RecordOffer(o, 8)["format" := Text(o.format)]
    else RecordOffer(o, 9)["expires_at_unix_ms" := Number(o.expires)]
  }

  lemma StoreNext(o: OfferRecord, i: nat, offer: Offer)
    requires i < 10 && StoreAll(map[], RecordFields(o)[..i]) == offer
    ensures StoreAll(map[], RecordFields(o)[..i + 1]) == Store(offer, RecordFields(o)[i])
  {
    hide Store, StoreAll;
    assert RecordFields(o)[..i + 1] == RecordFields(o)[..i] + [RecordFields(o)[i]];
    StoreAllSnoc(map[], RecordFields(o)[..i], RecordFields(o)[i]);
  }

  lemma StoreAllRecord(o: OfferRecord)
    ensures StoreAll(map[], RecordFields(o)) == RecordOffer(o, 10)
  {
    assert StoreAll(map[], RecordFields(o)[..0]) == map[];
    hide Store, StoreAll;
    var offer: Offer := map[];
    for i := 0 to 10
      invariant StoreAll(map[], RecordFields(o)[..i]) == offer
      invariant offer == RecordOffer(o, i)
    {
      StoreNext(o, i, offer);
      StoredUnder(offer, RecordFields(o)[i]);
      offer := Store(offer, RecordFields(o)[i]);
    }
    assert RecordFields(o)[..10] == RecordFields(o);
  }

  /** An offer is recovered name by name from its numbered fields. */
  lemma OfferRecordRoundTrip(o: OfferRecord)
    requires Encodable(o)
    ensures OfferFrom(EncodeFields(RecordFields(o)), 0, map[]) == Decoded(RecordOffer(o, 10))
  {
    hide OfferFrom, EncodeFields, StoreAll, Pow2;
    RecordIsWellFormed(o);
    OfferRoundTrip(RecordFields(o));
    StoreAllRecord(o);
  }

  lemma RecordIsWellFormed(o: OfferRecord)
    requires Encodable(o)
    ensures forall f :: f in RecordFields(o) ==> WellFormed(f)
  {
    assert Pow2(70) > 200 by {
      LimitIsSeventyBits();
    }
    hide Pow2;
    forall i | 0 <= i < 10
      ensures WellFormed(RecordFields(o)[i])
    {
    }
  }

  // ----- What is refused -----

  lemma FourBytes(b: ByteString)
    requires |b| == 4
    ensures FromLittleEndian(b) == b[0] as int + 256 * (b[1] as int) + 65536 * (b[2] as int) + 16777216 * (b[3] as int)
  {
    assert FromLittleEndian(b[4..]) == 0;
    assert b[3..][1..] == b[4..] && FromLittleEndian(b[3..]) == b[3] as int;
    assert b[2..][1..] == b[3..] && FromLittleEndian(b[2..]) == b[2] as int + 256 * (b[3] as int);
    assert b[1..][1..] == b[2..];
  }

  /**
   A manifest gets a verdict only when it begins with the letters O3KART1 and version 1, and is as
   long as its header says; then everything hangs on the offer.
   */
  lemma HeaderExactly(data: ByteString)
    ensures DecodeManifest(data) != Unparseable <==>
            && |data| >= 28
            && data[0] == 79 && data[1] == 51 && data[2] == 75 && data[3] == 65 && data[4] == 82 && data[5] == 84 && data[6] == 49
            && data[7] == 1
            && var length := data[8] as int + 256 * (data[9] as int) + 65536 * (data[10] as int) + 16777216 * (data[11] as int);
               |data| == 28 + length && OfferFrom(data[12..12 + length], 0, map[]) != Malformed
  {
    hide OfferFrom, FromLittleEndian;
    if |data| >= 28 {
      FourBytes(data[8..12]);
      assert MAGIC <= data <==> data[..7] == MAGIC;
      assert data[..7] == [data[0], data[1], data[2], data[3], data[4], data[5], data[6]];
      assert MAGIC == [79, 51, 75, 65, 82, 84, 49];
    }
  }

  /** After any well-formed fields, a tag that cannot be read or has another wire type refuses the offer. */
  lemma BadTagIsRefused(fields: seq<Field>, number: nat, wire: nat, rest: ByteString)
    requires forall f :: f in fields ==> WellFormed(f)
    ensures rest != [] && DecodeVarint(rest, 0).None? ==> OfferFrom(EncodeFields(fields) + rest, 0, map[]) == Malformed
    ensures 8 * number + 7 < Pow2(70) && (wire == 3 || wire == 4 || wire == 6 || wire == 7) ==>
              OfferFrom(EncodeFields(fields) + (Tag(number, wire) + rest), 0, map[]) == Malformed
  {
    hide OfferFrom, DecodeVarint, EncodeVarint, Tag, Store, StoreAll, EncodeFields, Pow2, WellFormed;
    var before, stored := EncodeFields(fields), StoreAll(map[], fields);
    assert [] + before == before;
    if rest != [] && DecodeVarint(rest, 0).None? {
      FieldsAreStored([], fields, rest, map[]);
      VarintShift(before, rest, 0);
      NoTagIsRefused(before + rest, |before|, stored);
    }
    if 8 * number + 7 < Pow2(70) && (wire == 3 || wire == 4 || wire == 6 || wire == 7) {
      var tag := Tag(number, wire);
      FieldsAreStored([], fields, tag + rest, map[]);
      TagInside(before, number, wire, rest);
      assert before + tag + rest == before + (tag + rest);
      OfferStep(before + (tag + rest), |before|, stored, number, wire, |before| + |tag|);
    }
  }

  lemma NoTagIsRefused(data: ByteString, start: nat, offer: Offer)
    requires start < |data| && DecodeVarint(data, start).None?
    ensures OfferFrom(data, start, offer) == Malformed
  {
    hide DecodeVarint;
  }

  // ----- Where the decoder is not total -----

  /** Where the body of a last field is said to end. */
  function LastEnd(wire: nat, inner: Varint): nat {
    if wire == 0 then inner.next else inner.next + inner.value
  }

  /**
   After any well-formed fields, a last field whose number or length is cut off or too long makes
   the decoder raise instead of returning a verdict: exactly when the number cannot be read. A
   length that can be read but reaches past the end is refused without raising.
   */
  lemma TruncatedInnerVarint(fields: seq<Field>, number: nat, wire: nat, rest: ByteString)
    requires forall f :: f in fields ==> WellFormed(f)
    requires 8 * number + 7 < Pow2(70) && (wire == 0 || wire == 2)
    requires DecodeVarint(rest, 0).Some? ==> LastEnd(wire, DecodeVarint(rest, 0).value) >= |rest|
    ensures OfferFrom(EncodeFields(fields) + Tag(number, wire) + rest, 0, map[]).Raised? <==> DecodeVarint(rest, 0).None?
  {
    hide OfferFrom, DecodeVarint, EncodeVarint, Tag, Store, StoreAll, EncodeFields, Pow2, WellFormed;
    var before, tag := EncodeFields(fields), Tag(number, wire);
    var data := before + tag + rest;
    assert [] + before + (tag + rest) == data && [] + before == before;
    FieldsAreStored([], fields, tag + rest, map[]);
    TagInside(before, number, wire, rest);
    var at := |before| + |tag|;
    VarintShift(before + tag, rest, 0);
    assert |before + tag| + 0 == at && |data| == at + |rest|;
    var stored := StoreAll(map[], fields);
    assert OfferFrom(data, 0, map[]) == OfferFrom(data, |before|, stored);
    OfferStep(data, |before|, stored, number, wire, at);
    EndOfOffer(data);
    VarintInData(rest);
    if DecodeVarint(rest, 0).Some? {
      var inner := DecodeVarint(data, at).value;
      assert inner.next <= |data| && LastEnd(wire, inner) >= |data|;
      var end := LastEnd(wire, inner);
      if end == |data| {
        assert OfferFrom(data, end, if wire == 0 then Store(stored, VarintField(number, inner.value))
                                    else Store(stored, BytesField(number, data[inner.next..end]))).Decoded?;
      }
    }
  }

  lemma VarintInData(data: ByteString)
    ensures DecodeVarint(data, 0).Some? ==> DecodeVarint(data, 0).value.next <= |data|
  {
    VarintAdvances(data, 0, 0);
  }

  lemma EndOfOffer(data: ByteString)
    ensures forall offer :: OfferFrom(data, |data|, offer) == Decoded(offer)
  {
  }

  lemma {:induction false} VarintShiftFrom(before: ByteString, rest: ByteString, cursor: nat, k: nat)
    requires k <= MAX_GROUPS
    ensures VarintFrom(before + rest, |before| + cursor, k) ==
            (var r := VarintFrom(rest, cursor, k);
             if r.None? then None else Some(Varint(r.value.value, |before| + r.value.next)))
    decreases MAX_GROUPS - k
  {
    hide VarintFrom;
    var data := before + rest;
    if k < MAX_GROUPS && cursor < |rest| {
      assert data[|before| + cursor] == rest[cursor];
      VarintShiftFrom(before, rest, cursor + 1, k + 1);
      VarintStep(data, |before| + cursor, k);
      VarintStep(rest, cursor, k);
    } else {
      GatherEnd(data, |before| + cursor, k, 0, 0);
      GatherEnd(rest, cursor, k, 0, 0);
    }
  }

  lemma VarintShift(before: ByteString, rest: ByteString, cursor: nat)
    ensures DecodeVarint(before + rest, |before| + cursor) ==
            (var r := DecodeVarint(rest, cursor);
             if r.None? then None else Some(Varint(r.value.value, |before| + r.value.next)))
  {
    VarintShiftFrom(before, rest, cursor, 0);
  }
}

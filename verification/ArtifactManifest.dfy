/**
 The binary artifact manifest: base-128 varints (Protocol Buffers encoding guide), the
 protobuf offer with its known and unknown fields, and the fixed header and trailer.
 */
module ArtifactManifest {
  import opened Bytes
  import opened Wrappers

  // ----- Varints -----

  datatype Varint = Varint(value: nat, next: nat)

  const MAX_GROUPS := 10

  /** Reads seven-bit groups, least significant first; `k` of the ten allowed have been read. */
  function VarintFrom(data: ByteString, cursor: nat, k: nat): Option<Varint>
    requires k <= MAX_GROUPS
    decreases MAX_GROUPS - k
  {
    if k == MAX_GROUPS || cursor >= |data| then None
    else if data[cursor] < 128 then Some(Varint(data[cursor], cursor + 1))
    else
      var rest := VarintFrom(data, cursor + 1, k + 1);
      if rest.None? then None
      else Some(Varint(data[cursor] - 128 + 128 * rest.value.value, rest.value.next))
  }

  function DecodeVarint(data: ByteString, cursor: nat): Option<Varint> {
    VarintFrom(data, cursor, 0)
  }

  /** What the loop still has to deliver, given the bits gathered so far. */
  function Gathered(low: nat, shift: nat, rest: Option<Varint>): Option<Varint> {
    if rest.None? then None else Some(Varint(low + ShiftLeft(rest.value.value, shift), rest.value.next))
  }

  lemma {:induction false} ShiftLeftGroups(group: nat, v: nat, k: nat)
    ensures ShiftLeft(group + 128 * v, k) == ShiftLeft(group, k) + ShiftLeft(v, k + 7)
  {
    if k > 0 {
      ShiftLeftGroups(group, v, k - 1);
    } else {
      assert ShiftLeft(v, 1) == 2 * v && ShiftLeft(v, 2) == 4 * v && ShiftLeft(v, 3) == 8 * v;
      assert ShiftLeft(v, 4) == 16 * v && ShiftLeft(v, 5) == 32 * v && ShiftLeft(v, 6) == 64 * v;
    }
  }

  lemma {:induction false} GroupFits(group: nat, k: nat)
    requires group < 128
    ensures ShiftLeft(group, k) + Pow2(k) <= Pow2(k + 7)
  {
    if k > 0 {
      GroupFits(group, k - 1);
    } else {
      assert Pow2(7) == 128;
    }
  }

  /** One more group, or-ed into place above the bits gathered so far. */
  lemma GatherGroup(low: nat, shift: nat, group: nat)
    requires low < Pow2(shift) && group < 128
    ensures Or(low, ShiftLeft(group, shift)) == low + ShiftLeft(group, shift) < Pow2(shift + 7)
  {
    hide ShiftLeft, Or, Pow2;
    OrDisjoint(low, group, shift);
    GroupFits(group, shift);
  }

  lemma GatherRest(low: nat, shift: nat, group: nat, rest: Option<Varint>)
    ensures Gathered(low + ShiftLeft(group, shift), shift + 7, rest) ==
            Gathered(low, shift, if rest.None? then None else Some(Varint(group + 128 * rest.value.value, rest.value.next)))
  {
    hide ShiftLeft;
    if rest.Some? {
      ShiftLeftGroups(group, rest.value.value, shift);
    }
  }

  /** One iteration: the group at the cursor goes into place and either ends the number or leaves the rest. */
  lemma GatherStep(data: ByteString, cursor: nat, k: nat, low: nat, shift: nat, group: nat)
    requires k < MAX_GROUPS && cursor < |data| && low < Pow2(shift) && group == data[cursor] % 128
    ensures var high := Or(low, ShiftLeft(group, shift));
            && high < Pow2(shift + 7)
            && Gathered(low, shift, VarintFrom(data, cursor, k)) ==
               if data[cursor] < 128 then Some(Varint(high, cursor + 1))
               else Gathered(high, shift + 7, VarintFrom(data, cursor + 1, k + 1))
  {
    hide ShiftLeft, Or, Pow2;
    GatherGroup(low, shift, group);
    if data[cursor] >= 128 {
      GatherRest(low, shift, group, VarintFrom(data, cursor + 1, k + 1));
    }
  }

  /** Running out of bytes or of groups. */
  lemma GatherEnd(data: ByteString, cursor: nat, k: nat, low: nat, shift: nat)
    requires k == MAX_GROUPS || (k < MAX_GROUPS && cursor >= |data|)
    ensures Gathered(low, shift, VarintFrom(data, cursor, k)) == None
  {
  }

  lemma GatherStart(data: ByteString, start: nat)
    ensures DecodeVarint(data, start) == Gathered(0, 0, VarintFrom(data, start, 0))
    ensures Pow2(0) == 1
  {
  }

  method ReadVarint(data: ByteString, start: nat) returns (r: Option<Varint>)
    ensures r == DecodeVarint(data, start)
  {
    hide VarintFrom, DecodeVarint, Gathered, Pow2, Or, ShiftLeft;
    var result: nat, shift: nat, cursor: nat := 0, 0, start;
    ghost var k := 0;
    GatherStart(data, start);
    while shift < 64
      invariant shift == 7 * k && k <= MAX_GROUPS && cursor == start + k
      invariant result < Pow2(shift)
      invariant DecodeVarint(data, start) == Gathered(result, shift, VarintFrom(data, cursor, k))
      decreases MAX_GROUPS - k
    {
      if cursor >= |data| {
        GatherEnd(data, cursor, k, result, shift);
        return None;
      }
      var b := data[cursor];
      GatherStep(data, cursor, k, result, shift, b % 128);
      cursor := cursor + 1;
      result := Or(result, ShiftLeft(b % 128, shift));
      if b < 128 {
        return Some(Varint(result, cursor));
      }
      shift, k := shift + 7, k + 1;
    }
    GatherEnd(data, cursor, k, result, shift);
    return None;
  }

  // ----- The offer -----

  datatype Value = Number(n: nat) | Text(payload: ByteString)

  type Offer = map<string, Value>

  const STRING_FIELDS: map<nat, string> := map[
    1 := "transfer_id", 2 := "command_id", 3 := "operation_id", 4 := "resource_id",
    5 := "agent_id", 6 := "artifact_id", 10 := "format"]

  const VARINT_FIELDS: map<nat, string> := map[7 := "kind", 8 := "sha256", 13 := "expires_at_unix_ms"]

  /** `Raised`: the error that escapes when an inner varint cannot be read. */
  datatype OfferOutcome = Decoded(offer: Offer) | Malformed | Raised

  function OfferFrom(bytes: ByteString, position: nat, offer: Offer): OfferOutcome
    decreases |bytes| - position
  {
    if position >= |bytes| then Decoded(offer)
    else
      var tag := DecodeVarint(bytes, position);
      if tag.None? then Malformed
      else
        var field, wire, at := tag.value.value / 8, tag.value.value % 8, tag.value.next;
        VarintAdvances(bytes, position, 0);
        if wire == 0 then
          var v := DecodeVarint(bytes, at);
          if v.None? then Raised
          else
            VarintAdvances(bytes, at, 0);
            OfferFrom(bytes, v.value.next,
                      if field in VARINT_FIELDS then offer[VARINT_FIELDS[field] := Number(v.value.value)] else offer)
        else if wire == 2 then
          var n := DecodeVarint(bytes, at);
          if n.None? then Raised
          else
            VarintAdvances(bytes, at, 0);
            var end := n.value.next + n.value.value;
            if end > |bytes| then Malformed
            else
              OfferFrom(bytes, end,
                        if field in STRING_FIELDS then offer[STRING_FIELDS[field] := Text(bytes[n.value.next..end])] else offer)
        else if wire == 1 then OfferFrom(bytes, at + 8, offer)
        else if wire == 5 then OfferFrom(bytes, at + 4, offer)
        else Malformed
  }

  lemma {:induction false} VarintAdvances(data: ByteString, cursor: nat, k: nat)
    requires k <= MAX_GROUPS
    ensures var r := VarintFrom(data, cursor, k);
            r.Some? ==> cursor < r.value.next <= |data| && r.value.next <= cursor + (MAX_GROUPS - k)
    decreases MAX_GROUPS - k
  {
    if k < MAX_GROUPS {
      VarintAdvances(data, cursor + 1, k + 1);
    }
  }

  // ----- The manifest -----

  const MAGIC: ByteString := [79, 51, 75, 65, 82, 84, 49]

  function FromLittleEndian(bytes: ByteString): nat {
    if bytes == [] then 0 else bytes[0] + 256 * FromLittleEndian(bytes[1..])
  }

  function Signed32(n: nat): int {
    if n < 0x8000_0000 then n else n - 0x1_0000_0000
  }

  datatype Outcome =
    | Manifest(offer: Offer, state: int, nextChunk: nat, received: nat)
    | Unparseable
    | Error

  function DecodeManifest(data: ByteString): Outcome {
    if !(MAGIC <= data) || |data| < 28 || data[7] != 1 then Unparseable
    else
      var length := FromLittleEndian(data[8..12]);
      if 12 + length > |data| || |data| - (12 + length) != 16 then Unparseable
      else
        var trailer := data[12 + length..];
        match OfferFrom(data[12..12 + length], 0, map[])
        case Malformed => Unparseable
        case Raised => Error
        case Decoded(offer) =>
          Manifest(offer, Signed32(FromLittleEndian(trailer[..4])),
                   FromLittleEndian(trailer[4..8]), FromLittleEndian(trailer[8..16]))
  }

  /** The loop over the fields, with a position that advances and an offer that fills up. */
  method DecodeOffer(bytes: ByteString) returns (outcome: OfferOutcome)
    ensures outcome == OfferFrom(bytes, 0, map[])
  {
    var offer: Offer := map[];
    var position := 0;
    hide VarintFrom, STRING_FIELDS, VARINT_FIELDS;
    while position < |bytes|
      invariant OfferFrom(bytes, 0, map[]) == OfferFrom(bytes, position, offer)
      decreases |bytes| - position
    {
      var tag := ReadVarint(bytes, position);
      if tag.None? {
        return Malformed;
      }
      VarintAdvances(bytes, position, 0);
      var field, wire := tag.value.value / 8, tag.value.value % 8;
      position := tag.value.next;
      if wire == 0 {
        var v := ReadVarint(bytes, position);
        if v.None? {
          return Raised;
        }
        VarintAdvances(bytes, position, 0);
        position := v.value.next;
        if field in VARINT_FIELDS {
          offer := offer[VARINT_FIELDS[field] := Number(v.value.value)];
        }
      } else if wire == 2 {
        var n := ReadVarint(bytes, position);
        if n.None? {
          return Raised;
        }
        VarintAdvances(bytes, position, 0);
        position := n.value.next;
        if position + n.value.value > |bytes| {
          return Malformed;
        }
        var payload := bytes[position..position + n.value.value];
        position := position + n.value.value;
        if field in STRING_FIELDS {
          offer := offer[STRING_FIELDS[field] := Text(payload)];
        }
      } else if wire == 1 {
        position := position + 8;
      } else if wire == 5 {
        position := position + 4;
      } else {
        return Malformed;
      }
    }
    return Decoded(offer);
  }

  lemma SliceOfSlice(data: ByteString, cursor: nat, i: nat, j: nat)
    requires i <= j && cursor + j <= |data|
    ensures data[cursor..][i..j] == data[cursor + i..cursor + j]
  {
  }

  method DecodeArtifactManifest(data: ByteString) returns (outcome: Outcome)
    ensures outcome == DecodeManifest(data)
  {
    hide OfferFrom, FromLittleEndian;
    if !(MAGIC <= data) || |data| < 28 {
      return Unparseable;
    }
    var cursor := |MAGIC| + 1;
    if data[7] != 1 {
      return Unparseable;
    }
    var length := FromLittleEndian(data[cursor..cursor + 4]);
    cursor := cursor + 4;
    if cursor + length > |data| {
      return Unparseable;
    }
    var offerBytes := data[cursor..cursor + length];
    cursor := cursor + length;
    if |data| - cursor != 16 {
      return Unparseable;
    }
    var fields := DecodeOffer(offerBytes);
    match fields {
      case Malformed => return Unparseable;
      case Raised => return Error;
      case Decoded(offer) =>
        SliceOfSlice(data, cursor, 0, 4);
        SliceOfSlice(data, cursor, 4, 8);
        SliceOfSlice(data, cursor, 8, 16);
        return Manifest(offer,
                        Signed32(FromLittleEndian(data[cursor..cursor + 4])),
                        FromLittleEndian(data[cursor + 4..cursor + 8]),
                        FromLittleEndian(data[cursor + 8..cursor + 16]));
    }
  }
}
